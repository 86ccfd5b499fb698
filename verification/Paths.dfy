/** Absolute paths as lists of segments, with the path operations the migration code uses. The root is
    the empty list. */
module Paths {

  type Path = seq<string>

  /** A path as somebody spelled it, cut at the slashes. */
  datatype RawPath = RawPath(absolute: bool, segments: seq<string>)

  predicate IsRealSegment(segment: string) {
    segment != "" && segment != "." && segment != ".."
  }

  predicate IsNormal(path: Path) {
    forall s :: s in path ==> IsRealSegment(s)
  }

  /** Applies segments one by one: `.` and empty ones do nothing, `..` goes up (and stays at the root). */
  function Walk(from: Path, segments: seq<string>): Path
    decreases |segments|
  {
    if segments == [] then from
    else if segments[0] == "" || segments[0] == "." then Walk(from, segments[1..])
    else if segments[0] == ".." then Walk(if from == [] then [] else from[..|from| - 1], segments[1..])
    else Walk(from + [segments[0]], segments[1..])
  }

  /** `path.resolve(base, raw)`. */
  function Resolve(base: Path, raw: RawPath): Path {
    Walk(if raw.absolute then [] else base, raw.segments)
  }

  lemma {:induction false} WalkIsNormal(from: Path, segments: seq<string>)
    requires IsNormal(from)
    ensures IsNormal(Walk(from, segments))
    decreases |segments|
  {
    if segments != [] {
      if segments[0] == "" || segments[0] == "." {
        WalkIsNormal(from, segments[1..]);
      } else if segments[0] == ".." {
        WalkIsNormal(if from == [] then [] else from[..|from| - 1], segments[1..]);
      } else {
        WalkIsNormal(from + [segments[0]], segments[1..]);
      }
    }
  }

  /** Normal segments are walked as they are. */
  lemma {:induction false} WalkNormal(from: Path, segments: seq<string>)
    requires IsNormal(segments)
    ensures Walk(from, segments) == from + segments
    decreases |segments|
  {
    if segments != [] {
      assert segments[0] in segments;
      WalkNormal(from + [segments[0]], segments[1..]);
      assert from + [segments[0]] + segments[1..] == from + segments;
    } else {
      assert from + [] == from;
    }
  }

  function Ups(n: nat): seq<string> {
    seq(n, _ => "..")
  }

  /** `path.relative(from, to)` as segments. */
  function Relative(from: Path, to: Path): seq<string> {
    if from != [] && to != [] && from[0] == to[0] then Relative(from[1..], to[1..])
    else Ups(|from|) + to
  }

  /** `relative.startsWith("..")`: true for every way up, and for a name that merely begins with two dots. */
  predicate StartsWithDots(relative: seq<string>) {
    relative != [] && ".." <= relative[0]
  }

  /** The relative path to something at or below `from` is the rest of it; every other one starts with `..`. */
  lemma {:induction false} RelativeIs(from: Path, to: Path)
    ensures from <= to ==> Relative(from, to) == to[|from|..]
    ensures !(from <= to) ==> Relative(from, to) != [] && Relative(from, to)[0] == ".."
  {
    if from != [] && to != [] && from[0] == to[0] {
      RelativeIs(from[1..], to[1..]);
      assert from == [from[0]] + from[1..] && to == [to[0]] + to[1..];
      assert from <= to <==> from[1..] <= to[1..];
    } else if from == [] {
      assert Ups(0) + to == to;
    }
  }

  /** What the `startsWith("..")` test really accepts: paths at or below `from` whose next segment does not begin
      with two dots. */
  lemma DotsTestIs(from: Path, to: Path)
    ensures !StartsWithDots(Relative(from, to)) <==> from <= to && (|to| > |from| ==> !(".." <= to[|from|]))
  {
    RelativeIs(from, to);
  }

  /** Neither path is the other or lies below it. */
  predicate Disjoint(a: Path, b: Path) {
    !(a <= b) && !(b <= a)
  }

  lemma DisjointBelow(a: Path, b: Path, p: Path, q: Path)
    requires Disjoint(a, b) && a <= p && b <= q
    ensures Disjoint(p, q)
  {
    if |a| <= |b| {
      assert a != b[..|a|];
      assert p[..|a|] == a && q[..|a|] == b[..|a|];
    } else {
      assert b != a[..|b|];
      assert q[..|b|] == b && p[..|b|] == a[..|b|];
    }
  }
}
