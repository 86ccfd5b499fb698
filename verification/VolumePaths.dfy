/** Where the migration dialog proposes to put each bind mount (client/src/lib/migration-volume-paths.ts). */
module VolumePaths {
  import opened Text
  import opened Paths

  const FALLBACK_NAME := "data"

  function WithSlashes(path: string): string {
    seq(|path|, i requires 0 <= i < |path| => if path[i] == '\\' then '/' else path[i])
  }

  function SegmentsOf(path: string): seq<string> {
    Split(WithSlashes(path), '/')
  }

  /** Both slashes separate segments. */
  lemma SlashesSeparate(first: string, rest: string)
    ensures SegmentsOf(first + "/" + rest) == SegmentsOf(first) + SegmentsOf(rest)
    ensures SegmentsOf(first + "\\" + rest) == SegmentsOf(first) + SegmentsOf(rest)
  {
    assert WithSlashes(first + "/" + rest) == WithSlashes(first) + ['/'] + WithSlashes(rest);
    assert WithSlashes(first + "\\" + rest) == WithSlashes(first) + ['/'] + WithSlashes(rest);
    SplitAppend(WithSlashes(first), '/', WithSlashes(rest));
  }

  // ----- Relative paths -----

  /** Some `..` goes above the start, `depth` levels below which the walk begins. */
  predicate Escapes(depth: nat, segments: seq<string>)
    decreases |segments|
  {
    segments != [] &&
    if segments[0] == "" || segments[0] == "." then Escapes(depth, segments[1..])
    else if segments[0] == ".." then if depth == 0 then true else Escapes(depth - 1, segments[1..])
    else Escapes(depth + 1, segments[1..])
  }

  datatype ResolvedRelativePath = ResolvedRelativePath(escapes: bool, isStackRoot: bool, name: string)

  method ResolveRelativePath(path: string) returns (r: ResolvedRelativePath)
    ensures r.escapes <==> Escapes(0, SegmentsOf(path))
    ensures r.isStackRoot <==> !r.escapes && Walk([], SegmentsOf(path)) == []
    ensures var kept := Walk([], SegmentsOf(path));
      r.name == if kept == [] then FALLBACK_NAME else kept[|kept| - 1]
  {
    hide SegmentsOf;
    var segments := SegmentsOf(path);
    var kept: seq<string> := [];
    var escapes := false;
    for i := 0 to |segments|
      invariant Walk(kept, segments[i..]) == Walk([], segments)
      invariant escapes || (Escapes(|kept|, segments[i..]) <==> Escapes(0, segments))
      invariant escapes ==> Escapes(0, segments)
    {
      var segment := segments[i];
      assert segments[i..][0] == segment && segments[i..][1..] == segments[i + 1..];
      if segment != "" && segment != "." {
        if segment != ".." {
          kept := kept + [segment];
        } else if |kept| > 0 {
          kept := kept[..|kept| - 1];
        } else {
          escapes := true;
        }
      }
    }
    r := ResolvedRelativePath(escapes, !escapes && kept == [], if kept == [] then FALLBACK_NAME else kept[|kept| - 1]);
  }

  /** A path that does not escape resolves inside whatever directory it starts from. */
  lemma {:induction false} StaysInside(base: Path, kept: Path, segments: seq<string>)
    requires !Escapes(|kept|, segments)
    ensures Walk(base + kept, segments) == base + Walk(kept, segments)
    decreases |segments|
  {
    if segments != [] {
      var rest := segments[1..];
      if segments[0] == "" || segments[0] == "." {
        StaysInside(base, kept, rest);
      } else if segments[0] == ".." {
        assert (base + kept)[..|base + kept| - 1] == base + kept[..|kept| - 1];
        StaysInside(base, kept[..|kept| - 1], rest);
      } else {
        assert base + kept + [segments[0]] == base + (kept + [segments[0]]);
        StaysInside(base, kept + [segments[0]], rest);
      }
    }
  }

  /** A walk never comes back to a name that its segments do not mention. */
  lemma {:induction false} NeverComesBack(name: string, from: Path, segments: seq<string>)
    requires name !in from && name !in segments
    ensures name !in Walk(from, segments)
    decreases |segments|
  {
    if segments != [] {
      var rest := segments[1..];
      if segments[0] == "" || segments[0] == "." {
        NeverComesBack(name, from, rest);
      } else if segments[0] == ".." {
        NeverComesBack(name, if from == [] then [] else from[..|from| - 1], rest);
      } else {
        NeverComesBack(name, from + [segments[0]], rest);
      }
    }
  }

  lemma {:induction false} LeavesFreshDirectory(name: string, kept: Path, segments: seq<string>)
    requires Escapes(|kept|, segments) && name !in segments && name !in kept
    ensures name !in Walk([name] + kept, segments)
    decreases |segments|
  {
    var rest := segments[1..];
    if segments[0] == "" || segments[0] == "." {
      LeavesFreshDirectory(name, kept, rest);
    } else if segments[0] == ".." {
      if kept == [] {
        assert ([name] + kept)[..|[name] + kept| - 1] == [];
        NeverComesBack(name, [], rest);
      } else {
        assert ([name] + kept)[..|[name] + kept| - 1] == [name] + kept[..|kept| - 1];
        LeavesFreshDirectory(name, kept[..|kept| - 1], rest);
      }
    } else {
      assert [name] + kept + [segments[0]] == [name] + (kept + [segments[0]]);
      LeavesFreshDirectory(name, kept + [segments[0]], rest);
    }
  }

  function LongerThanAll(segments: seq<string>): (name: string)
    ensures forall s :: s in segments ==> |s| < |name|
  {
    if segments == [] then ""
    else
      var rest := LongerThanAll(segments[1..]);
      var name := if |segments[0]| < |rest| then rest else segments[0] + "x";
      assert |name| >= |rest|;
      name
  }

  /** The escape flag is right: it is unset exactly for the paths that stay inside every directory they start from. */
  lemma EscapesIff(segments: seq<string>)
    ensures !Escapes(0, segments) <==> forall base: Path :: base <= Walk(base, segments)
  {
    if Escapes(0, segments) {
      var name := LongerThanAll(segments);
      LeavesFreshDirectory(name, [], segments);
      assert [name] + [] == [name];
      assert !([name] <= Walk([name], segments));
    } else {
      forall base: Path
        ensures base <= Walk(base, segments)
      {
        StaysInside(base, [], segments);
        assert base + [] == base;
      }
    }
  }

  // ----- Fresh targets -----

  /** `./volumes/<name>`, then `./volumes/<name>-2`, `-3`, ... */
  function Candidate(name: string, suffix: nat): string {
    if suffix < 2 then "./volumes/" + name else "./volumes/" + name + "-" + Decimal(suffix)
  }

  lemma CandidatesDiffer(name: string, a: nat, b: nat)
    requires 1 <= a < b
    ensures Candidate(name, a) != Candidate(name, b)
  {
    var base := "./volumes/" + name;
    if a == 1 {
      assert |Candidate(name, b)| > |base|;
    } else if Candidate(name, a) == Candidate(name, b) {
      assert Candidate(name, a)[|base| + 1..] == Decimal(a);
      assert Candidate(name, b)[|base| + 1..] == Decimal(b);
      DecimalInjective(a, b);
    }
  }

  function Tried(name: string, n: nat): set<string> {
    set k | 1 <= k < n :: Candidate(name, k)
  }

  lemma {:induction false} TriedIsLarge(name: string, n: nat)
    requires n >= 1
    ensures |Tried(name, n)| == n - 1
  {
    if n > 1 {
      TriedIsLarge(name, n - 1);
      hide Candidate;
      forall k | 1 <= k < n - 1
        ensures Candidate(name, k) != Candidate(name, n - 1)
      {
        CandidatesDiffer(name, k, n - 1);
      }
      assert Tried(name, n) == Tried(name, n - 1) + {Candidate(name, n - 1)};
    } else {
      assert Tried(name, 1) == {};
    }
  }

  lemma {:induction false} SubsetIsSmaller(a: set<string>, b: set<string>)
    requires a <= b
    ensures |a| <= |b|
  {
    if s :| s in a {
      SubsetIsSmaller(a - {s}, b - {s});
    }
  }

  /** The first candidate not taken; there is one, because finitely many names cannot block infinitely many candidates. */
  method VolumesPathFor(name: string, taken: set<string>) returns (candidate: string, takenAfter: set<string>)
    ensures candidate !in taken && takenAfter == taken + {candidate}
    ensures exists n: nat ::
      n >= 1 && candidate == Candidate(name, n) && forall k :: 1 <= k < n ==> Candidate(name, k) in taken
    ensures IsTargetFor(name, candidate)
  {
    candidate := Candidate(name, 1);
    var suffix := 2;
    ghost var n := 1;
    while candidate in taken
      invariant n >= 1 && suffix == n + 1 && candidate == Candidate(name, n)
      invariant forall k :: 1 <= k < n ==> Candidate(name, k) in taken
      decreases |taken| + 2 - n
    {
      assert Tried(name, n + 1) <= taken;
      TriedIsLarge(name, n + 1);
      SubsetIsSmaller(Tried(name, n + 1), taken);
      candidate := "./volumes/" + name + "-" + Decimal(suffix);
      suffix := suffix + 1;
      n := n + 1;
    }
    takenAfter := taken + {candidate};
  }

  // ----- The choices of the dialog -----

  datatype Kind = Absolute | Relative

  datatype BindMountChoice = BindMountChoice(
    kind: Kind,
    originalPath: string,
    volumesPath: string,
    moveIntoVolumes: bool,
    mustMove: bool,
    mustKeep: bool)

  function NamedTargets(namedVolumes: seq<string>): set<string> {
    set name | name in namedVolumes :: "./volumes/" + name
  }

  /** Targets are given to all mounts that can move. */
  ghost predicate TargetsAreApart(choices: seq<BindMountChoice>, namedVolumes: seq<string>) {
    && (forall i, j :: 0 <= i < j < |choices| && !choices[i].mustKeep && !choices[j].mustKeep ==>
          choices[i].volumesPath != choices[j].volumesPath)
    && (forall c :: c in choices && !c.mustKeep ==> c.volumesPath !in NamedTargets(namedVolumes))
  }

  /** All targets so far are taken. */
  ghost predicate TargetsAreTaken(choices: seq<BindMountChoice>, taken: set<string>) {
    forall c :: c in choices && !c.mustKeep ==> c.volumesPath in taken
  }

  lemma OneMoreTarget(choices: seq<BindMountChoice>, choice: BindMountChoice, namedVolumes: seq<string>, taken: set<string>)
    requires TargetsAreApart(choices, namedVolumes)
    requires TargetsAreTaken(choices, taken) && NamedTargets(namedVolumes) <= taken
    requires choice.mustKeep || choice.volumesPath !in taken
    ensures TargetsAreApart(choices + [choice], namedVolumes)
    ensures TargetsAreTaken(choices + [choice], taken + {choice.volumesPath})
  {
    hide NamedTargets;
    var all := choices + [choice];
    forall i, j | 0 <= i < j < |all| && !all[i].mustKeep && !all[j].mustKeep
      ensures all[i].volumesPath != all[j].volumesPath
    {
      assert all[i] == choices[i] && choices[i] in choices;
    }
  }

  /** The choice offered for a relative mount: forced to move when it escapes, forced to stay when it is the stack
      directory itself. */
  ghost predicate IsRelativeChoice(c: BindMountChoice, path: string) {
    var segments := SegmentsOf(path);
    && c.kind == Relative && c.originalPath == path && c.moveIntoVolumes == !c.mustKeep
    && (if c.mustKeep then c.volumesPath == path
        else
          var kept := Walk([], segments);
          IsTargetFor(if kept == [] then "data" else kept[|kept| - 1], c.volumesPath))
    && (c.mustMove <==> Escapes(0, segments))
    && (c.mustKeep <==> !Escapes(0, segments) && Walk([], segments) == [])
  }

  ghost predicate IsAbsoluteChoice(c: BindMountChoice, path: string, shown: string) {
    && c.kind == Absolute && c.originalPath == path && c.moveIntoVolumes && !c.mustMove && !c.mustKeep
    && IsTargetFor(if shown == "" then "data" else shown, c.volumesPath)
  }

  /** A place below `./volumes` called after `name`, possibly with a number behind it. */
  ghost predicate IsTargetFor(name: string, target: string) {
    target == "./volumes/" + name || exists n: nat :: n >= 2 && target == "./volumes/" + name + "-" + Decimal(n)
  }

  method BuildBindMountChoices(namedVolumes: seq<string>, absolutePaths: seq<string>, relativePaths: seq<string>,
                               displayName: string -> string)
    returns (choices: seq<BindMountChoice>)
    ensures TargetsAreApart(choices, namedVolumes)
    ensures |choices| == |absolutePaths| + |relativePaths|
    ensures forall i :: 0 <= i < |absolutePaths| ==>
      IsAbsoluteChoice(choices[i], absolutePaths[i], displayName(absolutePaths[i]))
    ensures forall i :: 0 <= i < |relativePaths| ==> IsRelativeChoice(choices[|absolutePaths| + i], relativePaths[i])
  {
    hide IsRelativeChoice, TargetsAreApart, TargetsAreTaken, NamedTargets, IsTargetFor;
    var taken := NamedTargets(namedVolumes);
    choices := [];
    NoTargetsYet(namedVolumes);
    for i := 0 to |absolutePaths|
      invariant |choices| == i && NamedTargets(namedVolumes) <= taken
      invariant TargetsAreApart(choices, namedVolumes) && TargetsAreTaken(choices, taken)
      invariant forall k :: 0 <= k < i ==> IsAbsoluteChoice(choices[k], absolutePaths[k], displayName(absolutePaths[k]))
    {
      var shown := displayName(absolutePaths[i]);
      var candidate, takenAfter := VolumesPathFor(if shown == "" then FALLBACK_NAME else shown, taken);
      var choice := BindMountChoice(Absolute, absolutePaths[i], candidate, true, false, false);
      OneMoreTarget(choices, choice, namedVolumes, taken);
      choices, taken := choices + [choice], takenAfter;
    }
    var n := |absolutePaths|;
    for i := 0 to |relativePaths|
      invariant |choices| == n + i && NamedTargets(namedVolumes) <= taken
      invariant TargetsAreApart(choices, namedVolumes) && TargetsAreTaken(choices, taken)
      invariant forall k :: 0 <= k < n ==> IsAbsoluteChoice(choices[k], absolutePaths[k], displayName(absolutePaths[k]))
      invariant forall k :: 0 <= k < i ==> IsRelativeChoice(choices[n + k], relativePaths[k])
    {
      var choice, takenAfter := ToRelativeChoice(relativePaths[i], taken);
      OneMoreTarget(choices, choice, namedVolumes, taken);
      if choice.mustKeep {
        StillTaken(choices, choice, taken);
      }
      choices, taken := choices + [choice], takenAfter;
    }
  }

  method ToRelativeChoice(originalPath: string, taken: set<string>)
    returns (choice: BindMountChoice, takenAfter: set<string>)
    ensures IsRelativeChoice(choice, originalPath)
    ensures takenAfter == if choice.mustKeep then taken else taken + {choice.volumesPath}
    ensures !choice.mustKeep ==> choice.volumesPath !in taken
  {
    var resolved := ResolveRelativePath(originalPath);
    if resolved.isStackRoot {
      return BindMountChoice(Relative, originalPath, originalPath, false, false, true), taken;
    }
    var candidate;
    candidate, takenAfter := VolumesPathFor(resolved.name, taken);
    choice := BindMountChoice(Relative, originalPath, candidate, true, resolved.escapes, false);
  }

  lemma NoTargetsYet(namedVolumes: seq<string>)
    ensures TargetsAreApart([], namedVolumes) && TargetsAreTaken([], NamedTargets(namedVolumes))
  {
  }

  /** A choice that must stay consumes no target name. */
  lemma StillTaken(choices: seq<BindMountChoice>, choice: BindMountChoice, taken: set<string>)
    requires TargetsAreTaken(choices, taken) && choice.mustKeep
    ensures TargetsAreTaken(choices + [choice], taken)
  {
  }

  // ----- What is requested -----

  datatype VolumeSelection = VolumeSelection(originalPath: string, newPath: string, convert: bool)

  function ToVolumeSelection(choice: BindMountChoice): VolumeSelection {
    match choice.kind
    case Absolute => VolumeSelection(choice.originalPath, choice.volumesPath, choice.moveIntoVolumes)
    case Relative =>
      var newPath := if choice.moveIntoVolumes then choice.volumesPath else choice.originalPath;
      VolumeSelection(choice.originalPath, newPath, true)
  }

  /** What is asked for: a mount to move goes to its target; an absolute one that stays is left alone, and a relative one
      that stays is copied to the same relative place. */
  lemma SelectionIs(choice: BindMountChoice)
    ensures var selection := ToVolumeSelection(choice);
      && selection.originalPath == choice.originalPath
      && (selection.convert <==> choice.moveIntoVolumes || choice.kind == Relative)
      && (selection.convert ==>
            selection.newPath == if choice.moveIntoVolumes then choice.volumesPath else choice.originalPath)
  {
  }

  /** A relative mount that stays where it is. */
  predicate IsKept(choice: BindMountChoice) {
    choice.kind == Relative && !choice.moveIntoVolumes
  }

  function ToVolumeSelections(choices: seq<BindMountChoice>): seq<VolumeSelection> {
    seq(|choices|, i requires 0 <= i < |choices| => ToVolumeSelection(choices[i]))
  }

  /** However the user sets the switches, two selections ask for one place only if a relative mount is kept where it is. */
  lemma SelectionsCollideOnlyWhenKept(offered: seq<BindMountChoice>, chosen: seq<BindMountChoice>,
                                      namedVolumes: seq<string>, i: nat, j: nat)
    requires TargetsAreApart(offered, namedVolumes) && |chosen| == |offered| && i < j < |chosen|
    requires forall k :: 0 <= k < |chosen| ==> chosen[k] == offered[k].(moveIntoVolumes := chosen[k].moveIntoVolumes)
    requires forall k :: 0 <= k < |chosen| && chosen[k].mustKeep ==> IsKept(chosen[k])
    requires var selections := ToVolumeSelections(chosen);
      selections[i].convert && selections[j].convert && selections[i].newPath == selections[j].newPath
    ensures IsKept(chosen[i]) || IsKept(chosen[j])
  {
    assert offered[i].mustKeep == chosen[i].mustKeep && offered[j].mustKeep == chosen[j].mustKeep;
  }
}
