/** A disk as a map from paths to nodes, with the directory operations the migration uses
    (server/src/infrastructure/volume-migrator.ts, stack-filesystem.ts). Renames are atomic and there
    are no symbolic links. */
module FileTree {
  import opened Paths

  datatype Node = Dir | File(content: string)

  type Fs = map<Path, Node>

  const EMPTY_DIRECTORY: Fs := map[[] := Dir]

  /** Something is at `at` (`lstat` succeeds). */
  predicate Taken(fs: Fs, at: Path) {
    exists p :: p in fs && at <= p
  }

  function Below(at: Path, p: Path): (r: Path)
    requires at <= p
    ensures at + r == p
  {
    p[|at|..]
  }

  function Under(at: Path, r: Path): (p: Path)
    ensures at <= p && Below(at, p) == r
  {
    at + r
  }

  /** The tree at `at`, by paths relative to it. */
  function Subtree(fs: Fs, at: Path): Fs {
    map r | r in (set p | p in fs && at <= p :: Below(at, p)) :: fs[at + r]
  }

  lemma SubtreeHas(fs: Fs, at: Path, r: Path)
    ensures r in Subtree(fs, at) <==> Under(at, r) in fs
    ensures r in Subtree(fs, at) ==> Subtree(fs, at)[r] == fs[Under(at, r)]
  {
    if Under(at, r) in fs {
      assert Below(at, Under(at, r)) == r;
    }
  }

  /** Two trees are equal when they agree entry by entry. */
  lemma SubtreesEqual(fs: Fs, a: Path, gs: Fs, b: Path)
    requires forall r :: Under(a, r) in fs <==> Under(b, r) in gs
    requires forall r :: Under(a, r) in fs ==> fs[Under(a, r)] == gs[Under(b, r)]
    ensures Subtree(fs, a) == Subtree(gs, b)
  {
    hide Subtree, Under;
    forall r: Path
      ensures r in Subtree(fs, a) <==> r in Subtree(gs, b)
      ensures r in Subtree(fs, a) ==> Subtree(fs, a)[r] == Subtree(gs, b)[r]
    {
      SubtreeHas(fs, a, r);
      SubtreeHas(gs, b, r);
    }
  }

  function Overlay(at: Path, tree: Fs): Fs {
    map p | p in (set r | r in tree :: Under(at, r)) :: tree[Below(at, p)]
  }

  /** The tree laid over whatever is at `at`. */
  function Place(fs: Fs, at: Path, tree: Fs): Fs {
    fs + Overlay(at, tree)
  }

  lemma OverlayHas(at: Path, tree: Fs, p: Path)
    ensures p in Overlay(at, tree) <==> at <= p && Below(at, p) in tree
    ensures p in Overlay(at, tree) ==> Overlay(at, tree)[p] == tree[Below(at, p)]
  {
    if at <= p && Below(at, p) in tree {
      assert Under(at, Below(at, p)) == p;
    }
  }

  lemma SubtreeOfPlace(fs: Fs, at: Path, tree: Fs)
    ensures Subtree(Place(fs, at, tree), at) == Subtree(fs, at) + tree
  {
    hide Subtree, Under, Overlay;
    forall r: Path
      ensures r in Subtree(Place(fs, at, tree), at) <==> r in Subtree(fs, at) + tree
      ensures r in Subtree(fs, at) + tree ==> Subtree(Place(fs, at, tree), at)[r] == (Subtree(fs, at) + tree)[r]
    {
      SubtreeHas(Place(fs, at, tree), at, r);
      SubtreeHas(fs, at, r);
      OverlayHas(at, tree, Under(at, r));
    }
  }

  /** `rm -r`. */
  function Prune(fs: Fs, dir: Path): Fs {
    map p | p in fs && !(dir <= p) :: fs[p]
  }

  function Prefixes(dir: Path): set<Path> {
    set k | 0 <= k <= |dir| :: dir[..k]
  }

  lemma PrefixesAre(dir: Path, p: Path)
    ensures p in Prefixes(dir) <==> p <= dir
  {
    if p <= dir {
      assert dir[..|p|] == p;
    }
  }

  /** `mkdir -p`: the missing directories on the way to `dir`, and `dir`. */
  function MakeDirs(fs: Fs, dir: Path): Fs {
    (map p | p in Prefixes(dir) :: Dir) + fs
  }

  lemma MakeDirsHas(fs: Fs, dir: Path, p: Path)
    ensures p in MakeDirs(fs, dir) <==> p in fs || p <= dir
    ensures p in MakeDirs(fs, dir) ==> MakeDirs(fs, dir)[p] == if p in fs then fs[p] else Dir
  {
    PrefixesAre(dir, p);
  }

  /** No file is in the way of `dir`. */
  predicate Reachable(fs: Fs, dir: Path) {
    forall p :: p in fs && p <= dir ==> fs[p] == Dir
  }

  function Parent(p: Path): Path {
    if p == [] then [] else p[..|p| - 1]
  }

  function Rename(fs: Fs, from: Path, to: Path): Fs {
    Place(Prune(fs, from), to, Subtree(fs, from))
  }

  /** A copy of `tree` at `to`, whose parents are made when missing. */
  function CopyTo(fs: Fs, to: Path, tree: Fs): Fs {
    Place(MakeDirs(fs, Parent(to)), to, tree)
  }

  /** No entry of the tree meets one of the other kind at `at`. */
  predicate Meets(fs: Fs, at: Path, tree: Fs) {
    forall r :: r in tree && Under(at, r) in fs ==> fs[Under(at, r)].Dir? == tree[r].Dir?
  }

  // ----- What an operation leaves alone -----

  /** The disks agree outside `dir`. */
  ghost predicate SameOutside(fs: Fs, gs: Fs, dir: Path) {
    forall p :: !(dir <= p) ==> (p in fs <==> p in gs) && (p in fs ==> fs[p] == gs[p])
  }

  /** From `fs` to `gs` nothing changed but the tree at `at` and missing directories on the way to it. */
  ghost predicate Confined(fs: Fs, gs: Fs, at: Path) {
    && (forall p :: p in fs && !(at <= p) ==> p in gs && gs[p] == fs[p])
    && (forall p :: p in gs && !(at <= p) && p !in fs ==> p <= at && gs[p] == Dir)
  }

  /** All directories above `dir` exist. */
  ghost predicate Established(fs: Fs, dir: Path) {
    forall p :: p < dir ==> p in fs && fs[p] == Dir
  }

  /** Every entry lies in a directory. */
  ghost predicate WellFormed(fs: Fs) {
    forall p :: p in fs ==> Established(fs, p)
  }

  /** On a real disk, where every entry lies in a directory, a path is taken when it has an entry. */
  lemma TakenIsPresent(fs: Fs, at: Path)
    requires WellFormed(fs)
    ensures Taken(fs, at) <==> at in fs
  {
    if p :| p in fs && at <= p {
      assert Established(fs, p);
      assert at < p || at == p;
    }
  }

  /** Two prefixes of one path are comparable. */
  lemma PrefixesCompare(a: Path, b: Path, p: Path)
    requires a <= p && b <= p
    ensures a <= b || b <= a
  {
    assert p[..|a|] == a && p[..|b|] == b;
  }

  lemma PrefixTrans(a: Path, b: Path, c: Path)
    requires a <= b && b <= c
    ensures a <= c
  {
  }

  lemma SameOutsideItself(fs: Fs, dir: Path)
    ensures SameOutside(fs, fs, dir)
  {
  }

  lemma SameOutsideTrans(fs: Fs, gs: Fs, hs: Fs, dir: Path)
    requires SameOutside(fs, gs, dir) && SameOutside(gs, hs, dir)
    ensures SameOutside(fs, hs, dir)
  {
  }

  lemma OutsideIsConfined(fs: Fs, gs: Fs, dir: Path)
    requires SameOutside(fs, gs, dir)
    ensures Confined(fs, gs, dir)
  {
  }

  /** A change confined to a place inside an existing directory does not show outside that directory. */
  lemma ConfinedInside(fs: Fs, gs: Fs, at: Path, dir: Path)
    requires Confined(fs, gs, at) && dir <= at && Established(fs, dir)
    ensures SameOutside(fs, gs, dir) && Established(gs, dir)
  {
    forall p | !(dir <= p)
      ensures (p in fs <==> p in gs) && (p in fs ==> fs[p] == gs[p])
    {
      assert !(at <= p);
      if p in gs && p !in fs {
        PrefixesCompare(p, dir, at);
      }
    }
  }

  lemma ConfinedTrans(fs: Fs, gs: Fs, hs: Fs, at: Path)
    requires Confined(fs, gs, at) && Confined(gs, hs, at)
    ensures Confined(fs, hs, at)
  {
  }

  lemma MakeDirsConfined(fs: Fs, dir: Path, at: Path)
    requires dir <= at
    ensures Confined(fs, MakeDirs(fs, dir), at)
  {
    hide MakeDirs;
    forall p: Path {
      MakeDirsHas(fs, dir, p);
    }
  }

  lemma PlaceConfined(fs: Fs, at: Path, tree: Fs)
    ensures SameOutside(fs, Place(fs, at, tree), at)
  {
    hide Overlay;
    forall p: Path {
      OverlayHas(at, tree, p);
    }
  }

  lemma CopyToConfined(fs: Fs, to: Path, tree: Fs)
    ensures Confined(fs, CopyTo(fs, to, tree), to)
  {
    hide MakeDirs, Place, Confined, SameOutside;
    var made := MakeDirs(fs, Parent(to));
    MakeDirsConfined(fs, Parent(to), to);
    PlaceConfined(made, to, tree);
    OutsideIsConfined(made, Place(made, to, tree), to);
    ConfinedTrans(fs, made, Place(made, to, tree), to);
  }

  /** A change confined to one place does not touch a disjoint tree. */
  lemma SubtreeKept(fs: Fs, gs: Fs, at: Path, d: Path)
    requires Confined(fs, gs, at) && Disjoint(at, d)
    ensures Subtree(fs, d) == Subtree(gs, d)
  {
    forall r: Path
      ensures Under(d, r) in fs <==> Under(d, r) in gs
      ensures Under(d, r) in fs ==> fs[Under(d, r)] == gs[Under(d, r)]
    {
      var p := Under(d, r);
      if at <= p {
        PrefixesCompare(at, d, p);
      }
    }
    SubtreesEqual(fs, d, gs, d);
  }

  // ----- Filling an empty place -----

  /** Nothing is at `d` yet, or just an empty directory, and no file is in the way. */
  ghost predicate Vacant(fs: Fs, d: Path) {
    (forall p :: p in fs && d <= p ==> p == d) && Reachable(fs, d)
  }

  lemma VacantKept(fs: Fs, gs: Fs, at: Path, d: Path)
    requires Vacant(fs, d) && Confined(fs, gs, at) && Disjoint(at, d)
    ensures Vacant(gs, d)
  {
    forall p | p in gs && d <= p
      ensures p == d
    {
      if at <= p {
        PrefixesCompare(at, d, p);
      }
    }
    forall p | p in gs && p <= d
      ensures gs[p] == Dir
    {
      assert !(at <= p);
    }
  }

  lemma VacantAfterMakeDirs(fs: Fs, dir: Path, d: Path)
    requires Vacant(fs, d) && !(d < dir)
    ensures Vacant(MakeDirs(fs, dir), d)
  {
    hide MakeDirs;
    forall p: Path {
      MakeDirsHas(fs, dir, p);
    }
    assert forall p :: p in MakeDirs(fs, dir) && p <= dir && d <= p ==> p == d;
  }

  lemma SubtreeOfVacant(fs: Fs, d: Path)
    requires Vacant(fs, d)
    ensures Subtree(fs, d) == if d in fs then EMPTY_DIRECTORY else map[]
  {
    hide Subtree, Under;
    forall r: Path
      ensures r in Subtree(fs, d) <==> r == [] && d in fs
      ensures r in Subtree(fs, d) ==> Subtree(fs, d)[r] == Dir
    {
      SubtreeHas(fs, d, r);
      assert Under(d, r) == d <==> r == [] by {
        VacantRoot(d, r);
      }
    }
  }

  lemma VacantRoot(d: Path, r: Path)
    ensures Under(d, r) == d <==> r == []
  {
  }

  lemma MadeDirectoryIsEmpty(fs: Fs, d: Path)
    requires Vacant(fs, d)
    ensures Subtree(MakeDirs(fs, d), d) == EMPTY_DIRECTORY
  {
    VacantAfterMakeDirs(fs, d, d);
    MakeDirsHas(fs, d, d);
    SubtreeOfVacant(MakeDirs(fs, d), d);
  }

  /** Copied to a vacant place, a tree is there exactly. */
  lemma CopiedIsExact(fs: Fs, d: Path, tree: Fs)
    requires Vacant(fs, d) && [] in tree
    ensures Subtree(CopyTo(fs, d, tree), d) == tree
  {
    hide Place, MakeDirs, Subtree;
    var made := MakeDirs(fs, Parent(d));
    VacantAfterMakeDirs(fs, Parent(d), d);
    SubtreeOfVacant(made, d);
    SubtreeOfPlace(made, d, tree);
    assert EMPTY_DIRECTORY + tree == tree;
    assert map[] + tree == tree;
  }

  // ----- Renaming -----

  lemma RenameHas(fs: Fs, from: Path, to: Path, p: Path)
    ensures p in Rename(fs, from, to) <==> (p in fs && !(from <= p)) || (to <= p && Under(from, Below(to, p)) in fs)
    ensures p in Rename(fs, from, to) ==>
      Rename(fs, from, to)[p] ==
        if to <= p && Under(from, Below(to, p)) in fs then fs[Under(from, Below(to, p))] else fs[p]
  {
    hide Subtree, Overlay;
    OverlayHas(to, Subtree(fs, from), p);
    if to <= p {
      SubtreeHas(fs, from, Below(to, p));
    }
  }

  /** The renamed directory is at its new name as it was, and nothing is left at the old one. */
  lemma RenameMoves(fs: Fs, from: Path, to: Path)
    requires !Taken(fs, to) && Disjoint(from, to)
    ensures Subtree(Rename(fs, from, to), to) == Subtree(fs, from)
    ensures !Taken(Rename(fs, from, to), from)
  {
    hide Subtree, Place;
    var pruned := Prune(fs, from);
    SubtreeOfPlace(pruned, to, Subtree(fs, from));
    assert Vacant(pruned, to) ==> to !in pruned;
    SubtreeOfFree(pruned, to);
    assert map[] + Subtree(fs, from) == Subtree(fs, from);
    forall p | p in Rename(fs, from, to)
      ensures !(from <= p)
    {
      RenameHas(fs, from, to, p);
      if to <= p && from <= p {
        PrefixesCompare(from, to, p);
      }
    }
  }

  lemma SubtreeOfFree(fs: Fs, at: Path)
    requires !Taken(fs, at)
    ensures Subtree(fs, at) == map[]
  {
    forall r: Path
      ensures r !in Subtree(fs, at)
    {
      SubtreeHas(fs, at, r);
    }
  }

  // ----- Disks stay disks -----

  lemma PruneKeepsWellFormed(fs: Fs, dir: Path)
    requires WellFormed(fs)
    ensures WellFormed(Prune(fs, dir))
  {
    forall p, q | p in Prune(fs, dir) && q < p
      ensures q in Prune(fs, dir) && fs[q] == Dir
    {
      assert Established(fs, p);
      if dir <= q {
        PrefixTrans(dir, q, p);
      }
    }
  }

  lemma MakeDirsKeepsWellFormed(fs: Fs, dir: Path)
    requires WellFormed(fs) && Reachable(fs, dir)
    ensures WellFormed(MakeDirs(fs, dir)) && Established(MakeDirs(fs, dir), dir)
  {
    var made := MakeDirs(fs, dir);
    hide MakeDirs;
    forall p | p in made || p == dir
      ensures Established(made, p)
    {
      forall q | q < p
        ensures q in made && made[q] == Dir
      {
        MakeDirsHas(fs, dir, p);
        MakeDirsHas(fs, dir, q);
        if p in fs {
          assert Established(fs, p);
        } else {
          PrefixTrans(q, p, dir);
        }
      }
    }
  }

  /** Laying a tree over existing directories. */
  lemma PlaceKeepsWellFormed(fs: Fs, at: Path, tree: Fs)
    requires WellFormed(fs) && WellFormed(tree) && Established(fs, at) && Meets(fs, at, tree)
    ensures WellFormed(Place(fs, at, tree))
  {
    hide Overlay, WellFormed, Established, Meets;
    forall p | p in Place(fs, at, tree)
      ensures Established(Place(fs, at, tree), p)
    {
      forall q | q < p
        ensures q in Place(fs, at, tree) && Place(fs, at, tree)[q] == Dir
      {
        PlacedParent(fs, at, tree, p, q);
      }
      assert Established(Place(fs, at, tree), p) by {
        EstablishedIs(Place(fs, at, tree), p);
      }
    }
    WellFormedIs(Place(fs, at, tree));
  }

  lemma EstablishedIs(fs: Fs, p: Path)
    requires forall q :: q < p ==> q in fs && fs[q] == Dir
    ensures Established(fs, p)
  {
  }

  lemma WellFormedIs(fs: Fs)
    requires forall p :: p in fs ==> Established(fs, p)
    ensures WellFormed(fs)
  {
  }

  lemma PlacedParent(fs: Fs, at: Path, tree: Fs, p: Path, q: Path)
    requires WellFormed(fs) && WellFormed(tree) && Established(fs, at) && Meets(fs, at, tree)
    requires p in Place(fs, at, tree) && q < p
    ensures q in Place(fs, at, tree) && Place(fs, at, tree)[q] == Dir
  {
    OverlayHas(at, tree, p);
    OverlayHas(at, tree, q);
    hide Overlay;
    assert p in fs ==> Established(fs, p);
    if at <= q {
      assert Under(at, Below(at, q)) == q;
      if p !in fs {
        assert Below(at, q) < Below(at, p) && Established(tree, Below(at, p));
      }
    } else if p !in fs {
      PrefixesCompare(at, q, p);
    }
  }

  /** A copy leaves a well-formed disk when nothing of the other kind is in its way. */
  lemma CopyKeepsWellFormed(fs: Fs, to: Path, tree: Fs)
    requires WellFormed(fs) && WellFormed(tree) && to != [] && Reachable(fs, Parent(to)) && Meets(fs, to, tree)
    ensures WellFormed(CopyTo(fs, to, tree))
  {
    var made := MakeDirs(fs, Parent(to));
    MakeDirsKeepsWellFormed(fs, Parent(to));
    hide WellFormed, MakeDirs, Place;
    forall q | q < to
      ensures q in made && made[q] == Dir
    {
      MakeDirsHas(fs, Parent(to), q);
      assert q <= Parent(to);
    }
    forall r | r in tree && Under(to, r) in made
      ensures made[Under(to, r)].Dir? == tree[r].Dir?
    {
      MakeDirsHas(fs, Parent(to), Under(to, r));
    }
    PlaceKeepsWellFormed(made, to, tree);
  }

  lemma SubtreeIsWellFormed(fs: Fs, at: Path)
    requires WellFormed(fs)
    ensures WellFormed(Subtree(fs, at))
  {
    hide Subtree, Under;
    forall r, q | r in Subtree(fs, at) && q < r
      ensures q in Subtree(fs, at) && Subtree(fs, at)[q] == Dir
    {
      SubtreeHas(fs, at, r);
      SubtreeHas(fs, at, q);
      UnderIsMonotone(at, q, r);
      assert Established(fs, Under(at, r));
    }
  }

  lemma UnderIsMonotone(at: Path, q: Path, r: Path)
    requires q < r
    ensures Under(at, q) < Under(at, r)
  {
  }

  /** A rename into a free name of an existing directory leaves a well-formed disk. */
  lemma RenameKeepsWellFormed(fs: Fs, from: Path, to: Path)
    requires WellFormed(fs) && !Taken(fs, to) && Disjoint(from, to) && Established(fs, to)
    ensures WellFormed(Rename(fs, from, to))
  {
    PruneKeepsWellFormed(fs, from);
    SubtreeIsWellFormed(fs, from);
    var pruned := Prune(fs, from);
    forall q | q < to
      ensures q in pruned && pruned[q] == Dir
    {
      if from <= q {
        PrefixTrans(from, q, to);
      }
    }
    forall r | r in Subtree(fs, from)
      ensures Under(to, r) !in pruned
    {
    }
    PlaceKeepsWellFormed(pruned, to, Subtree(fs, from));
  }
}
