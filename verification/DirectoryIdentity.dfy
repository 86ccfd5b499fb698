/** Which directory is this? (server/src/domain/directory-identity.ts, self-stack-paths.ts). Inside
    Docktor's container one host directory has several spellings; an identity collects them. */
module DirectoryIdentity {
  import opened Paths

  datatype MountType = Bind | Volume

  /** A mount of Docktor's own container. */
  datatype Mount = Mount(mountType: MountType, source: Path, destination: Path)

  datatype Namespace = Host | Container

  datatype Key = Key(namespace: Namespace, spelling: Path)

  datatype OwnMountsView = OnHost | InContainer(mounts: seq<Mount>) | MountsUnknown

  datatype Identity = Identity(keys: set<Key>, mountsKnown: bool)

  datatype Relation = Same | Nested | Unrelated

  /** A container path is translated through this mount: it lies at or below the mount's destination. */
  predicate Translates(mount: Mount, containerPath: Path) {
    mount.mountType.Bind? && !StartsWithDots(Relative(mount.destination, containerPath))
  }

  function HostPath(mount: Mount, containerPath: Path): Path {
    mount.source + Relative(mount.destination, containerPath)
  }

  method HostPathsOfContainerPath(containerPath: Path, mounts: seq<Mount>) returns (hostPaths: seq<Path>)
    ensures (set h | h in hostPaths) == HostPaths(containerPath, mounts)
    ensures forall i, j :: 0 <= i < j < |hostPaths| ==> hostPaths[i] != hostPaths[j]
  {
    hostPaths := [];
    for i := 0 to |mounts|
      invariant (set h | h in hostPaths) == HostPaths(containerPath, mounts[..i])
      invariant forall i, j :: 0 <= i < j < |hostPaths| ==> hostPaths[i] != hostPaths[j]
    {
      var mount := mounts[i];
      assert mounts[..i + 1] == mounts[..i] + [mount];
      HostPathsAppend(containerPath, mounts[..i], mount);
      hide Translates, HostPath;
      if Translates(mount, containerPath) {
        var path := HostPath(mount, containerPath);
        if path !in hostPaths {
          hostPaths := hostPaths + [path];
        }
      }
    }
    assert mounts[..|mounts|] == mounts;
  }

  function HostPaths(containerPath: Path, mounts: seq<Mount>): set<Path> {
    set mount | mount in mounts && Translates(mount, containerPath) :: HostPath(mount, containerPath)
  }

  lemma HostPathsAppend(containerPath: Path, mounts: seq<Mount>, mount: Mount)
    ensures HostPaths(containerPath, mounts + [mount]) ==
      HostPaths(containerPath, mounts) + if Translates(mount, containerPath) then {HostPath(mount, containerPath)} else {}
  {
    hide Translates, HostPath;
    assert mount in mounts + [mount] && forall m :: m in mounts ==> m in mounts + [mount];
  }

  predicate ShowsBeneath(mount: Mount, hostPath: Path) {
    var relative := Relative(mount.source, hostPath);
    mount.mountType.Bind? && relative != [] && !StartsWithDots(relative)
  }

  /** Every path at which Docktor can observe `hostPath`: the identical path, then one per mount above it. */
  method ContainerVisiblePaths(hostPath: Path, mounts: seq<Mount>) returns (candidates: seq<Path>)
    ensures candidates == [hostPath] + Beneath(hostPath, mounts)
  {
    candidates := [hostPath];
    for i := 0 to |mounts|
      invariant candidates == [hostPath] + Beneath(hostPath, mounts[..i])
    {
      var mount := mounts[i];
      assert mounts[..i + 1][..i] == mounts[..i];
      if ShowsBeneath(mount, hostPath) {
        candidates := candidates + [mount.destination + Relative(mount.source, hostPath)];
      }
    }
    assert mounts[..|mounts|] == mounts;
  }

  function Beneath(hostPath: Path, mounts: seq<Mount>): seq<Path> {
    if mounts == [] then []
    else
      var mount := mounts[|mounts| - 1];
      Beneath(hostPath, mounts[..|mounts| - 1]) +
      if ShowsBeneath(mount, hostPath) then [mount.destination + Relative(mount.source, hostPath)] else []
  }

  function Exact(hostPath: Path, mounts: seq<Mount>): seq<Path> {
    if mounts == [] then []
    else
      (if mounts[0].mountType.Bind? && mounts[0].source == hostPath then [mounts[0].destination] else []) +
      Exact(hostPath, mounts[1..])
  }

  /** Paths at which Docktor reads `hostPath` through its own bind mounts. */
  function ContainerPathsOfHostPath(hostPath: Path, mounts: seq<Mount>): seq<Path> {
    Exact(hostPath, mounts) + Beneath(hostPath, mounts)
  }

  function KeysOfSpelling(spelling: Path, view: OwnMountsView): set<Key> {
    match view
    case OnHost => {Key(Host, spelling)}
    case MountsUnknown => {Key(Container, spelling)}
    case InContainer(mounts) =>
      {Key(Container, spelling)} + set h | h in HostPaths(spelling, mounts) :: Key(Host, h)
  }

  function LocalIdentity(spellings: seq<Path>, view: OwnMountsView): Identity {
    Identity(set s, k | s in spellings && k in KeysOfSpelling(s, view) :: k, !view.MountsUnknown?)
  }

  /** A strict descendant in the same namespace. */
  predicate ContainsKey(parent: Key, child: Key) {
    parent.namespace == child.namespace && parent.spelling < child.spelling
  }

  predicate AnyNested(outer: Identity, inner: Identity) {
    exists o, i :: o in outer.keys && i in inner.keys && ContainsKey(o, i)
  }

  function Relate(a: Identity, b: Identity): Relation {
    if exists key :: key in a.keys && key in b.keys then Same
    else if AnyNested(a, b) || AnyNested(b, a) then Nested
    else Unrelated
  }

  lemma RelateIsSymmetric(a: Identity, b: Identity)
    ensures Relate(a, b) == Relate(b, a)
  {
    if key :| key in a.keys && key in b.keys {
      assert key in b.keys && key in a.keys;
    }
    if key :| key in b.keys && key in a.keys {
      assert key in a.keys && key in b.keys;
    }
  }

  /** Translating a listed spelling back yields the host path it was listed for. */
  lemma TranslatesBack(mount: Mount, hostPath: Path)
    requires mount.mountType.Bind?
    requires mount.source <= hostPath && (|hostPath| > |mount.source| ==> !(".." <= hostPath[|mount.source|]))
    ensures var alias := mount.destination + hostPath[|mount.source|..];
      Translates(mount, alias) && HostPath(mount, alias) == hostPath
  {
    var alias := mount.destination + hostPath[|mount.source|..];
    DotsTestIs(mount.destination, alias);
    RelativeIs(mount.destination, alias);
    assert alias[|mount.destination|..] == hostPath[|mount.source|..];
    assert |alias| > |mount.destination| ==> alias[|mount.destination|] == hostPath[|mount.source|];
  }

  lemma {:induction false} BeneathComesFromAMount(hostPath: Path, mounts: seq<Mount>, alias: Path)
    requires alias in Beneath(hostPath, mounts)
    ensures exists mount :: mount in mounts && Translates(mount, alias) && HostPath(mount, alias) == hostPath
  {
    var mount := mounts[|mounts| - 1];
    if alias in Beneath(hostPath, mounts[..|mounts| - 1]) {
      BeneathComesFromAMount(hostPath, mounts[..|mounts| - 1], alias);
    } else {
      DotsTestIs(mount.source, hostPath);
      RelativeIs(mount.source, hostPath);
      TranslatesBack(mount, hostPath);
      assert mount in mounts;
    }
  }

  lemma {:induction false} ExactComesFromAMount(hostPath: Path, mounts: seq<Mount>, alias: Path)
    requires alias in Exact(hostPath, mounts)
    ensures exists mount :: mount in mounts && Translates(mount, alias) && HostPath(mount, alias) == hostPath
  {
    if alias in Exact(hostPath, mounts[1..]) {
      ExactComesFromAMount(hostPath, mounts[1..], alias);
    } else {
      TranslatesBack(mounts[0], hostPath);
      assert hostPath[|mounts[0].source|..] == [] && mounts[0].destination + [] == mounts[0].destination;
    }
  }

  lemma ListedSpellingKnowsItsHost(hostPath: Path, mounts: seq<Mount>, alias: Path)
    requires alias in ContainerPathsOfHostPath(hostPath, mounts)
    ensures Key(Host, hostPath) in LocalIdentity([alias], InContainer(mounts)).keys
  {
    if alias in Exact(hostPath, mounts) {
      ExactComesFromAMount(hostPath, mounts, alias);
    } else {
      BeneathComesFromAMount(hostPath, mounts, alias);
    }
    assert hostPath in HostPaths(alias, mounts);
    assert Key(Host, hostPath) in KeysOfSpelling(alias, InContainer(mounts));
    assert alias in [alias];
  }

  /** Through this mount Docktor reads `hostPath` at `alias`; a name that begins with two dots hides it. */
  predicate ReadsAt(mount: Mount, hostPath: Path, alias: Path) {
    mount.mountType.Bind? && mount.source <= hostPath &&
    (mount.source < hostPath ==> !(".." <= hostPath[|mount.source|])) &&
    alias == mount.destination + hostPath[|mount.source|..]
  }

  lemma {:induction false} BeneathIff(hostPath: Path, mounts: seq<Mount>, alias: Path)
    ensures alias in Beneath(hostPath, mounts) <==>
      exists m :: m in mounts && m.source < hostPath && ReadsAt(m, hostPath, alias)
  {
    if mounts != [] {
      var init, last := mounts[..|mounts| - 1], mounts[|mounts| - 1];
      BeneathIff(hostPath, init, alias);
      DotsTestIs(last.source, hostPath);
      RelativeIs(last.source, hostPath);
      assert mounts == init + [last];
      assert |hostPath| == |last.source| && last.source <= hostPath ==> last.source == hostPath;
      assert last.source < hostPath && ReadsAt(last, hostPath, alias) <==>
        ShowsBeneath(last, hostPath) && alias == last.destination + Relative(last.source, hostPath);
      hide ReadsAt, ShowsBeneath;
      assert forall m :: m in mounts <==> m in init || m == last;
    }
  }

  lemma {:induction false} ExactIff(hostPath: Path, mounts: seq<Mount>, alias: Path)
    ensures alias in Exact(hostPath, mounts) <==>
      exists m :: m in mounts && m.source == hostPath && ReadsAt(m, hostPath, alias)
  {
    if mounts != [] {
      var first, rest := mounts[0], mounts[1..];
      ExactIff(hostPath, rest, alias);
      assert mounts == [first] + rest;
      assert first.source == hostPath ==> hostPath[|first.source|..] == [] && first.destination + [] == first.destination;
      assert first.source == hostPath && ReadsAt(first, hostPath, alias) <==>
        first.mountType.Bind? && first.source == hostPath && alias == first.destination;
      hide ReadsAt;
      assert forall m :: m in mounts <==> m in rest || m == first;
    }
  }

  /** Exactly which paths are listed for a host path. */
  lemma ListedIff(hostPath: Path, mounts: seq<Mount>, alias: Path)
    ensures alias in ContainerPathsOfHostPath(hostPath, mounts) <==>
      exists m :: m in mounts && ReadsAt(m, hostPath, alias)
  {
    BeneathIff(hostPath, mounts, alias);
    ExactIff(hostPath, mounts, alias);
    assert forall m: Mount :: ReadsAt(m, hostPath, alias) ==> m.source <= hostPath;
    assert forall m: Mount :: m.source <= hostPath && !(m.source < hostPath) ==> m.source == hostPath;
    hide ReadsAt, Beneath, Exact;
    if m :| m in mounts && ReadsAt(m, hostPath, alias) {
      assert m.source < hostPath || m.source == hostPath;
    }
  }

  /** Any two paths at which Docktor reads one host directory are recognised as that directory. */
  lemma ListedAliasesAreSame(hostPath: Path, mounts: seq<Mount>, a: Path, b: Path)
    requires a in ContainerPathsOfHostPath(hostPath, mounts) && b in ContainerPathsOfHostPath(hostPath, mounts)
    ensures Relate(LocalIdentity([a], InContainer(mounts)), LocalIdentity([b], InContainer(mounts))) == Same
  {
    ListedSpellingKnowsItsHost(hostPath, mounts, a);
    ListedSpellingKnowsItsHost(hostPath, mounts, b);
  }

  // ----- Against what the container really shows -----

  /** The mount a container path is really read through: the deepest one covering it. */
  ghost predicate ReadThrough(containerPath: Path, mount: Mount, mounts: seq<Mount>) {
    mount in mounts && mount.destination <= containerPath &&
    forall other :: other in mounts && other.destination <= containerPath ==>
      |other.destination| <= |mount.destination|
  }

  /** The container path shows the host directory `hostPath`. */
  ghost predicate Shows(containerPath: Path, hostPath: Path, mounts: seq<Mount>) {
    exists mount :: ReadThrough(containerPath, mount, mounts) && mount.mountType.Bind?
      && hostPath == mount.source + containerPath[|mount.destination|..]
  }

  /** Directly below no bind mount's destination does the path continue with a name that begins with two dots. */
  predicate NoDottedStep(containerPath: Path, mounts: seq<Mount>) {
    forall mount :: mount in mounts && mount.destination < containerPath ==>
      !(".." <= containerPath[|mount.destination|])
  }

  lemma ShownHostIsKnown(containerPath: Path, hostPath: Path, mounts: seq<Mount>)
    requires Shows(containerPath, hostPath, mounts) && NoDottedStep(containerPath, mounts)
    ensures Key(Host, hostPath) in LocalIdentity([containerPath], InContainer(mounts)).keys
  {
    var mount :| ReadThrough(containerPath, mount, mounts) && mount.mountType.Bind?
      && hostPath == mount.source + containerPath[|mount.destination|..];
    DotsTestIs(mount.destination, containerPath);
    RelativeIs(mount.destination, containerPath);
    assert hostPath in HostPaths(containerPath, mounts);
    assert Key(Host, hostPath) in KeysOfSpelling(containerPath, InContainer(mounts));
    assert containerPath in [containerPath];
  }

  lemma OwnKey(path: Path, view: OwnMountsView)
    ensures Key(if view.OnHost? then Host else Container, path) in LocalIdentity([path], view).keys
  {
    assert path in [path];
    assert Key(if view.OnHost? then Host else Container, path) in KeysOfSpelling(path, view);
  }

  /** Directories classified as unrelated do not overlap: neither as container paths nor as the host
      directories they really show. */
  lemma UnrelatedIsDisjoint(a: Path, b: Path, mounts: seq<Mount>)
    requires Relate(LocalIdentity([a], InContainer(mounts)), LocalIdentity([b], InContainer(mounts))) == Unrelated
    requires NoDottedStep(a, mounts) && NoDottedStep(b, mounts)
    ensures Disjoint(a, b)
    ensures forall h, g :: Shows(a, h, mounts) && Shows(b, g, mounts) ==> Disjoint(h, g)
  {
    var view := InContainer(mounts);
    OwnKey(a, view);
    OwnKey(b, view);
    UnrelatedKeys(LocalIdentity([a], view), LocalIdentity([b], view), Key(Container, a), Key(Container, b));
    forall h, g | Shows(a, h, mounts) && Shows(b, g, mounts)
      ensures Disjoint(h, g)
    {
      ShownHostIsKnown(a, h, mounts);
      ShownHostIsKnown(b, g, mounts);
      UnrelatedKeys(LocalIdentity([a], view), LocalIdentity([b], view), Key(Host, h), Key(Host, g));
    }
  }

  lemma UnrelatedKeys(a: Identity, b: Identity, k: Key, l: Key)
    requires Relate(a, b) == Unrelated && k in a.keys && l in b.keys && k.namespace == l.namespace
    ensures Disjoint(k.spelling, l.spelling)
  {
    assert k.spelling <= l.spelling ==> k == l || ContainsKey(k, l);
    assert l.spelling <= k.spelling ==> k == l || ContainsKey(l, k);
  }

  /** Two container paths that really show one host directory are recognised, unless a dotted name hides it. */
  lemma ShownAliasesAreSame(a: Path, b: Path, hostPath: Path, mounts: seq<Mount>)
    requires Shows(a, hostPath, mounts) && Shows(b, hostPath, mounts)
    requires NoDottedStep(a, mounts) && NoDottedStep(b, mounts)
    ensures Relate(LocalIdentity([a], InContainer(mounts)), LocalIdentity([b], InContainer(mounts))) == Same
  {
    ShownHostIsKnown(a, hostPath, mounts);
    ShownHostIsKnown(b, hostPath, mounts);
  }

  /** The path continues, right below the mount's destination, with a name that begins with two dots. */
  predicate DottedBelow(mount: Mount, containerPath: Path)
    requires mount.destination <= containerPath
  {
    mount.destination < containerPath && ".." <= containerPath[|mount.destination|]
  }

  /** The bind mount translates the path to `hostPath`: it covers the path and no dotted name hides that. */
  predicate Yields(mount: Mount, containerPath: Path, hostPath: Path) {
    mount.mountType.Bind? && mount.destination <= containerPath && !DottedBelow(mount, containerPath) &&
    hostPath == mount.source + containerPath[|mount.destination|..]
  }

  lemma HostPathsAre(containerPath: Path, mounts: seq<Mount>, hostPath: Path)
    ensures hostPath in HostPaths(containerPath, mounts) <==>
      exists m :: m in mounts && Yields(m, containerPath, hostPath)
  {
    forall m | m in mounts
      ensures Translates(m, containerPath) && HostPath(m, containerPath) == hostPath <==> Yields(m, containerPath, hostPath)
    {
      TranslatesIs(m, containerPath, hostPath);
    }
    hide Translates, HostPath, Yields;
  }

  lemma TranslatesIs(mount: Mount, containerPath: Path, hostPath: Path)
    ensures Translates(mount, containerPath) && HostPath(mount, containerPath) == hostPath <==>
      Yields(mount, containerPath, hostPath)
  {
    DotsTestIs(mount.destination, containerPath);
    if mount.destination <= containerPath {
      RelativeIs(mount.destination, containerPath);
    }
  }

  /** Docktor, looking from `view`, knows `hostPath` as a host path of the directory it sees at `spelling`: on the host
      the spelling itself; in its container every host path that a bind mount above the spelling translates it to. */
  ghost predicate Knows(view: OwnMountsView, spelling: Path, hostPath: Path) {
    match view
    case OnHost => hostPath == spelling
    case InContainer(mounts) => exists m :: m in mounts && Yields(m, spelling, hostPath)
    case MountsUnknown => false
  }

  lemma KeysAre(spellings: seq<Path>, view: OwnMountsView, key: Key)
    ensures key in LocalIdentity(spellings, view).keys <==>
      exists s :: s in spellings &&
        if key.namespace.Host? then Knows(view, s, key.spelling) else !view.OnHost? && key.spelling == s
  {
    hide HostPaths, Yields;
    forall s | s in spellings
      ensures key in KeysOfSpelling(s, view) <==>
        if key.namespace.Host? then Knows(view, s, key.spelling) else !view.OnHost? && key.spelling == s
    {
      if view.InContainer? {
        HostPathsAre(s, view.mounts, key.spelling);
      }
    }
  }

  /** One directory, as far as Docktor can know: the same spelling, or one host path. */
  ghost predicate IsOne(view: OwnMountsView, a: Path, b: Path) {
    a == b || exists h :: Knows(view, a, h) && Knows(view, b, h)
  }

  /** No overlap, as far as Docktor can know: neither as spelled nor under any host paths. */
  ghost predicate IsApart(view: OwnMountsView, a: Path, b: Path) {
    Disjoint(a, b) && forall h, g :: Knows(view, a, h) && Knows(view, b, g) ==> Disjoint(h, g)
  }

  /** Exactly when two directories are recognised as one: when a spelling of each is. */
  lemma SameIff(spellings: seq<Path>, others: seq<Path>, view: OwnMountsView)
    ensures Relate(LocalIdentity(spellings, view), LocalIdentity(others, view)) == Same <==>
      exists a, b :: a in spellings && b in others && IsOne(view, a, b)
  {
    var x, y := LocalIdentity(spellings, view), LocalIdentity(others, view);
    hide LocalIdentity, Knows;
    if Relate(x, y) == Same {
      var key :| key in x.keys && key in y.keys;
      KeysAre(spellings, view, key);
      KeysAre(others, view, key);
    }
    if a, b :| a in spellings && b in others && IsOne(view, a, b) {
      if a == b {
        SharedSpelling(spellings, others, view, a);
      } else {
        var h :| Knows(view, a, h) && Knows(view, b, h);
        KeysAre(spellings, view, Key(Host, h));
        KeysAre(others, view, Key(Host, h));
      }
    }
  }

  lemma SharedSpelling(spellings: seq<Path>, others: seq<Path>, view: OwnMountsView, a: Path)
    requires a in spellings && a in others
    ensures exists key :: key in LocalIdentity(spellings, view).keys && key in LocalIdentity(others, view).keys
  {
    var key := OwnKeyOf(view, a);
    OwnKeyIsKnown(spellings, view, a);
    OwnKeyIsKnown(others, view, a);
  }

  function OwnKeyOf(view: OwnMountsView, path: Path): Key {
    Key(if view.OnHost? then Host else Container, path)
  }

  lemma OwnKeyIsKnown(spellings: seq<Path>, view: OwnMountsView, a: Path)
    requires a in spellings
    ensures OwnKeyOf(view, a) in LocalIdentity(spellings, view).keys
  {
    KeysAre(spellings, view, OwnKeyOf(view, a));
  }

  /** Exactly when two directories are called unrelated: when no spellings of them overlap, in any way known. */
  lemma UnrelatedIff(spellings: seq<Path>, others: seq<Path>, view: OwnMountsView)
    ensures Relate(LocalIdentity(spellings, view), LocalIdentity(others, view)) == Unrelated <==>
      forall a, b :: a in spellings && b in others ==> IsApart(view, a, b)
  {
    var x, y := LocalIdentity(spellings, view), LocalIdentity(others, view);
    if Relate(x, y) == Unrelated {
      forall a, b | a in spellings && b in others
        ensures IsApart(view, a, b)
      {
        UnrelatedSpellings(spellings, others, view, a, b);
      }
    } else {
      var k, l := OverlappingKeys(x, y);
      KeysAre(spellings, view, k);
      KeysAre(others, view, l);
      hide LocalIdentity, Relate, Knows;
      var a :| a in spellings &&
        if k.namespace.Host? then Knows(view, a, k.spelling) else !view.OnHost? && k.spelling == a;
      var b :| b in others &&
        if l.namespace.Host? then Knows(view, b, l.spelling) else !view.OnHost? && l.spelling == b;
      assert !IsApart(view, a, b);
    }
  }

  lemma UnrelatedSpellings(spellings: seq<Path>, others: seq<Path>, view: OwnMountsView, a: Path, b: Path)
    requires Relate(LocalIdentity(spellings, view), LocalIdentity(others, view)) == Unrelated
    requires a in spellings && b in others
    ensures IsApart(view, a, b)
  {
    var x, y := LocalIdentity(spellings, view), LocalIdentity(others, view);
    OwnKeyIsKnown(spellings, view, a);
    OwnKeyIsKnown(others, view, b);
    UnrelatedKeys(x, y, OwnKeyOf(view, a), OwnKeyOf(view, b));
    forall h, g | Knows(view, a, h) && Knows(view, b, g)
      ensures Disjoint(h, g)
    {
      KeysAre(spellings, view, Key(Host, h));
      KeysAre(others, view, Key(Host, g));
      UnrelatedKeys(x, y, Key(Host, h), Key(Host, g));
    }
  }

  lemma OverlappingKeys(x: Identity, y: Identity) returns (k: Key, l: Key)
    requires Relate(x, y) != Unrelated
    ensures k in x.keys && l in y.keys && k.namespace == l.namespace && !Disjoint(k.spelling, l.spelling)
  {
    if key :| key in x.keys && key in y.keys {
      k, l := key, key;
    } else if AnyNested(x, y) {
      k, l :| k in x.keys && l in y.keys && ContainsKey(k, l);
    } else {
      l, k :| l in y.keys && k in x.keys && ContainsKey(l, k);
    }
  }

  /** Exactly when two different spellings inside the container are recognised as one directory, whatever the mounts:
      when one bind mount above each of them translates it to the same host path, and neither continues right below
      that mount with a name that begins with two dots. */
  lemma AliasesAreSameIff(a: Path, b: Path, mounts: seq<Mount>)
    requires a != b
    ensures Relate(LocalIdentity([a], InContainer(mounts)), LocalIdentity([b], InContainer(mounts))) == Same <==>
      exists m, n, h :: m in mounts && n in mounts && Yields(m, a, h) && Yields(n, b, h)
  {
    var view := InContainer(mounts);
    SameIff([a], [b], view);
    assert a in [a] && b in [b];
    hide LocalIdentity, Yields, Relate, Disjoint;
    assert (exists x, y :: x in [a] && y in [b] && IsOne(view, x, y)) <==> IsOne(view, a, b) by {
      hide IsOne;
    }
    if m, n, h :| m in mounts && n in mounts && Yields(m, a, h) && Yields(n, b, h) {
      assert Knows(view, a, h) && Knows(view, b, h);
    }
  }

  /** A directory named `..snap` is a real name, but its two spellings are taken for different directories. */
  lemma DottedNameIsMissed()
    ensures var mounts := [Mount(Bind, ["data"], ["a"]), Mount(Bind, ["data"], ["b"])];
      var a, b := ["a", "..snap"], ["b", "..snap"];
      && Shows(a, ["data", "..snap"], mounts) && Shows(b, ["data", "..snap"], mounts)
      && Relate(LocalIdentity([a], InContainer(mounts)), LocalIdentity([b], InContainer(mounts))) != Same
  {
    var m, n := Mount(Bind, ["data"], ["a"]), Mount(Bind, ["data"], ["b"]);
    var mounts := [m, n];
    var a, b := ["a", "..snap"], ["b", "..snap"];
    assert a[1..] == ["..snap"] && b[1..] == ["..snap"] && ".." <= "..snap";
    assert ReadThrough(a, m, mounts) && ReadThrough(b, n, mounts);
    assert ["data"] + ["..snap"] == ["data", "..snap"];
    assert n.destination[0] != a[0] by {
      assert "b"[0] != "a"[0];
    }
    assert DottedBelow(m, a) && !(n.destination <= a);
    hide LocalIdentity, DottedBelow;
    AliasesAreSameIff(a, b, mounts);
  }
}
