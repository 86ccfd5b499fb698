/** What a migration acts on: the disk, the stack records and the containers. Every call may reject;
    a rejected call leaves behind what `faults` says, within the limits stated here. */
module MigrationPorts {
  import opened Text
  import opened Paths
  import opened FileTree

  datatype Fault = Works | Rejects(leftovers: Fs, tookEffect: bool)

  datatype ReadResult = Content(text: string) | Missing | Unreadable

  /** How the description of a migrated stack names its origin. */
  datatype Origin = MigratedFrom(dir: Path) | KeptAt(dir: Path)

  datatype Record = Record(displayName: string, origin: Origin, hostPath: Path, compose: string)

  /** A named volume's content; Docker creates a volume nobody has made yet. */
  function VolumeTree(volumes: map<string, Fs>, name: string): Fs {
    (if name in volumes then volumes[name] else map[])[[] := Dir]
  }

  /** `copyDirectory` merges into an existing directory, and refuses any other existing destination. */
  predicate Copyable(fs: Fs, from: Path, to: Path) {
    from in fs && !(from <= to) && Reachable(fs, Parent(to)) &&
    (to in fs ==> fs[to] == Dir && fs[from] == Dir && Meets(fs, to, Subtree(fs, from)))
  }

  /** A rename needs a free name in an existing directory. */
  predicate Movable(fs: Fs, from: Path, to: Path) {
    from in fs && !(from <= to) && !Taken(fs, to) && to != [] && Parent(to) in fs && fs[Parent(to)] == Dir
  }

  predicate Writable(fs: Fs, file: Path) {
    Parent(file) in fs && fs[Parent(file)] == Dir && (file in fs ==> fs[file].File?)
  }

  /** A rejected call's leftovers, cut down to the tree at `at` and directories on the way to it. */
  function Spoiled(fs: Fs, at: Path, leftovers: Fs): Fs {
    Prune(fs, at) +
    map p | p in leftovers && (at <= p || (p <= at && p !in fs && leftovers[p] == Dir)) :: leftovers[p]
  }

  class Host {
    var fs: Fs
    var records: map<string, Record>
    const volumes: map<string, Fs>
    /** Whether the old stack's containers run, and how often they were started. */
    var oldStackRuns: bool
    var starts: nat
    /** Stacks deployed with `up`. */
    var deployed: set<string>
    /** What is going to happen to the next calls; all later ones work. */
    var faults: seq<Fault>
    /** Calls that have rejected so far. */
    var rejections: nat
    /** How many of them were record creations that took effect all the same. */
    ghost var lostAnswers: nat

    method NextFault() returns (fault: Fault)
      modifies this`faults
      ensures old(faults) == [] ==> fault.Works? && faults == []
      ensures old(faults) != [] ==> fault == old(faults)[0]
    {
      if faults == [] {
        fault := Works;
      } else {
        fault := faults[0];
        faults := faults[1..];
      }
    }

    /** A failure of the migration's own code rather than of a call. */
    method Throw()
      modifies this`rejections
      ensures rejections == old(rejections) + 1
    {
      rejections := rejections + 1;
    }

    method StopOldStack() returns (ok: bool)
      modifies this`oldStackRuns, this`faults, this`rejections
      ensures ok ==> !oldStackRuns
      ensures rejections == old(rejections) + if ok then 0 else 1
      ensures old(faults) == [] ==> faults == [] && ok
      ensures old(faults) != [] && old(faults)[0].Rejects? ==> !ok
    {
      var fault := NextFault();
      ok := fault.Works?;
      if ok || fault.tookEffect {
        oldStackRuns := false;
      }
      if !ok {
        Throw();
      }
    }

    method StartOldStack() returns (ok: bool)
      modifies this`oldStackRuns, this`starts, this`faults, this`rejections
      ensures ok ==> oldStackRuns
      ensures starts == old(starts) + 1
      ensures rejections == old(rejections) + if ok then 0 else 1
    {
      var fault := NextFault();
      ok := fault.Works?;
      starts := starts + 1;
      if ok || fault.tookEffect {
        oldStackRuns := true;
      }
      if !ok {
        Throw();
      }
    }

    method PathIsTaken(at: Path) returns (ok: bool, taken: bool)
      modifies this`faults, this`rejections
      ensures ok ==> taken == Taken(fs, at)
      ensures rejections == old(rejections) + if ok then 0 else 1
      ensures old(faults) == [] ==> faults == [] && ok
    {
      var fault := NextFault();
      ok, taken := fault.Works?, Taken(fs, at);
      if !ok {
        Throw();
      }
    }

    method SourceExists(at: Path) returns (ok: bool, found: bool)
      modifies this`faults, this`rejections
      ensures ok ==> found == (at in fs)
      ensures rejections == old(rejections) + if ok then 0 else 1
      ensures old(faults) == [] ==> faults == [] && ok
    {
      var fault := NextFault();
      ok, found := fault.Works?, at in fs;
      if !ok {
        Throw();
      }
    }

    /** Never replaces anything: a taken name is refused. */
    method MoveDirectory(from: Path, to: Path) returns (ok: bool)
      modifies this`fs, this`faults, this`rejections
      ensures ok ==> Movable(old(fs), from, to) && fs == Rename(old(fs), from, to)
      ensures !ok ==> fs == old(fs)
      ensures rejections == old(rejections) + if ok then 0 else 1
      ensures old(faults) == [] ==>
        faults == [] && (ok <==> Movable(old(fs), from, to))
    {
      var fault := NextFault();
      ok := fault.Works? && Movable(fs, from, to);
      if ok {
        fs := Rename(fs, from, to);
      } else {
        Throw();
      }
    }

    /** An existing directory is never adopted; a refusal may leave parent directories behind. */
    method CreateDirectoryExclusive(dir: Path) returns (ok: bool)
      requires dir != []
      modifies this`fs, this`faults, this`rejections
      ensures ok ==> !Taken(old(fs), dir) && Reachable(old(fs), dir) && fs == MakeDirs(old(fs), dir)
      ensures !ok ==> fs == old(fs) || fs == MakeDirs(old(fs), Parent(dir))
      ensures rejections == old(rejections) + if ok then 0 else 1
      ensures old(faults) == [] ==> faults == [] && (ok <==> !Taken(old(fs), dir) && Reachable(old(fs), dir))
    {
      var fault := NextFault();
      ok := fault.Works? && !Taken(fs, dir) && Reachable(fs, dir);
      if ok {
        fs := MakeDirs(fs, dir);
      } else {
        if fault.Works? || fault.tookEffect {
          fs := MakeDirs(fs, Parent(dir));
        }
        Throw();
      }
    }

    method MakeDirectory(dir: Path) returns (ok: bool)
      modifies this`fs, this`faults, this`rejections
      ensures ok ==> Reachable(old(fs), dir) && fs == MakeDirs(old(fs), dir)
      ensures Confined(old(fs), fs, dir)
      ensures rejections == old(rejections) + if ok then 0 else 1
      ensures old(faults) == [] ==> faults == [] && (ok <==> Reachable(old(fs), dir))
    {
      var fault := NextFault();
      ok := fault.Works? && Reachable(fs, dir);
      MakeDirsConfined(fs, dir, dir);
      if ok {
        fs := MakeDirs(fs, dir);
      } else {
        fs := if fault.Works? then fs else Spoiled(fs, dir, fault.leftovers);
        Throw();
      }
    }

    method CopyDirectory(from: Path, to: Path) returns (ok: bool)
      modifies this`fs, this`faults, this`rejections
      ensures ok ==> Copyable(old(fs), from, to) && fs == CopyTo(old(fs), to, Subtree(old(fs), from))
      ensures Confined(old(fs), fs, to)
      ensures rejections == old(rejections) + if ok then 0 else 1
      ensures old(faults) == [] ==> faults == [] && (ok <==> Copyable(old(fs), from, to))
    {
      var fault := NextFault();
      ok := fault.Works? && Copyable(fs, from, to);
      if ok {
        CopyToConfined(fs, to, Subtree(fs, from));
        fs := CopyTo(fs, to, Subtree(fs, from));
      } else {
        fs := if fault.Works? then fs else Spoiled(fs, to, fault.leftovers);
        Throw();
      }
    }

    method CopyVolumeToBindMount(name: string, to: Path) returns (ok: bool)
      modifies this`fs, this`faults, this`rejections
      ensures ok ==> Reachable(old(fs), to) && fs == CopyTo(old(fs), to, VolumeTree(volumes, name))
      ensures Confined(old(fs), fs, to)
      ensures rejections == old(rejections) + if ok then 0 else 1
      ensures old(faults) == [] ==> faults == [] && (Vacant(old(fs), to) ==> ok)
    {
      var fault := NextFault();
      var clash := exists r :: r in VolumeTree(volumes, name) && r != [] && Under(to, r) in fs;
      ok := fault.Works? && Reachable(fs, to) && !clash;
      if ok {
        CopyToConfined(fs, to, VolumeTree(volumes, name));
        fs := CopyTo(fs, to, VolumeTree(volumes, name));
      } else {
        fs := if fault.Works? then fs else Spoiled(fs, to, fault.leftovers);
        Throw();
      }
    }

    method ReadFile(file: Path) returns (result: ReadResult)
      modifies this`faults, this`rejections
      ensures result.Content? ==> file in fs && fs[file] == File(result.text)
      ensures result.Missing? ==> file !in fs
      ensures rejections == old(rejections) + if result.Unreadable? then 1 else 0
      ensures old(faults) == [] ==> faults == [] && (result.Unreadable? <==> file in fs && fs[file] == Dir)
    {
      var fault := NextFault();
      if fault.Rejects? || (file in fs && fs[file] == Dir) {
        result := Unreadable;
        Throw();
      } else {
        result := if file in fs then Content(fs[file].content) else Missing;
      }
    }

    method WriteFile(file: Path, text: string) returns (ok: bool)
      modifies this`fs, this`faults, this`rejections
      ensures ok ==> Writable(old(fs), file) && fs == old(fs)[file := File(text)]
      ensures SameOutside(old(fs), fs, file)
      ensures rejections == old(rejections) + if ok then 0 else 1
      ensures old(faults) == [] ==> faults == [] && (ok <==> Writable(old(fs), file))
    {
      var fault := NextFault();
      ok := fault.Works? && Writable(fs, file);
      if ok {
        fs := fs[file := File(text)];
      } else {
        if fault.Rejects? && fault.tookEffect && Writable(fs, file) {
          fs := fs[file := File("")];
        }
        Throw();
      }
    }

    method CopyFile(from: Path, to: Path) returns (ok: bool)
      modifies this`fs, this`faults, this`rejections
      ensures ok ==> from in old(fs) && Writable(old(fs), to) && fs == old(fs)[to := old(fs)[from]]
      ensures SameOutside(old(fs), fs, to)
      ensures rejections == old(rejections) + if ok then 0 else 1
      ensures old(faults) == [] ==>
        faults == [] && (ok <==> from in old(fs) && old(fs)[from].File? && Writable(old(fs), to))
    {
      var fault := NextFault();
      ok := fault.Works? && from in fs && fs[from].File? && Writable(fs, to);
      if ok {
        fs := fs[to := fs[from]];
      } else {
        if fault.Rejects? && fault.tookEffect && Writable(fs, to) {
          fs := fs[to := File("")];
        }
        Throw();
      }
    }

    /** `rm -r`; when it rejects, any part of the tree may be gone already. */
    method RemoveDirectory(dir: Path) returns (ok: bool)
      modifies this`fs, this`faults, this`rejections
      ensures ok ==> fs == Prune(old(fs), dir)
      ensures SameOutside(old(fs), fs, dir)
      ensures forall p :: p in fs ==> p in old(fs) && fs[p] == old(fs)[p]
      ensures rejections == old(rejections) + if ok then 0 else 1
    {
      var fault := NextFault();
      ok := fault.Works?;
      if ok {
        fs := Prune(fs, dir);
      } else {
        fs := map p | p in fs && (dir <= p ==> p in fault.leftovers) :: fs[p];
        Throw();
      }
    }

    /** When the answer is lost, the record exists although its creation rejected. */
    method CreateRecord(id: string, record: Record) returns (ok: bool)
      modifies this`records, this`lostAnswers, this`faults, this`rejections
      ensures ok ==> id !in old(records) && records == old(records)[id := record] && lostAnswers == old(lostAnswers)
      ensures !ok ==>
        || (records == old(records) && lostAnswers == old(lostAnswers))
        || (id !in old(records) && records == old(records)[id := record] && lostAnswers == old(lostAnswers) + 1)
      ensures rejections == old(rejections) + if ok then 0 else 1
      ensures old(faults) == [] ==> faults == [] && (ok <==> id !in old(records))
      ensures old(faults) != [] && old(faults)[0].Rejects? && old(faults)[0].tookEffect && id !in old(records) ==>
        !ok && lostAnswers == old(lostAnswers) + 1
    {
      var fault := NextFault();
      ok := fault.Works? && id !in records;
      if id !in records && (fault.Works? || fault.tookEffect) {
        records := records[id := record];
        lostAnswers := lostAnswers + if ok then 0 else 1;
      }
      if !ok {
        Throw();
      }
    }

    method DeleteRecord(id: string) returns (ok: bool)
      modifies this`records, this`faults, this`rejections
      ensures ok ==> records == old(records) - {id}
      ensures !ok ==> records == old(records) || records == old(records) - {id}
      ensures rejections == old(rejections) + if ok then 0 else 1
    {
      var fault := NextFault();
      ok := fault.Works?;
      if ok || fault.tookEffect {
        records := records - {id};
      }
      if !ok {
        Throw();
      }
    }

    method Up(id: string) returns (ok: bool)
      modifies this`deployed, this`faults, this`rejections
      ensures ok ==> deployed == old(deployed) + {id}
      ensures old(deployed) <= deployed <= old(deployed) + {id}
      ensures rejections == old(rejections) + if ok then 0 else 1
      ensures old(faults) == [] ==> faults == [] && ok
    {
      var fault := NextFault();
      ok := fault.Works?;
      if ok || fault.tookEffect {
        deployed := deployed + {id};
      }
      if !ok {
        Throw();
      }
    }
  }
}
