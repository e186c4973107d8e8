/** The knowledge-base root of `app_utils/helpers.py`: `get_kb_names` lists
    it and `clear_all_kb` purges it, with the bounded retry loop of
    `_force_remove_dir`. The directory tree is abstract: the root either
    exists or not, and it maps each child name to a file or a directory.
    Whether one removal attempt raises is decided by an injected oracle, so
    every property below holds for every pattern of failures. */
module KbStore {

  /** `for _ in range(5)` in `_force_remove_dir`. */
  const MaxRounds: nat := 5

  datatype Entry = File | Dir

  /** The root itself, or one of its immediate children. */
  datatype Path = Root | Child(name: string)

  /** One removal attempt on `path` in round `round`: the plain
      `shutil.rmtree` (`fallback == false`), or the walk that relaxes
      permissions and ends with `rmtree(..., ignore_errors=True)`
      (`fallback == true`). A plain `os.remove` of a stray file is
      `Attempt(Child(n), 0, false)`. A failed attempt on the root may still
      delete some of its children: `Sweep(n, round, fallback)` is that
      attempt's deletion of child `n`. */
  datatype Attempt =
    | Attempt(path: Path, round: nat, fallback: bool)
    | Sweep(name: string, round: nat, fallback: bool)

  /** `faults(a)` holds when attempt `a` fails to delete its target. */
  type Faults = Attempt -> bool

  /** The abstract state of the tree. */
  datatype Fs = Fs(rootExists: bool, entries: map<string, Entry>)

  predicate WellFormed(fs: Fs) {
    !fs.rootExists ==> fs.entries == map[]
  }

  predicate Exists(fs: Fs, p: Path) {
    match p
    case Root => fs.rootExists
    case Child(n) => n in fs.entries
  }

  predicate IsDir(fs: Fs, p: Path) {
    match p
    case Root => fs.rootExists
    case Child(n) => n in fs.entries && fs.entries[n] == Dir
  }

  /** The children that are directories: what `get_kb_names` reports. */
  function DirNames(fs: Fs): set<string> {
    set n | n in fs.entries && fs.entries[n] == Dir
  }

  /** The tree once the subtree at `p` is gone; removing the root takes its
      children with it. */
  function Without(fs: Fs, p: Path): Fs {
    match p
    case Root => Fs(false, map[])
    case Child(n) => Fs(fs.rootExists, fs.entries - {n})
  }

  /** One round of `_force_remove_dir` deletes the path when the plain
      `rmtree` or the fallback after it succeeds. */
  predicate RoundRemoves(faults: Faults, p: Path, r: nat) {
    !faults(Attempt(p, r, false)) || !faults(Attempt(p, r, true))
  }

  /** The first round at or after `from` that removes `p`, or `MaxRounds`
      if none of the remaining rounds does. */
  function FirstRemoval(faults: Faults, p: Path, from: nat): (r: nat)
    requires from <= MaxRounds
    ensures from <= r <= MaxRounds
    ensures forall k :: from <= k < r ==> !RoundRemoves(faults, p, k)
    ensures r < MaxRounds ==> RoundRemoves(faults, p, r)
    decreases MaxRounds - from
  {
    if from == MaxRounds then MaxRounds
    else if RoundRemoves(faults, p, from) then from
    else FirstRemoval(faults, p, from + 1)
  }

  /** Some round of the five removes the directory at `p`. */
  predicate Removes(faults: Faults, p: Path) {
    FirstRemoval(faults, p, 0) < MaxRounds
  }

  /** The children a failed attempt of round `r` on the root leaves. */
  function Unswept(entries: map<string, Entry>, faults: Faults, r: nat, fallback: bool): map<string, Entry> {
    map n | n in entries && faults(Sweep(n, r, fallback)) :: entries[n]
  }

  /** Some failed attempt on the root in the first `rounds` rounds deleted
      child `n`. */
  predicate SweptWithin(faults: Faults, n: string, rounds: nat) {
    rounds > 0 &&
    (SweptWithin(faults, n, rounds - 1) ||
     !faults(Sweep(n, rounds - 1, false)) || !faults(Sweep(n, rounds - 1, true)))
  }

  /** The children of a root that survived `rounds` failed rounds. */
  function RootRemainder(entries: map<string, Entry>, faults: Faults, rounds: nat): map<string, Entry> {
    map n | n in entries && !SweptWithin(faults, n, rounds) :: entries[n]
  }

  /** The tree after the attempt of round `r` on `p` failed: only the root's
      removal can take some of the children with it. */
  function AfterFailure(fs: Fs, p: Path, r: nat, fallback: bool, faults: Faults): Fs {
    if p.Root? && fs.rootExists then Fs(true, Unswept(fs.entries, faults, r, fallback)) else fs
  }

  /** The tree once `rounds` rounds of `_force_remove_dir(p)` have failed. */
  function AfterRounds(fs: Fs, p: Path, faults: Faults, rounds: nat): Fs {
    if p.Root? && fs.rootExists then Fs(true, RootRemainder(fs.entries, faults, rounds)) else fs
  }

  /** The tree after `_force_remove_dir(p)`. */
  function ForceRemove(fs: Fs, p: Path, faults: Faults): Fs {
    if IsDir(fs, p) && Removes(faults, p) then Without(fs, p) else AfterRounds(fs, p, faults, MaxRounds)
  }

  /** How many rounds `_force_remove_dir(p)` runs: it leaves the loop as soon
      as the path is gone, so a missing path takes one round. */
  function ForceRemoveRounds(fs: Fs, p: Path, faults: Faults): nat {
    if !Exists(fs, p) then 1
    else if IsDir(fs, p) && Removes(faults, p) then FirstRemoval(faults, p, 0) + 1
    else MaxRounds
  }

  /** A child that stays after its turn in the loop of `clear_all_kb`: a
      directory all five rounds failed on, or a file `os.remove` failed on. */
  predicate Survives(faults: Faults, n: string, e: Entry) {
    match e
    case Dir => !Removes(faults, Child(n))
    case File => faults(Attempt(Child(n), 0, false))
  }

  /** The children left once the loop over `os.listdir(kb_root)` is done. */
  function Leftovers(fs: Fs, faults: Faults): map<string, Entry> {
    map n | n in fs.entries && Survives(faults, n, fs.entries[n]) :: fs.entries[n]
  }

  /** The directories of the root whose force-removal succeeded. */
  function RemovedDirs(fs: Fs, faults: Faults): set<string> {
    set n | n in DirNames(fs) && Removes(faults, Child(n))
  }

  /** What `clear_all_kb` returns. */
  function PurgeCount(fs: Fs, faults: Faults): nat {
    if fs.rootExists then |RemovedDirs(fs, faults)| else 0
  }

  /** The tree after `clear_all_kb`: the root is force-removed after the
      children and unconditionally recreated. When the root cannot be
      removed, its failed attempts may still delete some of the leftovers. */
  function PurgeState(fs: Fs, faults: Faults): Fs {
    if fs.rootExists && !Removes(faults, Root) then Fs(true, RootRemainder(Leftovers(fs, faults), faults, MaxRounds))
    else Fs(true, map[])
  }

  ghost predicate NoFaults(faults: Faults) {
    forall a :: !faults(a)
  }

  // ----- Properties of the specification -----

  /** `_force_remove_dir` runs between one and five rounds, and fewer than
      five only when the path is gone afterwards. */
  lemma ForceRemoveRoundsBound(fs: Fs, p: Path, faults: Faults)
    ensures 1 <= ForceRemoveRounds(fs, p, faults) <= MaxRounds
    ensures ForceRemoveRounds(fs, p, faults) < MaxRounds ==> !Exists(ForceRemove(fs, p, faults), p)
  {
  }

  /** Without failures the first round removes any directory. */
  lemma FirstRoundRemoves(p: Path, faults: Faults)
    requires NoFaults(faults)
    ensures Removes(faults, p) && FirstRemoval(faults, p, 0) == 0
  {
    assert RoundRemoves(faults, p, 0) by {
      assert !faults(Attempt(p, 0, false));
    }
  }

  lemma {:induction false} SubsetCardinality<T>(a: set<T>, b: set<T>)
    requires a <= b
    ensures |a| <= |b|
    decreases b
  {
    if a != {} {
      var x :| x in a;
      SubsetCardinality(a - {x}, b - {x});
    }
  }

  /** The count never exceeds the number of directories listed. */
  lemma PurgeCountBound(fs: Fs, faults: Faults)
    ensures PurgeCount(fs, faults) <= |DirNames(fs)|
  {
    SubsetCardinality(RemovedDirs(fs, faults), DirNames(fs));
  }

  /** A directory is counted exactly when it no longer exists after its
      turn in the loop; files are never counted. */
  lemma CountedAreGone(fs: Fs, faults: Faults, n: string)
    ensures n in RemovedDirs(fs, faults) <==> n in DirNames(fs) && n !in Leftovers(fs, faults)
    ensures n in fs.entries && fs.entries[n] == File ==> n !in RemovedDirs(fs, faults)
  {
  }

  /** The root exists afterwards, whatever failed. */
  lemma PurgeKeepsRoot(fs: Fs, faults: Faults)
    requires WellFormed(fs)
    ensures PurgeState(fs, faults).rootExists
    ensures WellFormed(PurgeState(fs, faults))
  {
  }

  /** A missing root counts nothing and is created empty. */
  lemma PurgeMissingRoot(fs: Fs, faults: Faults)
    requires WellFormed(fs) && !fs.rootExists
    ensures PurgeCount(fs, faults) == 0
    ensures PurgeState(fs, faults) == Fs(true, map[])
  {
  }

  /** With no failure injected every directory is counted and the root ends
      up empty. */
  lemma PurgeWithoutFaults(fs: Fs, faults: Faults)
    requires WellFormed(fs) && fs.rootExists && NoFaults(faults)
    ensures PurgeCount(fs, faults) == |DirNames(fs)|
    ensures PurgeState(fs, faults) == Fs(true, map[])
  {
    FirstRoundRemoves(Root, faults);
    forall n | n in DirNames(fs) ensures n in RemovedDirs(fs, faults) {
      FirstRoundRemoves(Child(n), faults);
    }
    assert RemovedDirs(fs, faults) == DirNames(fs);
  }

  /** Purging twice: after a purge without failures, a second purge counts
      nothing and again leaves an empty root, whatever fails in it. */
  lemma PurgeIdempotent(fs: Fs, first: Faults, second: Faults)
    requires WellFormed(fs) && NoFaults(first)
    ensures PurgeCount(PurgeState(fs, first), second) == 0
    ensures PurgeState(PurgeState(fs, first), second) == Fs(true, map[])
  {
    if fs.rootExists {
      PurgeWithoutFaults(fs, first);
    }
    var mid := PurgeState(fs, first);
    assert mid == Fs(true, map[]);
    assert DirNames(mid) == {};
    assert Leftovers(mid, second) == map[];
  }

  /** An incomplete purge is visible by listing again: when the root itself
      could not be removed, every directory still listed is one that was not
      counted, and it is listed exactly when no failed attempt on the root
      deleted it. So the count plus the directories still listed never
      exceeds the original number of directories. */
  lemma PurgeIncompleteIsVisible(fs: Fs, faults: Faults)
    requires WellFormed(fs) && fs.rootExists && !Removes(faults, Root)
    ensures forall n :: n in DirNames(PurgeState(fs, faults)) <==>
              n in DirNames(fs) - RemovedDirs(fs, faults) && !SweptWithin(faults, n, MaxRounds)
    ensures DirNames(PurgeState(fs, faults)) <= DirNames(fs) - RemovedDirs(fs, faults)
    ensures PurgeCount(fs, faults) + |DirNames(PurgeState(fs, faults))| <= |DirNames(fs)|
  {
    var left := DirNames(PurgeState(fs, faults));
    LeftoverDirs(fs, faults);
    RemainderDirs(Leftovers(fs, faults), faults);
    assert RemovedDirs(fs, faults) <= DirNames(fs);
    DifferenceCardinality(DirNames(fs), RemovedDirs(fs, faults));
    SubsetCardinality(left, DirNames(fs) - RemovedDirs(fs, faults));
  }

  /** The directories among a root's remainder are those no sweep reached. */
  lemma RemainderDirs(entries: map<string, Entry>, faults: Faults)
    ensures forall n :: n in DirNames(Fs(true, RootRemainder(entries, faults, MaxRounds))) <==>
              n in DirNames(Fs(true, entries)) && !SweptWithin(faults, n, MaxRounds)
  {
  }

  /** A child that fails all of its own rounds can still be deleted by the
      root's failed removal: it is then neither counted nor listed. */
  lemma UncountedChildCanVanish()
    ensures exists fs: Fs, faults: Faults ::
              WellFormed(fs) && fs.rootExists && !Removes(faults, Root) &&
              PurgeCount(fs, faults) + |DirNames(PurgeState(fs, faults))| < |DirNames(fs)|
  {
    var fs := Fs(true, map["x" := Dir]);
    var faults: Faults := (a: Attempt) => !a.Sweep?;
    assert !Removes(faults, Child("x")) by {
      assert FirstRemoval(faults, Child("x"), 0) == MaxRounds;
    }
    assert !Removes(faults, Root) by {
      assert FirstRemoval(faults, Root, 0) == MaxRounds;
    }
    assert "x" !in RemovedDirs(fs, faults);
    assert RemovedDirs(fs, faults) == {};
    assert SweptWithin(faults, "x", MaxRounds);
    assert PurgeState(fs, faults) == Fs(true, map[]);
    assert DirNames(fs) == {"x"};
  }

  lemma DifferenceCardinality<T>(a: set<T>, b: set<T>)
    requires b <= a
    ensures |a - b| + |b| == |a|
  {
    assert (a - b) + b == a;
    assert (a - b) * b == {};
  }

  /** The directories among the leftovers are those not removed. */
  lemma LeftoverDirs(fs: Fs, faults: Faults)
    ensures DirNames(Fs(true, Leftovers(fs, faults))) == DirNames(fs) - RemovedDirs(fs, faults)
  {
    var left := Leftovers(fs, faults);
    forall n ensures n in DirNames(Fs(true, left)) <==> n in DirNames(fs) - RemovedDirs(fs, faults) {
      if n in fs.entries && fs.entries[n] == Dir {
        assert n in left <==> !Removes(faults, Child(n));
      }
    }
  }

  /** A removal of `p` whose round `r` failed in full leaves the tree of
      `r + 1` failed rounds, unless the fallback removed `p` altogether. */
  lemma RoundStep(s0: Fs, p: Path, faults: Faults, r: nat, before: Fs, after: Fs)
    requires WellFormed(s0) && before == AfterRounds(s0, p, faults, r)
    requires faults(Attempt(p, r, false)) || !IsDir(before, p)
    requires after == if IsDir(before, p) && !faults(Attempt(p, r, true)) then Without(AfterFailure(before, p, r, false, faults), p)
                      else AfterFailure(AfterFailure(before, p, r, false, faults), p, r, true, faults)
    ensures Exists(after, p) ==> after == AfterRounds(s0, p, faults, r + 1)
  {
    if p.Root? && s0.rootExists && Exists(after, p) {
      var e := AfterFailure(AfterFailure(before, p, r, false, faults), p, r, true, faults).entries;
      assert e == RootRemainder(s0.entries, faults, r + 1);
    }
  }

  /** The children while the loop of `clear_all_kb` is still to visit
      `remaining`: those are untouched, the visited ones are the survivors. */
  function Pending(fs: Fs, faults: Faults, remaining: set<string>): map<string, Entry> {
    map n | n in fs.entries && (n in remaining || Survives(faults, n, fs.entries[n])) :: fs.entries[n]
  }

  /** Visiting one child removes it from the pending children unless it
      survives. */
  lemma PendingStep(fs: Fs, faults: Faults, remaining: set<string>, n: string)
    requires n in remaining && n in fs.entries
    ensures Pending(fs, faults, remaining - {n}) ==
              if Survives(faults, n, fs.entries[n]) then Pending(fs, faults, remaining)
              else Pending(fs, faults, remaining) - {n}
  {
  }

  /** The directories counted among the visited children. */
  function CountedIn(fs: Fs, faults: Faults, visited: set<string>): set<string> {
    set n | n in visited && n in RemovedDirs(fs, faults)
  }

  lemma CountedStep(fs: Fs, faults: Faults, visited: set<string>, n: string)
    requires n !in visited
    ensures CountedIn(fs, faults, visited + {n}) ==
              if n in RemovedDirs(fs, faults) then CountedIn(fs, faults, visited) + {n}
              else CountedIn(fs, faults, visited)
    ensures n !in CountedIn(fs, faults, visited)
  {
  }

  /** The on-disk tree, updated in place by the operations of helpers.py. */
  class FileSystem {
    var rootExists: bool
    var entries: map<string, Entry>

    function State(): Fs
      reads this
    {
      Fs(rootExists, entries)
    }

    ghost predicate Valid()
      reads this
    {
      WellFormed(State())
    }

    constructor (fs: Fs)
      requires WellFormed(fs)
      ensures Valid() && State() == fs
    {
      rootExists := fs.rootExists;
      entries := fs.entries;
    }

    /** `os.path.exists`. */
    method PathExists(p: Path) returns (b: bool)
      ensures b == Exists(State(), p)
    {
      b := match p
        case Root => rootExists
        case Child(n) => n in entries;
    }

    /** `os.path.isdir`. */
    method IsDirectory(p: Path) returns (b: bool)
      ensures b == IsDir(State(), p)
    {
      b := match p
        case Root => rootExists
        case Child(n) => n in entries && entries[n] == Dir;
    }

    /** `os.listdir(kb_root)`, of an existing root; the order of the names is
        not modelled. */
    method ListDir() returns (names: set<string>)
      requires rootExists
      ensures names == entries.Keys
    {
      names := entries.Keys;
    }

    /** `os.mkdir(kb_root)` when missing, `os.makedirs(kb_root,
        exist_ok=True)`: the root exists, its children are untouched. */
    method MakeRoot()
      requires Valid()
      modifies this
      ensures Valid() && rootExists && entries == old(entries)
    {
      rootExists := true;
    }

    /** One `shutil.rmtree(p)` attempt: it removes an existing directory
        unless the oracle makes it fail. A failed attempt on the root may
        already have deleted some of its children. */
    method RmTree(p: Path, round: nat, fallback: bool, faults: Faults) returns (ok: bool)
      requires Valid()
      modifies this
      ensures Valid()
      ensures ok == (IsDir(old(State()), p) && !faults(Attempt(p, round, fallback)))
      ensures State() == if ok then Without(old(State()), p) else AfterFailure(old(State()), p, round, fallback, faults)
    {
      var isDir := IsDirectory(p);
      ok := isDir && !faults(Attempt(p, round, fallback));
      if ok {
        match p
        case Root =>
          rootExists, entries := false, map[];
        case Child(n) =>
          entries := entries - {n};
      } else if p.Root? && rootExists {
        entries := map n | n in entries && faults(Sweep(n, round, fallback)) :: entries[n];
      }
    }

    /** `os.remove(p)` on a stray file, its failure swallowed. */
    method RemoveFile(n: string, faults: Faults)
      requires Valid() && n in entries && entries[n] == File
      modifies this
      ensures Valid() && rootExists == old(rootExists)
      ensures entries == if faults(Attempt(Child(n), 0, false)) then old(entries) else old(entries) - {n}
    {
      if !faults(Attempt(Child(n), 0, false)) {
        entries := entries - {n};
      }
    }

    /** `_force_remove_dir`: up to five rounds of `rmtree`, each failure
        followed by the permission-relaxing walk and an error-ignoring
        `rmtree`, leaving the loop once the path no longer exists. Every
        exception is swallowed. The 0.2 second sleep between rounds is not
        modelled. */
    method ForceRemoveDir(p: Path, faults: Faults) returns (rounds: nat)
      requires Valid()
      modifies this
      ensures Valid()
      ensures State() == ForceRemove(old(State()), p, faults)
      ensures rounds == ForceRemoveRounds(old(State()), p, faults)
    {
      ghost var s0 := State();
      rounds := 0;
      while rounds < MaxRounds
        invariant 0 <= rounds <= MaxRounds
        invariant Valid() && State() == AfterRounds(s0, p, faults, rounds)
        invariant rounds > 0 ==> Exists(s0, p)
        invariant IsDir(s0, p) ==> rounds <= FirstRemoval(faults, p, 0)
      {
        ghost var before := State();
        var ok := RmTree(p, rounds, false, faults);
        if !ok {
          var _ := RmTree(p, rounds, true, faults);
          RoundStep(s0, p, faults, rounds, before, State());
        }
        var present := PathExists(p);
        rounds := rounds + 1;
        if !present {
          break;
        }
      }
    }

    /** `get_kb_names`: creates the root if it is missing and lists exactly
        its children that are directories, each once. */
    method GetKbNames() returns (names: seq<string>)
      requires Valid()
      modifies this
      ensures Valid() && rootExists && entries == old(entries)
      ensures forall n :: n in names <==> n in DirNames(State())
      ensures forall i, j :: 0 <= i < j < |names| ==> names[i] != names[j]
    {
      var present := PathExists(Root);
      if !present {
        MakeRoot();
      }
      var listed := ListDir();
      var remaining := listed;
      ghost var s1 := State();
      names := [];
      while remaining != {}
        invariant State() == s1
        invariant remaining <= listed
        invariant forall n :: n in names <==> n in listed - remaining && n in DirNames(State())
        invariant forall i, j :: 0 <= i < j < |names| ==> names[i] != names[j]
        decreases remaining
      {
        var f :| f in remaining;
        var isDir := IsDirectory(Child(f));
        if isDir {
          assert f !in names;
          names := names + [f];
        }
        remaining := remaining - {f};
      }
    }

    /** The loop of `clear_all_kb` over `os.listdir(kb_root)`: each child
        directory is force-removed and counted when it is gone afterwards;
        each stray file is removed best-effort and never counted. */
    method PurgeChildren(faults: Faults) returns (removed: nat)
      requires Valid() && rootExists
      modifies this
      ensures Valid() && rootExists
      ensures entries == Leftovers(old(State()), faults)
      ensures removed == |RemovedDirs(old(State()), faults)|
    {
      ghost var s0 := State();
      removed := 0;
      var listed := ListDir();
      var remaining := listed;
      ghost var visited: set<string> := {};
      assert entries == Pending(s0, faults, remaining);
      while remaining != {}
        invariant Valid() && rootExists
        invariant listed == s0.entries.Keys
        invariant remaining <= listed && visited == listed - remaining
        invariant entries == Pending(s0, faults, remaining)
        invariant removed == |CountedIn(s0, faults, visited)|
        decreases remaining
      {
        var name :| name in remaining;
        CountedStep(s0, faults, visited, name);
        var gone := VisitChild(name, faults, s0, remaining);
        if gone {
          removed := removed + 1;
        }
        remaining := remaining - {name};
        visited := visited + {name};
      }
      assert CountedIn(s0, faults, visited) == RemovedDirs(s0, faults);
      assert Pending(s0, faults, {}) == Leftovers(s0, faults);
    }

    /** One turn of that loop: a directory is force-removed and reported
        gone when it no longer exists; a file is removed best-effort. */
    method VisitChild(name: string, faults: Faults, ghost s0: Fs, ghost remaining: set<string>) returns (gone: bool)
      requires Valid() && rootExists
      requires name in remaining && remaining <= s0.entries.Keys
      requires entries == Pending(s0, faults, remaining)
      modifies this
      ensures Valid() && rootExists
      ensures entries == Pending(s0, faults, remaining - {name})
      ensures gone == (name in RemovedDirs(s0, faults))
    {
      PendingStep(s0, faults, remaining, name);
      assert entries[name] == s0.entries[name];
      gone := false;
      var isDir := IsDirectory(Child(name));
      if isDir {
        var _ := ForceRemoveDir(Child(name), faults);
        var present := PathExists(Child(name));
        gone := !present;
      } else {
        RemoveFile(name, faults);
      }
    }

    /** `clear_all_kb`: purges the children of an existing root, then
        force-removes the root itself and recreates it unconditionally;
        returns how many child directories were removed. */
    method ClearAllKb(faults: Faults) returns (removed: nat)
      requires Valid()
      modifies this
      ensures Valid()
      ensures State() == PurgeState(old(State()), faults)
      ensures removed == PurgeCount(old(State()), faults)
    {
      removed := 0;
      var rootPresent := PathExists(Root);
      if rootPresent {
        removed := PurgeChildren(faults);
        var _ := ForceRemoveDir(Root, faults);
      }
      MakeRoot();
    }
  }

  /** Two purges in a row, the first without failures: the second reports
      zero and the root is left existing and empty. */
  method PurgeTwice(fs: FileSystem, second: Faults) returns (n1: nat, n2: nat)
    requires fs.Valid()
    modifies fs
    ensures fs.Valid() && fs.State() == Fs(true, map[])
    ensures n1 == |DirNames(old(fs.State()))| && n2 == 0
  {
    ghost var s0 := fs.State();
    var none: Faults := a => false;
    n1 := fs.ClearAllKb(none);
    if s0.rootExists {
      PurgeWithoutFaults(s0, none);
    } else {
      PurgeMissingRoot(s0, none);
    }
    PurgeIdempotent(s0, none, second);
    n2 := fs.ClearAllKb(second);
  }
}
