/**
 `publishOverlay` without `--replace`: the objects come through a link to the source repository, the
 snapshot is installed as in `publish`, and afterwards old snapshots are pruned.

 Pruning removes whole directories one after the other, and a removal can stop anywhere. So the states after
 `latest.json` has been renamed are described by which excess snapshots are gone and what the removal under
 way has kept, and it is said for each of them when the repository is good. For a run that returns, the disk
 before it tells whether the new snapshot is still there.
 */
module Overlay {
  import opened Basics
  import opened Sorting
  import opened FileSystem
  import opened Repository
  import opened Publish
  import PlanBuilder

  // ----- objects -----

  /** `writeOverlayOnlyObject` */
  method WriteOverlayOnlyObject(env: Env, ghost base: Files, disk: Disk, o: PlanObject) returns (ok: bool)
    requires Good(env, base, disk.fs.files) && Kept(env, base, disk.history)
    requires o.content.Some? && ContentFits(env, o)
    modifies disk
    ensures Good(env, base, disk.fs.files) && Kept(env, base, disk.history)
    ensures SameExcept(old(disk.fs.files), disk.fs.files, {ObjectPartial(o.sha), ObjectPath(o.sha)})
    ensures DirsGrow(old(disk.fs.dirs), disk.fs.dirs)
    ensures ok ==> Verified(env, disk.fs.files, ObjectPath(o.sha), o.sha, o.size)
    ensures disk.failed == (old(disk.failed) || !ok)
  {
    hide Public, Good;
    var (partial, destination) := (ObjectPartial(o.sha), ObjectPath(o.sha));
    ObjectsArePublic(o.sha);
    assert partial != destination;
    ok := VerifyExisting(env, disk, destination, o.sha, o.size);
    if ok { return; }
    ok := ScratchMkdir(env, base, disk, destination[..4]);
    NoSnapshotAbove(destination[..4]);
    if !ok { return; }
    ghost var before := disk.fs.files;
    ok := ScratchWrite(env, base, disk, partial, o.content.value);
    if !ok { return; }
    PublishStep(env, base, disk.fs, o.sha);
    ok := disk.Rename(partial, destination);
  }

  /** The first n objects, and all that come from the source, are in place. */
  ghost predicate Linked(env: Env, files: Files, objects: seq<PlanObject>, n: nat)
  {
    forall i :: 0 <= i < |objects| && (i < n || objects[i].content.None?) ==>
      Verified(env, files, ObjectPath(objects[i].sha), objects[i].sha, objects[i].size)
  }

  lemma StillLinked(env: Env, f: Files, g: Files, objects: seq<PlanObject>, n: nat)
    requires n < |objects| && forall i, j :: 0 <= i < j < |objects| ==> objects[i].sha != objects[j].sha
    requires SameExcept(f, g, {ObjectPartial(objects[n].sha), ObjectPath(objects[n].sha)})
    requires Linked(env, f, objects, n) && Verified(env, g, ObjectPath(objects[n].sha), objects[n].sha, objects[n].size)
    ensures Linked(env, g, objects, n + 1)
  {
    hide ObjectPath, ObjectPartial;
    OtherObjects(f, g, objects[n].sha);
    forall i | 0 <= i < |objects| && (i < n + 1 || objects[i].content.None?)
      ensures Verified(env, g, ObjectPath(objects[i].sha), objects[i].sha, objects[i].size)
    {
      if i != n {
        assert objects[i].sha != objects[n].sha;
        assert SameAt(f, g, ObjectPath(objects[i].sha));
      }
    }
  }

  lemma OutsideOne(f: Files, g: Files, sha: Sha)
    requires SameExcept(f, g, {ObjectPartial(sha), ObjectPath(sha)})
    ensures SameOutsideObjects(f, g)
  {
    assert ObjectPartial(sha)[0] == "objects" && ObjectPath(sha)[0] == "objects";
  }

  method WriteOverlayObjects(env: Env, ghost base: Files, disk: Disk, objects: seq<PlanObject>) returns (ok: bool)
    requires Good(env, base, disk.fs.files) && Kept(env, base, disk.history)
    requires forall i, j :: 0 <= i < j < |objects| ==> objects[i].sha != objects[j].sha
    requires forall i :: 0 <= i < |objects| ==> ContentFits(env, objects[i])
    requires Linked(env, disk.fs.files, objects, 0)
    modifies disk
    ensures Good(env, base, disk.fs.files) && Kept(env, base, disk.history)
    ensures SameOutsideObjects(old(disk.fs.files), disk.fs.files) && DirsGrow(old(disk.fs.dirs), disk.fs.dirs)
    ensures ok ==> AllVerified(env, disk.fs.files, objects, |objects|)
    ensures disk.failed == (old(disk.failed) || !ok)
  {
    hide Good, ObjectPath, ObjectPartial, Verified;
    for i := 0 to |objects|
      invariant Good(env, base, disk.fs.files) && Kept(env, base, disk.history)
      invariant SameOutsideObjects(old(disk.fs.files), disk.fs.files) && DirsGrow(old(disk.fs.dirs), disk.fs.dirs)
      invariant Linked(env, disk.fs.files, objects, i)
      invariant disk.failed == old(disk.failed)
    {
      if objects[i].content.Some? {
        ghost var f := disk.fs.files;
        var written := WriteOverlayOnlyObject(env, base, disk, objects[i]);
        OutsideOne(f, disk.fs.files, objects[i].sha);
        OutsideChain(old(disk.fs.files), f, disk.fs.files);
        if !written { return false; }
        StillLinked(env, f, disk.fs.files, objects, i);
      }
    }
    return true;
  }

  // ----- pruning -----

  /** The names in the snapshots directory. */
  function Children(fs: Fs): set<Name>
  {
    (set p | p in fs.files && |p| >= 2 && p[0] == "snapshots" :: p[1])
    + (set d | d in fs.dirs && |d| >= 2 && d[0] == "snapshots" :: d[1])
  }

  predicate IsDirectory(fs: Fs, p: Path)
  {
    p in fs.dirs || exists q :: q in fs.files && Under(p, q) && q != p
  }

  /** The order of names is the operating system's. */
  method ReadDir(disk: Disk) returns (names: seq<Name>)
    ensures multiset(names) == multiset(Children(disk.fs))
  {
    names := [];
    var rest := Children(disk.fs);
    while rest != {}
      invariant multiset(names) + multiset(rest) == multiset(Children(disk.fs))
      decreases |rest|
    {
      var x :| x in rest;
      names := names + [x];
      rest := rest - {x};
    }
  }

  ghost predicate Distinct(s: seq<Name>)
  {
    forall x :: multiset(s)[x] <= 1
  }

  /** The filter of `completedPublicSnapshotDirs`. */
  predicate Wanted(fs: Fs, id: Name)
  {
    IsDirectory(fs, SnapshotDir(id)) && !HasPartial(id) && InSnapshot(id, "COMPLETE") in fs.files
  }

  lemma CompletedAreWanted(fs: Fs, id: Name)
    ensures Wanted(fs, id) <==> Complete(fs.files, id)
    ensures Complete(fs.files, id) ==> id in Children(fs) && Exists(fs, ["snapshots"])
  {
    hide HasPartial;
    var p := InSnapshot(id, "COMPLETE");
    assert p[0] == "snapshots" && p[1] == id;
    UnderSnapshot(id, p);
    assert |p| != |SnapshotDir(id)|;
    assert p[..1] == ["snapshots"];
  }

  method SelectWanted(disk: Disk, names: seq<Name>) returns (found: seq<Name>)
    requires Distinct(names)
    ensures Distinct(found)
    ensures forall id :: id in found <==> id in names && Wanted(disk.fs, id)
  {
    hide Wanted;
    found := [];
    for i := 0 to |names|
      invariant forall x :: multiset(found)[x] <= multiset(names[..i])[x]
      invariant forall x :: x in found <==> x in names[..i] && Wanted(disk.fs, x)
    {
      assert names[..i + 1] == names[..i] + [names[i]];
      if Wanted(disk.fs, names[i]) { found := found + [names[i]]; }
    }
    assert names[..|names|] == names;
  }

  /** `completedPublicSnapshotDirs` */
  method CompletedPublicSnapshots(le: (Name, Name) -> bool, disk: Disk) returns (r: seq<Name>)
    requires TotalPreorder(le)
    ensures SortedBy(le, r) && Distinct(r)
    ensures forall id :: id in r <==> Complete(disk.fs.files, id)
  {
    hide Wanted, Complete, Exists, Children, TotalPreorder;
    forall id ensures Wanted(disk.fs, id) <==> Complete(disk.fs.files, id)
      ensures Complete(disk.fs.files, id) ==> id in Children(disk.fs) && Exists(disk.fs, ["snapshots"])
    {
      CompletedAreWanted(disk.fs, id);
    }
    if !Exists(disk.fs, ["snapshots"]) { return []; }
    var names := ReadDir(disk);
    forall x ensures x in names <==> x in Children(disk.fs) {
      assert x in names <==> x in multiset(names);
    }
    var found := SelectWanted(disk, names);
    r := Sort(le, found);
    SortIsSorted(le, found);
    SameElements(r, found);
  }

  // ----- what pruning does to the files -----

  /** Inside the directory of one of these snapshots. */
  predicate Inside(gone: set<Name>, p: Path)
  {
    |p| >= 2 && p[0] == "snapshots" && p[1] in gone
  }

  function Dropped(fs: Fs, gone: set<Name>): Fs
  {
    Fs(map p | p in fs.files && !Inside(gone, p) :: fs.files[p], set d | d in fs.dirs && !Inside(gone, d))
  }

  /** A state on the way: nothing differs but that files of those snapshots are missing. */
  ghost predicate Pruning(f: Files, g: Files, gone: set<Name>)
  {
    forall p :: if Inside(gone, p) then p in g ==> p in f && g[p] == f[p] else SameAt(f, g, p)
  }

  lemma DropOneMore(fs: Fs, gone: set<Name>, id: Name, kept: set<Path>, all: set<Name>)
    requires gone <= all && id in all
    ensures RemoveTree(Dropped(fs, gone), SnapshotDir(id)) == Dropped(fs, gone + {id})
    ensures Pruning(fs.files, Pruned(Dropped(fs, gone), SnapshotDir(id), kept).files, all)
  {
    forall p: Path ensures Inside(gone + {id}, p) <==> Inside(gone, p) || Under(SnapshotDir(id), p) {
      UnderSnapshot(id, p);
    }
    var g := RemoveTree(Dropped(fs, gone), SnapshotDir(id));
    assert g.files == Dropped(fs, gone + {id}).files;
    assert g.dirs == Dropped(fs, gone + {id}).dirs;
  }

  lemma DroppedIsPruning(fs: Fs, gone: set<Name>, all: set<Name>)
    requires gone <= all
    ensures Pruning(fs.files, Dropped(fs, gone).files, all)
  {
  }

  /** The snapshots beyond the retention count; nothing for a count that is not positive. */
  function Excess(completed: seq<Name>, count: int): (r: seq<Name>)
  {
    if 0 < count <= MAX_SAFE_INTEGER && count < |completed| then completed[..|completed| - count] else []
  }

  ghost function Names(s: seq<Name>): set<Name> { set x | x in s }

  /** The states that a run has added are all on the way. */
  ghost predicate AllPruning(f: Files, states: seq<Fs>, gone: set<Name>)
  {
    forall i :: 0 <= i < |states| ==> Pruning(f, states[i].files, gone)
  }

  /** A state that a removal of the n-th excess snapshot can leave, the ones before it being gone. */
  ghost predicate StoppedAt(start: Fs, g: Fs, excess: seq<Name>, n: nat, kept: set<Path>)
  {
    n < |excess| && g == Pruned(Dropped(start, Names(excess[..n])), SnapshotDir(excess[n]), kept)
  }

  ghost predicate AllStopped(start: Fs, states: seq<Fs>, excess: seq<Name>)
  {
    forall i :: 0 <= i < |states| ==> Stopped(start, states[i], excess)
  }

  ghost predicate Stopped(start: Fs, g: Fs, excess: seq<Name>)
  {
    exists n: nat, kept: set<Path> :: StoppedAt(start, g, excess, n, kept)
  }

  lemma StopHere(start: Fs, states: seq<Fs>, excess: seq<Name>, n: nat, kept: set<Path>, g: Fs)
    requires AllStopped(start, states, excess) && StoppedAt(start, g, excess, n, kept)
    ensures AllStopped(start, states + [g], excess)
  {
    hide StoppedAt;
    assert Stopped(start, g, excess);
    hide Stopped;
  }

  /** `prunePublicSnapshots` */
  method PrunePublicSnapshots(le: (Name, Name) -> bool, disk: Disk, count: int)
    returns (ok: bool, removed: seq<Name>, ghost completed: seq<Name>, ghost states: seq<Fs>)
    requires TotalPreorder(le)
    modifies disk
    ensures SortedBy(le, completed) && Distinct(completed)
    ensures forall id :: id in completed <==> Complete(old(disk.fs.files), id)
    ensures ok ==> removed == Excess(completed, count) && disk.fs == Dropped(old(disk.fs), Names(removed))
    ensures disk.history == old(disk.history) + states
    ensures AllPruning(old(disk.fs.files), states, Names(Excess(completed, count)))
    ensures AllStopped(old(disk.fs), states, Excess(completed, count))
    ensures Pruning(old(disk.fs.files), disk.fs.files, Names(Excess(completed, count)))
    ensures disk.failed == (old(disk.failed) || !ok)
  {
    hide TotalPreorder, Complete, Pruning, Dropped, Pruned, SortedBy, AllStopped;
    assert forall fs, excess :: AllStopped(fs, [], excess) by { NoneStopped(); }
    removed, states := [], [];
    var snapshots := CompletedPublicSnapshots(le, disk);
    completed := snapshots;
    ghost var start := disk.fs;
    NothingDropped(start, Names(Excess(completed, count)));
    if count <= 0 || count > MAX_SAFE_INTEGER || |snapshots| <= count { return true, [], completed, []; }
    var removeCount := |snapshots| - count;
    ghost var all := Names(Excess(completed, count));
    for i := 0 to removeCount
      invariant removed == snapshots[..i]
      invariant disk.fs == Dropped(start, Names(removed))
      invariant disk.history == old(disk.history) + states
      invariant AllPruning(start.files, states, all)
      invariant AllStopped(start, states, Excess(completed, count))
      invariant disk.failed == old(disk.failed)
    {
      ghost var f := disk.fs;
      assert snapshots[i] == Excess(completed, count)[i];
      forall x | x in Names(removed) ensures x in all {
        var j :| 0 <= j < |removed| && removed[j] == x;
        assert Excess(completed, count)[j] == x;
      }
      ghost var kept;
      ok, kept := disk.Remove(SnapshotDir(snapshots[i]));
      DropOneMore(start, Names(removed), snapshots[i], kept, all);
      DropOneMore(start, Names(removed), snapshots[i], {}, all);
      assert removed == Excess(completed, count)[..i];
      ghost var stopped := Pruned(f, SnapshotDir(snapshots[i]), kept);
      StopHere(start, states, Excess(completed, count), i, kept, stopped);
      StopHere(start, states + [stopped], Excess(completed, count), i, if ok then {} else kept, disk.fs);
      states := states + [stopped] + [disk.fs];
      if !ok { return; }
      assert Names(removed + [snapshots[i]]) == Names(removed) + {snapshots[i]};
      removed := removed + [snapshots[i]];
    }
    ok := true;
    assert removed == Excess(completed, count);
    DroppedIsPruning(start, Names(removed), all);
  }

  lemma NoneStopped()
    ensures forall fs, excess :: AllStopped(fs, [], excess)
  {
  }

  lemma NothingDropped(fs: Fs, all: set<Name>)
    ensures Dropped(fs, {}) == fs && Dropped(fs, Names([])) == fs && Pruning(fs.files, fs.files, all)
  {
    assert Names([]) == {};
    assert Dropped(fs, {}).files == fs.files;
    assert Dropped(fs, {}).dirs == fs.dirs;
  }

  // ----- what pruning means -----

  /** What goes is the excess, in ascending order; what stays are the min(count, n) greatest. */
  lemma ExcessLeavesGreatest(le: (Name, Name) -> bool, completed: seq<Name>, count: int)
    requires SortedBy(le, completed) && Distinct(completed) && 0 < count <= MAX_SAFE_INTEGER
    ensures var removed := Excess(completed, count);
      && SortedBy(le, removed)
      && |completed| - |removed| == (if count < |completed| then count else |completed|)
      && (forall i, j :: 0 <= i < |removed| <= j < |completed| ==> le(removed[i], completed[j]))
      && (forall x :: x in completed ==> (x in removed <==> x !in completed[|removed|..]))
  {
    var removed := Excess(completed, count);
    var kept := completed[|removed|..];
    assert completed == removed + kept;
    forall x | x in completed ensures x in removed <==> x !in kept {
      assert multiset(completed)[x] == multiset(removed)[x] + multiset(kept)[x];
      assert x in removed <==> multiset(removed)[x] > 0;
      assert x in kept <==> multiset(kept)[x] > 0;
      assert multiset(completed)[x] > 0;
    }
  }

  /** A snapshot outside the removed ones is as it was. */
  lemma OthersStay(f: Files, g: Files, gone: set<Name>, id: Name)
    requires Pruning(f, g, gone) && id !in gone
    ensures forall name :: SameAt(f, g, InSnapshot(id, name))
    ensures Complete(g, id) <==> Complete(f, id)
  {
    hide HasPartial;
    forall name ensures SameAt(f, g, InSnapshot(id, name)) { assert InSnapshot(id, name)[1] == id; }
    assert SameAt(f, g, InSnapshot(id, "COMPLETE"));
  }

  lemma ObjectsAndLatestStay(f: Files, g: Files, gone: set<Name>)
    requires Pruning(f, g, gone)
    ensures SameAt(f, g, LATEST_PATH) && forall sha: Sha :: SameAt(f, g, ObjectPath(sha))
  {
    assert !Inside(gone, LATEST_PATH);
    forall sha: Sha ensures SameAt(f, g, ObjectPath(sha)) {
      assert ObjectPath(sha)[0] == "objects";
      assert !Inside(gone, ObjectPath(sha));
    }
  }

  /** In every state of the pruning, objects are good and every snapshot that stays is complete and intact. */
  lemma PruningKeepsRest(env: Env, f: Files, g: Files, gone: set<Name>)
    requires Inv(env, f) && Pruning(f, g, gone)
    ensures ObjectsOk(env, g)
    ensures forall id ::
      id !in gone ==> (Complete(g, id) <==> Complete(f, id)) && (Complete(f, id) ==> Intact(env, g, id))
    ensures LATEST_PATH in f && env.parseLatest(f[LATEST_PATH]).value !in gone ==> LatestOk(env, g)
  {
    hide Complete, Pruning, ObjectPath, Intact;
    ObjectsAndLatestStay(f, g, gone);
    forall sha: Sha | ObjectPath(sha) in g ensures env.hash(g[ObjectPath(sha)]) == sha {
      assert SameAt(f, g, ObjectPath(sha));
    }
    forall id | id !in gone
      ensures (Complete(g, id) <==> Complete(f, id)) && (Complete(f, id) ==> Intact(env, g, id))
    {
      OthersStay(f, g, gone, id);
      assert SameAt(f, g, InSnapshot(id, "files.json"));
      if Complete(f, id) {
        CompleteHasFiles(env, f, id);
        IntactCarried(env, f, g, id, id);
      }
    }
  }

  lemma CompleteHasFiles(env: Env, f: Files, id: Name)
    requires Inv(env, f) && Complete(f, id)
    ensures Intact(env, f, id) && InSnapshot(id, "files.json") in f
  {
  }

  /** After the pruning, exactly the snapshots that were not removed are completed, and the repository is
      good exactly when the one that `latest.json` names is among them. */
  lemma DroppedIsGoodIff(env: Env, fs: Fs, gone: set<Name>)
    requires Inv(env, fs.files)
    ensures var g := Dropped(fs, gone).files;
      && (forall id :: Complete(g, id) <==> Complete(fs.files, id) && id !in gone)
      && (Inv(env, g) <==> (LATEST_PATH in fs.files ==> env.parseLatest(fs.files[LATEST_PATH]).value !in gone))
  {
    hide HasPartial, Dropped, Pruning, ObjectPath, Intact;
    var (f, g) := (fs.files, Dropped(fs, gone).files);
    DroppedIsPruning(fs, gone, gone);
    PruningKeepsRest(env, f, g, gone);
    forall id | id in gone ensures !Complete(g, id) { DroppedIsGone(fs, gone, id); }
    ObjectsAndLatestStay(f, g, gone);
  }

  lemma DroppedIsGone(fs: Fs, gone: set<Name>, id: Name)
    requires id in gone
    ensures InSnapshot(id, "COMPLETE") !in Dropped(fs, gone).files
  {
    assert InSnapshot(id, "COMPLETE")[1] == id && InSnapshot(id, "COMPLETE")[0] == "snapshots";
    assert Inside(gone, InSnapshot(id, "COMPLETE"));
  }

  /** What a stopped removal leaves of the other snapshots, the objects and `latest.json`. */
  lemma PrunedElsewhere(fs: Fs, id: Name, kept: set<Path>)
    ensures var g := Pruned(fs, SnapshotDir(id), kept).files;
      && SameAt(fs.files, g, LATEST_PATH) && (forall sha: Sha :: SameAt(fs.files, g, ObjectPath(sha)))
      && forall other, name :: other != id ==> SameAt(fs.files, g, InSnapshot(other, name))
  {
    var g := Pruned(fs, SnapshotDir(id), kept).files;
    UnderSnapshot(id, LATEST_PATH);
    forall sha: Sha ensures SameAt(fs.files, g, ObjectPath(sha)) { ObjectOutside(id, sha); }
    forall other, name | other != id ensures SameAt(fs.files, g, InSnapshot(other, name)) {
      UnderSnapshot(id, InSnapshot(other, name));
      assert InSnapshot(other, name)[1] == other;
    }
  }

  lemma PrunedInside(fs: Fs, id: Name, kept: set<Path>, name: Name)
    ensures var (g, p) := (Pruned(fs, SnapshotDir(id), kept).files, InSnapshot(id, name));
      (p in g <==> p in fs.files && p in kept) && (p in g ==> g[p] == fs.files[p])
  {
    UnderSnapshot(id, InSnapshot(id, name));
    assert InSnapshot(id, name)[0] == "snapshots" && InSnapshot(id, name)[1] == id;
  }

  lemma OtherSnapshotsOk(env: Env, fs: Fs, id: Name, kept: set<Path>, other: Name)
    requires SnapshotsOk(env, fs.files) && other != id
    ensures var g := Pruned(fs, SnapshotDir(id), kept).files;
      (Complete(g, other) <==> Complete(fs.files, other)) && (Complete(g, other) ==> Intact(env, g, other))
  {
    hide HasPartial, ObjectPath, InSnapshot, Pruned;
    var g := Pruned(fs, SnapshotDir(id), kept).files;
    PrunedElsewhere(fs, id, kept);
    assert SameAt(fs.files, g, InSnapshot(other, "COMPLETE")) && SameAt(fs.files, g, InSnapshot(other, "files.json"));
    if Complete(g, other) {
      assert Intact(env, fs.files, other);
      IntactCarried(env, fs.files, g, other, other);
    }
  }

  /** A stopped removal of a completed snapshot keeps the snapshots good exactly when it has not taken the
      file list and left the COMPLETE mark. */
  lemma StoppedRemovalIff(env: Env, fs: Fs, id: Name, kept: set<Path>)
    requires SnapshotsOk(env, fs.files) && Complete(fs.files, id)
    ensures SnapshotsOk(env, Pruned(fs, SnapshotDir(id), kept).files) <==>
      (InSnapshot(id, "COMPLETE") in kept ==> InSnapshot(id, "files.json") in kept)
  {
    hide HasPartial, Pruned, ObjectPath, InSnapshot, IsSha;
    var g := Pruned(fs, SnapshotDir(id), kept).files;
    forall other | other != id && Complete(g, other) ensures Intact(env, g, other) {
      OtherSnapshotsOk(env, fs, id, kept, other);
    }
    PrunedInside(fs, id, kept, "COMPLETE");
    PrunedInside(fs, id, kept, "files.json");
    PrunedElsewhere(fs, id, kept);
    assert Intact(env, fs.files, id);
    assert Complete(g, id) <==> InSnapshot(id, "COMPLETE") in kept;
    assert Intact(env, g, id) ==> InSnapshot(id, "files.json") in kept;
    if InSnapshot(id, "files.json") in kept { IntactCarried(env, fs.files, g, id, id); }
    assert SnapshotsOk(env, g) <==> (Complete(g, id) ==> Intact(env, g, id));
  }

  /** Every state that a crash of the pruning can leave: it is good exactly when the removal under way has
      not taken the file list and left the mark, and the snapshot that `latest.json` names is neither gone
      nor stripped of its mark. */
  lemma PruningStateIsGoodIff(env: Env, start: Fs, g: Fs, excess: seq<Name>, n: nat, kept: set<Path>)
    requires Inv(env, start.files) && StoppedAt(start, g, excess, n, kept)
    requires Complete(start.files, excess[n]) && excess[n] !in excess[..n]
    ensures var (x, f) := (excess[n], start.files);
      Inv(env, g.files) <==>
        && (InSnapshot(x, "COMPLETE") in kept ==> InSnapshot(x, "files.json") in kept)
        && (LATEST_PATH in f ==>
              && env.parseLatest(f[LATEST_PATH]).value !in excess[..n]
              && (env.parseLatest(f[LATEST_PATH]).value == x ==> InSnapshot(x, "COMPLETE") in kept))
  {
    hide HasPartial, Dropped, Pruned, Pruning, ObjectPath, Intact, InSnapshot;
    var (x, f, gone) := (excess[n], start.files, Names(excess[..n]));
    var d := Dropped(start, gone);
    DroppedIsGoodIff(env, start, gone);
    DroppedKeepsSnapshots(env, start, gone);
    StoppedRemovalIff(env, d, x, kept);
    PrunedElsewhere(d, x, kept);
    PrunedInside(d, x, kept, "COMPLETE");
    forall sha: Sha | ObjectPath(sha) in g.files ensures env.hash(g.files[ObjectPath(sha)]) == sha {
      assert SameAt(d.files, g.files, ObjectPath(sha));
    }
    assert SameAt(f, g.files, LATEST_PATH);
    if LATEST_PATH in f {
      var l := env.parseLatest(f[LATEST_PATH]).value;
      if l != x { assert SameAt(d.files, g.files, InSnapshot(l, "COMPLETE")); }
    }
  }

  lemma DroppedKeepsSnapshots(env: Env, fs: Fs, gone: set<Name>)
    requires Inv(env, fs.files)
    ensures var g := Dropped(fs, gone).files;
      ObjectsOk(env, g) && SnapshotsOk(env, g) && SameAt(fs.files, g, LATEST_PATH)
  {
    hide HasPartial, Dropped, Pruning, ObjectPath, Intact;
    DroppedIsPruning(fs, gone, gone);
    PruningKeepsRest(env, fs.files, Dropped(fs, gone).files, gone);
    DroppedIsGoodIff(env, fs, gone);
    ObjectsAndLatestStay(fs.files, Dropped(fs, gone).files, gone);
  }

  /** So a stopped removal can leave a snapshot marked COMPLETE without its file list. */
  lemma StoppedRemovalCanBreak(env: Env, fs: Fs, id: Name)
    requires Inv(env, fs.files) && Complete(fs.files, id)
    ensures !SnapshotsOk(env, Pruned(fs, SnapshotDir(id), {InSnapshot(id, "COMPLETE")}).files)
  {
    StoppedRemovalIff(env, fs, id, {InSnapshot(id, "COMPLETE")});
    assert InSnapshot(id, "files.json")[2] != InSnapshot(id, "COMPLETE")[2];
  }

  // ----- the whole run -----

  /** From the start to the rename of `latest.json`, as in `publish`. */
  method PublishLinked(env: Env, disk: Disk, plan: Plan, pid: string) returns (ok: bool)
    requires Inv(env, disk.fs.files) && disk.history == [disk.fs] && !disk.failed && PlanOk(env, plan)
    requires Linked(env, disk.fs.files, plan.objects, 0)
    modifies disk
    ensures !ok ==> Kept(env, old(disk.fs.files), disk.history) && Good(env, old(disk.fs.files), disk.fs.files)
    ensures ok ==> disk.history != [] && disk.history[|disk.history| - 1] == disk.fs
    ensures ok ==> Kept(env, old(disk.fs.files), disk.history[..|disk.history| - 1])
    ensures ok ==> Published(env, disk.fs.files, plan) && Keeps(old(disk.fs.files), disk.fs.files)
    ensures ok ==> OnlyCompletes(old(disk.fs.files), disk.fs.files, plan.backupId)
    ensures Inv(env, disk.fs.files) <==> !(ok && HasPartial(plan.backupId))
    ensures ok <==> !disk.failed && !Exists(old(disk.fs), SnapshotDir(plan.backupId))
  {
    hide Good, HasPartial, PlanOk, HasDocs, ObjectPath, AllVerified, Keeps, Exists, Inv, SameOutsideObjects,
      OnlyCompletes, SameOutsideBoth, SameOutside, SameAt, Prefixes, Linked;
    ghost var base := disk.fs.files;
    ghost var start := disk.fs;
    StartIsGood(env, base);
    var id := plan.backupId;
    ok := ScratchMkdir(env, base, disk, []);
    if !ok { GoodIsInv(env, base, disk.fs.files); return; }
    NoSnapshotAbove([]);
    ghost var made := disk.fs;
    PlanHasDistinctObjects(env, plan);
    ok := WriteOverlayObjects(env, base, disk, plan.objects);
    ghost var f := disk.fs;
    if !ok { GoodIsInv(env, base, f.files); return; }
    DirsGrowChain(start.dirs, made.dirs, f.dirs);
    VerifiedArePresent(env, f.files, plan.objects);
    ok := InstallFresh(env, base, disk, plan, pid);
    ThereBefore(start, f, id);
    if !ok { GoodIsInv(env, base, disk.fs.files); return; }
    ghost var g := disk.fs.files;
    ObjectsStayVerified(env, f.files, g, PartialName(id, pid), id, plan.objects);
    DocsAreComplete(g, plan);
    ok := SwingLatest(env, base, disk, plan);
    RestStays(env, g, disk.fs.files, plan);
    CompletesOnly(base, f.files, g, disk.fs.files, PartialName(id, pid), id);
    if !ok { GoodIsInv(env, base, disk.fs.files); }
  }

  // ----- is the new snapshot retained? -----

  /** The completed snapshots of a disk that sort after `id`. */
  function Later(le: (Name, Name) -> bool, fs: Fs, id: Name): set<Name>
  {
    set x | x in Children(fs) && Complete(fs.files, x) && x != id && le(id, x)
  }

  /** Whether a publish of `id` leaves it there, told from the disk before: pruning is off, or fewer than
      `count` completed snapshots sort after it. */
  predicate Retained(le: (Name, Name) -> bool, fs: Fs, id: Name, count: int)
  {
    !(0 < count <= MAX_SAFE_INTEGER) || |Later(le, fs, id)| < count
  }

  /** No completed snapshot compares as equal to `id`. */
  ghost predicate NoneTies(le: (Name, Name) -> bool, files: Files, id: Name)
  {
    forall x :: Complete(files, x) && x != id ==> !(le(id, x) && le(x, id))
  }

  lemma DistinctSplit(a: seq<Name>, b: seq<Name>)
    requires Distinct(a + b)
    ensures Distinct(b) && forall x :: x in a ==> x !in b
  {
    var s := a + b;
    forall x ensures multiset(b)[x] <= 1 && (x in a ==> x !in b) {
      assert multiset(s)[x] == multiset(a)[x] + multiset(b)[x];
      assert x in a <==> x in multiset(a);
      assert x in b <==> x in multiset(b);
    }
  }

  lemma {:induction false} DistinctNames(s: seq<Name>)
    requires Distinct(s)
    ensures |Names(s)| == |s|
  {
    hide Distinct;
    if s != [] {
      var t := s[1..];
      assert s == [s[0]] + t;
      DistinctSplit([s[0]], t);
      assert s[0] in [s[0]];
      DistinctNames(t);
      assert Names(s) == {s[0]} + Names(t);
    }
  }

  lemma DistinctAt(s: seq<Name>, i: nat, j: nat)
    requires Distinct(s) && i < j < |s|
    ensures s[i] != s[j]
  {
    var rest := Without(s, j);
    WithoutRemovesOne(s, j);
    assert rest[i] == s[i];
    assert s[i] in multiset(rest);
  }

  lemma DistinctRest(s: seq<Name>, i: nat)
    requires Distinct(s) && i <= |s|
    ensures Distinct(s[i..]) && |Names(s[i..])| == |s| - i
  {
    assert s == s[..i] + s[i..];
    DistinctSplit(s[..i], s[i..]);
    DistinctNames(s[i..]);
  }

  /** In the sorted list, what stands behind an element is what sorts after it. */
  lemma BehindIsLater(le: (Name, Name) -> bool, completed: seq<Name>, i: nat)
    requires SortedBy(le, completed) && Distinct(completed) && i < |completed|
    requires forall x :: x in completed && x != completed[i] ==> !(le(completed[i], x) && le(x, completed[i]))
    ensures forall x :: x in completed[i + 1..] <==> x in completed && x != completed[i] && le(completed[i], x)
  {
    hide Distinct;
    var (id, rest) := (completed[i], completed[i + 1..]);
    forall j | i < j < |completed| ensures completed[j] != id { DistinctAt(completed, i, j); }
    forall j | 0 <= j < |completed| && completed[j] != id && le(id, completed[j]) ensures completed[j] in rest {
      assert completed[j] in completed;
      assert j > i;
      assert rest[j - i - 1] == completed[j];
    }
    assert forall k :: 0 <= k < |rest| ==> rest[k] == completed[i + 1 + k];
  }

  /** The new snapshot is not removed exactly when it is retained. */
  lemma RetainedIff(le: (Name, Name) -> bool, start: Fs, mid: Files, completed: seq<Name>, id: Name, count: int)
    requires SortedBy(le, completed) && Distinct(completed) && (forall x :: x in completed <==> Complete(mid, x))
    requires Complete(mid, id) && OnlyCompletes(start.files, mid, id) && NoneTies(le, start.files, id)
    ensures id !in Excess(completed, count) <==> Retained(le, start, id, count)
  {
    hide Complete, Children, Distinct;
    var i :| 0 <= i < |completed| && completed[i] == id;
    BehindIsLater(le, completed, i);
    DistinctRest(completed, i + 1);
    forall x ensures x in Names(completed[i + 1..]) <==> x in Later(le, start, id) {
      CompletedAreWanted(start, x);
    }
    assert Names(completed[i + 1..]) == Later(le, start, id);
    if 0 < count < |completed| && count <= MAX_SAFE_INTEGER {
      var removed := Excess(completed, count);
      assert i < |removed| ==> removed[i] == id;
      forall j | 0 <= j < |removed| && i >= |removed| ensures removed[j] != id { DistinctAt(completed, j, i); }
    }
  }

  // ----- the states after the rename -----

  /** `latest.json` names the snapshot, which is completed and intact. */
  ghost predicate LatestIntact(env: Env, g: Files, id: Name)
  {
    && LATEST_PATH in g && env.parseLatest(g[LATEST_PATH]) == Some(id)
    && Complete(g, id) && Intact(env, g, id)
  }

  /** When a state of the pruning is good, `latest.json` naming `id`. */
  ghost predicate StoppedWell(excess: seq<Name>, n: nat, kept: set<Path>, id: Name)
    requires n < |excess|
  {
    && (InSnapshot(excess[n], "COMPLETE") in kept ==> InSnapshot(excess[n], "files.json") in kept)
    && id !in excess[..n] && (id == excess[n] ==> InSnapshot(excess[n], "COMPLETE") in kept)
  }

  /** What holds in a state after the rename of `latest.json`: the objects are good, the snapshots outside the
      excess are as they were and intact, `latest.json` names a good snapshot if that is outside the excess, and
      the state is good exactly when the removal under way has stopped well. */
  ghost predicate StateAfter(env: Env, mid: Fs, g: Fs, id: Name, excess: seq<Name>)
  {
    && ObjectsOk(env, g.files)
    && (forall x :: x !in excess ==>
          (Complete(g.files, x) <==> Complete(mid.files, x)) && (Complete(mid.files, x) ==> Intact(env, g.files, x)))
    && (id !in excess ==> LatestIntact(env, g.files, id))
    && exists n: nat, kept: set<Path> ::
         StoppedAt(mid, g, excess, n, kept) && (Inv(env, g.files) <==> StoppedWell(excess, n, kept, id))
  }

  ghost predicate AllAfter(env: Env, mid: Fs, states: seq<Fs>, id: Name, excess: seq<Name>)
  {
    forall i :: 0 <= i < |states| ==> StateAfter(env, mid, states[i], id, excess)
  }

  lemma ExcessIsCompleted(completed: seq<Name>, count: int, n: nat)
    requires Distinct(completed) && n < |Excess(completed, count)|
    ensures var excess := Excess(completed, count); excess[n] in completed && excess[n] !in excess[..n]
  {
    hide Distinct;
    var excess := Excess(completed, count);
    assert forall k :: 0 <= k < |excess| ==> excess[k] == completed[k];
    forall k | 0 <= k < n ensures excess[..n][k] != excess[n] { DistinctAt(completed, k, n); }
  }

  lemma StateIsAfter(env: Env, mid: Fs, g: Fs, plan: Plan, completed: seq<Name>, count: int)
    requires Inv(env, mid.files) && Published(env, mid.files, plan) && PlanOk(env, plan)
    requires Distinct(completed) && forall id :: id in completed <==> Complete(mid.files, id)
    requires var excess := Excess(completed, count);
      Pruning(mid.files, g.files, Names(excess)) && Stopped(mid, g, excess)
    ensures StateAfter(env, mid, g, plan.backupId, Excess(completed, count))
  {
    hide Pruning, Complete, Intact, Inv, Published, PlanOk, Distinct, ObjectsOk, InSnapshot;
    var (excess, id) := (Excess(completed, count), plan.backupId);
    hide Excess;
    LatestIsPlan(env, mid.files, plan);
    PruningKeepsRest(env, mid.files, g.files, Names(excess));
    ObjectsAndLatestStay(mid.files, g.files, Names(excess));
    assert SameAt(mid.files, g.files, LATEST_PATH);
    InvLatest(env, mid.files, id);
    NotAmong(excess, id);
    forall x ensures x in Names(excess) <==> x in excess { NotAmong(excess, x); }
    var n: nat, kept: set<Path> :| StoppedAt(mid, g, excess, n, kept);
    ExcessIsCompleted(completed, count, n);
    PruningStateIsGoodIff(env, mid, g, excess, n, kept);
    assert StoppedAt(mid, g, excess, n, kept) && (Inv(env, g.files) <==> StoppedWell(excess, n, kept, id));
  }

  lemma StatesAreAfter(env: Env, mid: Fs, states: seq<Fs>, plan: Plan, completed: seq<Name>, count: int)
    requires Inv(env, mid.files) && Published(env, mid.files, plan) && PlanOk(env, plan)
    requires Distinct(completed) && forall id :: id in completed <==> Complete(mid.files, id)
    requires AllPruning(mid.files, states, Names(Excess(completed, count)))
    requires AllStopped(mid, states, Excess(completed, count))
    ensures AllAfter(env, mid, states, plan.backupId, Excess(completed, count))
  {
    hide Pruning, Complete, Inv, Published, PlanOk, Distinct, Stopped, StateAfter, Excess;
    forall i | 0 <= i < |states| ensures StateAfter(env, mid, states[i], plan.backupId, Excess(completed, count)) {
      StateIsAfter(env, mid, states[i], plan, completed, count);
    }
  }

  /** A history around the state `mid`: good states before, states of the pruning after. */
  ghost predicate AroundMid(env: Env, base: Files, history: seq<Fs>, n: nat, mid: Fs, id: Name, excess: seq<Name>)
  {
    && n < |history| && history[n] == mid && Kept(env, base, history[..n])
    && AllPruning(mid.files, history[n + 1..], Names(excess)) && AllStopped(mid, history[n + 1..], excess)
    && (!HasPartial(id) ==> AllAfter(env, mid, history[n + 1..], id, excess))
  }

  lemma Split(env: Env, base: Files, history: seq<Fs>, before: seq<Fs>, mid: Fs, states: seq<Fs>, id: Name,
      excess: seq<Name>)
    requires history == before + [mid] + states && Kept(env, base, before)
    requires AllPruning(mid.files, states, Names(excess)) && AllStopped(mid, states, excess)
    requires !HasPartial(id) ==> AllAfter(env, mid, states, id, excess)
    ensures AroundMid(env, base, history, |before|, mid, id, excess)
  {
    hide Kept, AllPruning, AllStopped, AllAfter, HasPartial;
    assert history[..|before|] == before && history[|before| + 1..] == states;
  }

  /** What a run says of its states: without the rename of `latest.json`, all are good. With it, those before are
      good, the state `mid` after it has everything in place, only the new snapshot has become complete, and it is
      good exactly when that can be listed; the states behind it are those of the pruning. */
  ghost predicate OverlayIsSafe(env: Env, base: Files, history: seq<Fs>, now: Fs, mid: Option<Fs>, plan: Plan,
    excess: seq<Name>)
  {
    && (mid.None? ==> Kept(env, base, history) && Good(env, base, now.files))
    && (mid.Some? ==>
          && Published(env, mid.value.files, plan) && Keeps(base, mid.value.files)
          && OnlyCompletes(base, mid.value.files, plan.backupId)
          && (Inv(env, mid.value.files) <==> !HasPartial(plan.backupId))
          && exists n :: AroundMid(env, base, history, n, mid.value, plan.backupId, excess))
  }

  lemma OverlayThrows(env: Env, base: Files, history: seq<Fs>, now: Fs, plan: Plan, excess: seq<Name>)
    requires Kept(env, base, history) && Good(env, base, now.files)
    ensures OverlayIsSafe(env, base, history, now, None, plan, excess)
  {
    hide Kept, Good, Published, Keeps, OnlyCompletes, AroundMid, Inv, HasPartial;
  }

  lemma OverlayRenames(env: Env, base: Files, history: seq<Fs>, now: Fs, mid: Fs, plan: Plan, excess: seq<Name>, n: nat)
    requires Published(env, mid.files, plan) && Keeps(base, mid.files) && OnlyCompletes(base, mid.files, plan.backupId)
    requires Inv(env, mid.files) <==> !HasPartial(plan.backupId)
    requires AroundMid(env, base, history, n, mid, plan.backupId, excess)
    ensures OverlayIsSafe(env, base, history, now, Some(mid), plan, excess)
  {
    hide Kept, Good, Published, Keeps, OnlyCompletes, AroundMid, Inv, HasPartial;
  }

  /** `publishOverlay` without `--replace`. Every state of the run is described (`OverlayIsSafe`). A run that
      returns leaves exactly the retained snapshots, and a good repository exactly when the new one is among them;
      when no name ties with the new one, the disk before the run tells. */
  method PublishOverlay(env: Env, le: (Name, Name) -> bool, disk: Disk, plan: Plan, pid: string, count: int)
    returns (ok: bool, removed: seq<Name>, ghost mid: Option<Fs>, ghost completed: seq<Name>)
    requires Inv(env, disk.fs.files) && disk.history == [disk.fs] && !disk.failed && PlanOk(env, plan)
    requires Linked(env, disk.fs.files, plan.objects, 0) && TotalPreorder(le)
    modifies disk
    ensures ok <==> !disk.failed && !Exists(old(disk.fs), SnapshotDir(plan.backupId))
    ensures ok ==> mid.Some?
    ensures OverlayIsSafe(env, old(disk.fs.files), disk.history, disk.fs, mid, plan, Excess(completed, count))
    ensures mid.Some? ==> Published(env, mid.value.files, plan)
    ensures mid.Some? ==> SortedBy(le, completed) && Distinct(completed)
    ensures mid.Some? ==> forall id :: id in completed <==> Complete(mid.value.files, id)
    ensures ok ==> removed == Excess(completed, count) && disk.fs == Dropped(mid.value, Names(removed))
    ensures ok && !HasPartial(plan.backupId) ==> plan.backupId in completed
    ensures ok && !HasPartial(plan.backupId) ==>
      forall id :: Complete(disk.fs.files, id) <==> id in completed && id !in removed
    ensures ok && !HasPartial(plan.backupId) ==> (Inv(env, disk.fs.files) <==> plan.backupId !in removed)
    ensures ok && !HasPartial(plan.backupId) && NoneTies(le, old(disk.fs.files), plan.backupId) ==>
      (Inv(env, disk.fs.files) <==> Retained(le, old(disk.fs), plan.backupId, count))
  {
    hide Good, HasPartial, PlanOk, AllVerified, HasDocs, Keeps, Exists, Inv, Linked, TotalPreorder, Complete,
      SortedBy, Distinct, Dropped, Pruning, Excess, Kept, AllPruning, AllStopped, OnlyCompletes, NoneTies, Retained,
      OverlayIsSafe, AroundMid, AllAfter, Published;
    mid, removed, completed := None, [], [];
    ghost var start := disk.fs;
    ok := PublishLinked(env, disk, plan, pid);
    if !ok {
      OverlayThrows(env, start.files, disk.history, disk.fs, plan, Excess(completed, count));
      return;
    }
    mid := Some(disk.fs);
    ghost var before := disk.history[..|disk.history| - 1];
    assert disk.history == before + [disk.fs];
    ghost var states;
    ok, removed, completed, states := PrunePublicSnapshots(le, disk, count);
    ghost var (excess, id) := (Excess(completed, count), plan.backupId);
    if !HasPartial(id) { StatesAreAfter(env, mid.value, states, plan, completed, count); }
    Split(env, start.files, disk.history, before, mid.value, states, id, excess);
    OverlayRenames(env, start.files, disk.history, disk.fs, mid.value, plan, excess, |before|);
    if ok && !HasPartial(id) {
      NewIsCompleted(env, mid.value.files, plan);
      DroppedIsGoodIff(env, mid.value, Names(removed));
      LatestIsPlan(env, mid.value.files, plan);
      NotAmong(removed, id);
      forall x ensures x in Names(removed) <==> x in removed { NotAmong(removed, x); }
      if NoneTies(le, start.files, id) {
        RetainedIff(le, start, mid.value.files, completed, id, count);
      }
    }
  }

  /** A publish of an old id can remove what it has just installed: a good disk with one later snapshot, a plan
      that can be published to it, and a retention count of one. */
  lemma OlderIdIsNotRetained(le: (Name, Name) -> bool)
    requires le("a", "b") && !le("b", "a")
    ensures exists env: Env, fs: Fs, plan: Plan ::
      && Inv(env, fs.files) && PlanOk(env, plan) && Linked(env, fs.files, plan.objects, 0)
      && !HasPartial(plan.backupId) && !Exists(fs, SnapshotDir(plan.backupId))
      && NoneTies(le, fs.files, plan.backupId) && !Retained(le, fs, plan.backupId, 1)
  {
    var (env, fs, plan) := (PlainEnv(), OneSnapshotDisk(), PlainPlan());
    OneSnapshotKeys();
    PlainPlanFacts(fs);
    hide PlainEnv, OneSnapshotDisk, PlainPlan;
    OneSnapshot(env, fs);
    OneIsLater(le, fs);
    hide *;
    assert Inv(env, fs.files) && PlanOk(env, plan);
  }

  ghost function PlainEnv(): Env
  {
    Env(_ => seq(64, _ => '0'), _ => Some([]), b => if b == [] then Some("b") else Some("a"))
  }

  ghost function OneSnapshotDisk(): Fs
  {
    Fs(map[InSnapshot("b", "COMPLETE") := [], InSnapshot("b", "files.json") := []], {})
  }

  ghost function PlainPlan(): Plan { Plan("a", [], [], [], [], None, [1]) }

  lemma PlainPlanFacts(fs: Fs)
    ensures PlanOk(PlainEnv(), PlainPlan()) && Linked(PlainEnv(), fs.files, PlainPlan().objects, 0)
    ensures PlainPlan().backupId == "a" && !HasPartial("a")
  {
  }

  lemma OneSnapshotKeys()
    ensures OneSnapshotDisk().files.Keys == {InSnapshot("b", "COMPLETE"), InSnapshot("b", "files.json")}
    ensures OneSnapshotDisk().dirs == {} && forall b :: PlainEnv().parseFiles(b) == Some([])
  {
    hide InSnapshot;
  }

  lemma OneIsLater(le: (Name, Name) -> bool, fs: Fs)
    requires le("a", "b") && !le("b", "a") && fs.dirs == {}
    requires fs.files.Keys == {InSnapshot("b", "COMPLETE"), InSnapshot("b", "files.json")}
    ensures !Exists(fs, SnapshotDir("a")) && NoneTies(le, fs.files, "a") && !Retained(le, fs, "a", 1)
  {
    hide HasPartial;
    assert !HasPartial("b") by { ShortNames(); }
    UnderSnapshot("a", InSnapshot("b", "COMPLETE"));
    UnderSnapshot("a", InSnapshot("b", "files.json"));
    forall x | Complete(fs.files, x) ensures x == "b" { assert InSnapshot(x, "COMPLETE")[1] == x; }
    CompletedAreWanted(fs, "b");
    assert Complete(fs.files, "b");
    hide Complete;
    assert Later(le, fs, "a") == {"b"};
  }

  lemma ShortNames()
    ensures !HasPartial("b")
  {
  }

  lemma OneSnapshot(env: Env, fs: Fs)
    requires fs.files.Keys == {InSnapshot("b", "COMPLETE"), InSnapshot("b", "files.json")}
    requires env.parseFiles(fs.files[InSnapshot("b", "files.json")]) == Some([])
    ensures Inv(env, fs.files) && Complete(fs.files, "b")
  {
    forall sha: Sha ensures ObjectPath(sha) !in fs.files { assert |ObjectPath(sha)| == 5; }
    forall x | Complete(fs.files, x) ensures x == "b" { assert InSnapshot(x, "COMPLETE")[1] == x; }
    assert |LATEST_PATH| == 1;
    assert !HasPartial("b");
  }

  lemma NewIsCompleted(env: Env, files: Files, plan: Plan)
    requires Published(env, files, plan) && !HasPartial(plan.backupId)
    ensures Complete(files, plan.backupId)
  {
  }

  lemma LatestIsPlan(env: Env, files: Files, plan: Plan)
    requires Published(env, files, plan) && PlanOk(env, plan)
    ensures LATEST_PATH in files && env.parseLatest(files[LATEST_PATH]) == Some(plan.backupId)
  {
  }

  /** The run goes through `mid`; the states before it are good, and in those after it the new snapshot is what
      `latest.json` names, complete and intact. */
  ghost predicate LatestIntactAfter(env: Env, base: Files, history: seq<Fs>, n: nat, mid: Fs, id: Name)
  {
    && n < |history|
    && history[n] == mid
    && Kept(env, base, history[..n])
    && (forall i: nat :: n < i < |history| ==> LatestIntact(env, history[i].files, id))
  }

  /** So when the new snapshot is not among the excess, `latest.json` names a completed, intact snapshot in every
      state after the rename, also in those that a crash of the pruning leaves. */
  lemma LatestStaysGood(env: Env, base: Files, history: seq<Fs>, now: Fs, mid: Fs, plan: Plan, excess: seq<Name>)
    requires OverlayIsSafe(env, base, history, now, Some(mid), plan, excess)
    requires !HasPartial(plan.backupId) && plan.backupId !in excess
    ensures exists n: nat :: LatestIntactAfter(env, base, history, n, mid, plan.backupId)
  {
    hide Kept, Published, Keeps, OnlyCompletes, Inv, HasPartial, AllPruning, AllStopped, LatestIntact, Intact, Complete;
    var n: nat :| AroundMid(env, base, history, n, mid, plan.backupId, excess);
    forall i: nat | n < i < |history| ensures LatestIntact(env, history[i].files, plan.backupId) {
      assert history[n + 1..][i - n - 1] == history[i];
      assert StateAfter(env, mid, history[n + 1..][i - n - 1], plan.backupId, excess);
    }
    assert LatestIntactAfter(env, base, history, n, mid, plan.backupId);
  }

  lemma InvLatest(env: Env, f: Files, id: Name)
    requires Inv(env, f) && LATEST_PATH in f && env.parseLatest(f[LATEST_PATH]) == Some(id)
    ensures Complete(f, id)
  {
  }

  // ----- build, then publish -----

  /** What a finished publish leaves is not touched by removing other snapshots. */
  lemma PublishedStays(env: Env, fs: Fs, gone: set<Name>, plan: Plan)
    requires Published(env, fs.files, plan) && plan.backupId !in gone
    ensures Published(env, Dropped(fs, gone).files, plan)
  {
    hide Dropped, Pruning, HasPartial, ObjectPath, InSnapshot;
    var (f, g) := (fs.files, Dropped(fs, gone).files);
    DroppedIsPruning(fs, gone, gone);
    ObjectsAndLatestStay(f, g, gone);
    OthersStay(f, g, gone, plan.backupId);
    forall i | 0 <= i < |plan.objects| ensures SameAt(f, g, ObjectPath(plan.objects[i].sha)) { }
  }

  /** The objects that a plan does not carry are the source's, so a disk that shows those is linked. */
  lemma BuiltIsLinked(env: Env, le: (string, string) -> bool, source: Files, files: Files, template: Bytes,
      entries: seq<PlanBuilder.Entry>, built: PlanBuilder.Built)
    requires PlanBuilder.SourceOk(env, source, entries)
    requires PlanBuilder.OutputOf(env, template, le, entries, built.files)
    requires PlanBuilder.Closed(env, template, built.files, built.plan.objects)
    requires forall sha: Sha :: SameAt(source, files, ObjectPath(sha))
    ensures Linked(env, files, built.plan.objects, 0)
  {
    hide PlanBuilder.SourceOk, PlanBuilder.OutputOf, PlanBuilder.Closed, ObjectPath;
    var objects := built.plan.objects;
    forall k | 0 <= k < |objects| && objects[k].content.None?
      ensures Verified(env, files, ObjectPath(objects[k].sha), objects[k].sha, objects[k].size)
    {
      PlanBuilder.PlanIsLinked(env, le, source, template, entries, built, k);
      assert SameAt(source, files, ObjectPath(objects[k].sha));
    }
  }

  /** The two calls of `main`: when the new snapshot is not pruned, every listed file reads back with the bytes
      it should have, and the signed digests are those of the bytes on disk. */
  method BuildAndPublish(env: Env, printers: PlanBuilder.Printers, le: (string, string) -> bool,
      allowed: string -> bool, observerOk: Bytes -> bool, source: Files, request: PlanBuilder.Request,
      docs: PlanBuilder.SourceDocs, template: Bytes, signed: bool, disk: Disk, pid: string, count: int)
    returns (built: Option<PlanBuilder.Built>, ok: bool, removed: seq<Name>, ghost mid: Option<Fs>,
      ghost completed: seq<Name>)
    requires PlanBuilder.PrintersOk(env, printers) && TotalPreorder(le)
    requires Inv(env, disk.fs.files) && disk.history == [disk.fs] && !disk.failed
    requires forall sha: Sha :: SameAt(source, disk.fs.files, ObjectPath(sha))
    modifies disk
    ensures built.Some? <==> PlanBuilder.Buildable(env, allowed, observerOk, source, request, docs, template)
    ensures built.None? ==> disk.fs == old(disk.fs) && disk.history == old(disk.history) && !ok
    ensures built.Some? ==> OverlayIsSafe(
      env, old(disk.fs.files), disk.history, disk.fs, mid, built.value.plan, Excess(completed, count))
    ensures built.Some? ==>
      (ok <==> !disk.failed && !Exists(old(disk.fs), SnapshotDir(built.value.plan.backupId)))
    ensures ok && built.value.plan.backupId !in removed ==> Published(env, disk.fs.files, built.value.plan)
    ensures ok && built.value.plan.backupId !in removed && signed ==>
      built.value.payload.Some? && PlanBuilder.SignedIsOnDisk(env, disk.fs.files, built.value.payload.value)
    ensures ok && built.value.plan.backupId !in removed ==> forall i :: 0 <= i < |built.value.files| ==>
      PlanBuilder.Delivers(env, source, disk.fs.files, template, built.value.files[i])
    ensures ok && !HasPartial(built.value.plan.backupId) ==>
      NoneTies(le, old(disk.fs.files), built.value.plan.backupId) ==>
      (built.value.plan.backupId !in removed <==> Retained(le, old(disk.fs), built.value.plan.backupId, count))
  {
    hide *;
    ok, removed, mid, completed := false, [], None, [];
    var entries;
    built, entries := PlanBuilder.BuildPlan(env, printers, le, allowed, observerOk, source, request, docs, template,
      signed);
    if built.None? { return; }
    BuiltIsLinked(env, le, source, disk.fs.files, template, entries, built.value);
    ok, removed, mid, completed := PublishOverlay(env, le, disk, built.value.plan, pid, count);
    if ok && built.value.plan.backupId !in removed {
      NotAmong(removed, built.value.plan.backupId);
      PublishedStays(env, mid.value, Names(removed), built.value.plan);
      if signed { PlanBuilder.PublishedIsSigned(env, disk.fs.files, built.value.plan, built.value.payload.value); }
      forall i | 0 <= i < |built.value.files|
        ensures PlanBuilder.Delivers(env, source, disk.fs.files, template, built.value.files[i])
      {
        PlanBuilder.PublishedDelivers(env, le, source, disk.fs.files, template, entries, built.value, i);
      }
    }
  }

  lemma NotAmong(s: seq<Name>, x: Name)
    ensures x in Names(s) <==> x in s
  {
  }
}
