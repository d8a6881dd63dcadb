/**
 `publish`: objects first, then the snapshot by rename, then `latest.json` by rename. A crash or an I/O
 failure can hit anywhere; the contracts say what every state on the way keeps.

 Two things are kept from the first step to the last but one. The repository is good: objects hash to
 their names, completed snapshots have all their objects, and `latest.json` is absent or names a completed
 snapshot. And nothing that a reader could see before is gone: `latest.json` is the old one, the files of
 all public snapshots are the same, and no object is missing. `Good` says both of one state, relative to
 the files at the start, and `Kept` says it of a whole history.

 Steps that no reader sees (temporary files, partial objects, the partial snapshot directory) keep `Good`
 because they change no public path. The steps a reader sees are three renames: of a verified object, of
 the finished snapshot directory to a free name, and of `latest.json.partial`, the last step of all.

 Methods return whether they got through; where the source throws, they return false. The flag `failed` of
 the disk says whether a step failed, so a contract can say that nothing else makes a publish fail but a
 snapshot name that is taken.
 */
module Publish {
  import opened Basics
  import opened FileSystem
  import opened Repository

  /** An object to publish: its bytes, or None to copy it from the source repository. */
  datatype PlanObject = PlanObject(sha: Sha, size: nat, content: Option<Bytes>)

  /** A plan, with its JSON documents as the bytes that will be written. */
  datatype Plan = Plan(
    backupId: Name, objects: seq<PlanObject>,
    manifest: Bytes, fileList: Bytes, metadata: Bytes, signature: Option<Bytes>, latest: Bytes)

  ghost predicate HasObject(objects: seq<PlanObject>, sha: Sha)
  {
    exists i :: 0 <= i < |objects| && objects[i].sha == sha
  }

  ghost predicate AllHaveObjects(objects: seq<PlanObject>, shas: seq<Sha>)
  {
    forall k :: 0 <= k < |shas| ==> HasObject(objects, shas[k])
  }

  /** The bytes an object should have. */
  ghost predicate Fits(env: Env, content: Bytes, sha: Sha, size: nat)
  {
    |content| == size && env.hash(content) == sha
  }

  /** The objects that carry their bytes carry the right ones. */
  ghost predicate ContentFits(env: Env, o: PlanObject)
  {
    o.content.Some? ==> Fits(env, o.content.value, o.sha, o.size)
  }

  /** What `buildPlan` guarantees: each listed file has its object, one object per hash, the bytes that
      come with an object are the right ones, and the new `latest.json` names the snapshot. */
  ghost predicate PlanOk(env: Env, plan: Plan)
  {
    && env.parseFiles(plan.fileList).Some?
    && AllHaveObjects(plan.objects, env.parseFiles(plan.fileList).value)
    && (forall i, j :: 0 <= i < j < |plan.objects| ==> plan.objects[i].sha != plan.objects[j].sha)
    && (forall i :: 0 <= i < |plan.objects| ==> ContentFits(env, plan.objects[i]))
    && env.parseLatest(plan.latest) == Some(plan.backupId)
  }

  /** Nothing a reader could see before is gone: every file of a public snapshot is the same, and every
      object is still there. */
  ghost predicate Keeps(base: Files, g: Files)
  {
    forall p :: Public(p) && p != LATEST_PATH && p in base ==> p in g && (IsObject(p) || g[p] == base[p])
  }

  ghost predicate Grows(base: Files, g: Files)
  {
    SameAt(base, g, LATEST_PATH) && Keeps(base, g)
  }

  ghost predicate Good(env: Env, base: Files, g: Files)
  {
    Inv(env, g) && Grows(base, g)
  }

  /** Every state of a history is good. */
  ghost predicate Kept(env: Env, base: Files, history: seq<Fs>)
  {
    forall i :: 0 <= i < |history| ==> Good(env, base, history[i].files)
  }

  // ----- steps a reader does not see -----

  lemma TornSame(fs: Fs, p: Path, left: Option<Bytes>)
    ensures SameExcept(fs.files, Torn(fs, p, left).files, {p})
  {
  }

  lemma ExceptScratch(env: Env, base: Files, f: Files, g: Files, changed: set<Path>)
    requires SameExcept(f, g, changed) && Good(env, base, f) && forall p :: p in changed ==> !Public(p)
    ensures Good(env, base, g)
  {
    hide Public, Good;
    assert forall p :: Public(p) ==> p !in changed;
    GoodSame(env, base, f, g);
  }

  lemma GoodSame(env: Env, base: Files, f: Files, g: Files)
    requires SamePublic(f, g) && Good(env, base, f)
    ensures Good(env, base, g)
  {
    hide Inv, InPublicSnapshot, IsObject;
    InvSame(env, f, g);
    assert Public(LATEST_PATH) && SameAt(f, g, LATEST_PATH);
    forall p | Public(p) && p != LATEST_PATH && p in base ensures p in g && (IsObject(p) || g[p] == base[p]) {
      assert SameAt(f, g, p);
    }
  }

  lemma GrowsByObject(base: Files, f: Files, g: Files, scratch: Path, added: Path)
    requires Grows(base, f) && SameExcept(f, g, {scratch, added}) && !Public(scratch) && IsObject(added) && added in g
    ensures Grows(base, g)
  {
    hide InPublicSnapshot, IsObject;
    assert Public(LATEST_PATH) && |added| == 5 by { assert IsObject(added); ObjectLength(added); }
    assert SameAt(f, g, LATEST_PATH);
    forall p | Public(p) && p != LATEST_PATH && p in base ensures p in g && (IsObject(p) || g[p] == base[p]) {
      assert p != added ==> SameAt(f, g, p);
    }
  }

  lemma ObjectLength(p: Path)
    requires IsObject(p)
    ensures |p| == 5
  {
  }

  lemma GrowsBySnapshot(base: Files, f: Files, g: Files, partial: Name, id: Name)
    requires Grows(base, f) && SameOutsideBoth(partial, id, f, g) && HasPartial(partial)
    requires forall p :: Under(SnapshotDir(id), p) ==> p !in f
    ensures Grows(base, g)
  {
    hide HasPartial;
    UnderSnapshot(partial, LATEST_PATH);
    UnderSnapshot(id, LATEST_PATH);
    assert SameAt(f, g, LATEST_PATH);
    forall p | Public(p) && p != LATEST_PATH && p in base ensures p in g && (IsObject(p) || g[p] == base[p]) {
      UnderSnapshot(partial, p);
      UnderSnapshot(id, p);
      assert p in f;
      assert SameAt(f, g, p);
    }
  }

  lemma SameChain(f: Files, g: Files, h: Files, a: set<Path>, b: set<Path>)
    requires SameExcept(f, g, a) && SameExcept(g, h, b)
    ensures SameExcept(f, h, a + b)
  {
    forall p | p !in a + b ensures SameAt(f, h, p) {
      assert SameAt(f, g, p) && SameAt(g, h, p);
    }
  }

  method ScratchWrite(env: Env, ghost base: Files, disk: Disk, p: Path, content: Bytes) returns (ok: bool)
    requires !Public(p) && Good(env, base, disk.fs.files) && Kept(env, base, disk.history)
    modifies disk
    ensures Good(env, base, disk.fs.files) && Kept(env, base, disk.history)
    ensures SameExcept(old(disk.fs.files), disk.fs.files, {p}) && disk.fs.dirs == old(disk.fs.dirs)
    ensures ok ==> p in disk.fs.files && disk.fs.files[p] == content
    ensures disk.failed == (old(disk.failed) || !ok)
  {
    hide Public, Good;
    ghost var f := disk.fs;
    ghost var left;
    ok, left := disk.WriteFile(p, content);
    TornSame(f, p, left);
    ExceptScratch(env, base, f.files, Torn(f, p, left).files, {p});
    ExceptScratch(env, base, f.files, disk.fs.files, {p});
  }

  method ScratchMkdir(env: Env, ghost base: Files, disk: Disk, p: Path) returns (ok: bool)
    requires Good(env, base, disk.fs.files) && Kept(env, base, disk.history)
    modifies disk
    ensures Good(env, base, disk.fs.files) && Kept(env, base, disk.history)
    ensures disk.fs.files == old(disk.fs.files)
    ensures old(disk.fs.dirs) <= disk.fs.dirs <= old(disk.fs.dirs) + Prefixes(p)
    ensures disk.failed == (old(disk.failed) || !ok)
  {
    hide Good;
    ok := disk.Mkdir(p);
  }

  method ScratchRename(env: Env, ghost base: Files, disk: Disk, a: Path, b: Path) returns (ok: bool)
    requires !Public(a) && !Public(b) && a != b && a in disk.fs.files && Good(env, base, disk.fs.files)
    requires Kept(env, base, disk.history)
    modifies disk
    ensures Good(env, base, disk.fs.files) && Kept(env, base, disk.history)
    ensures SameExcept(old(disk.fs.files), disk.fs.files, {a, b}) && disk.fs.dirs == old(disk.fs.dirs)
    ensures ok ==> b in disk.fs.files && disk.fs.files[b] == old(disk.fs.files)[a]
    ensures disk.failed == (old(disk.failed) || !ok)
  {
    hide Public, Good;
    ghost var f := disk.fs;
    ok := disk.Rename(a, b);
    ExceptScratch(env, base, f.files, disk.fs.files, {a, b});
  }

  /** `rmSync` of a partial directory. */
  method ScratchRemove(env: Env, ghost base: Files, disk: Disk, partial: Name) returns (ok: bool)
    requires HasPartial(partial) && Good(env, base, disk.fs.files) && Kept(env, base, disk.history)
    modifies disk
    ensures Good(env, base, disk.fs.files) && Kept(env, base, disk.history)
    ensures SameOutside(partial, old(disk.fs.files), disk.fs.files)
    ensures disk.fs.dirs <= old(disk.fs.dirs)
    ensures disk.failed == (old(disk.failed) || !ok)
  {
    hide Good;
    ghost var f := disk.fs;
    ghost var kept;
    ok, kept := disk.Remove(SnapshotDir(partial));
    PrunedSame(env, base, f, partial, kept);
    PrunedSame(env, base, f, partial, {});
  }

  lemma PrunedSame(env: Env, base: Files, fs: Fs, partial: Name, kept: set<Path>)
    requires HasPartial(partial) && Good(env, base, fs.files)
    ensures Good(env, base, Pruned(fs, SnapshotDir(partial), kept).files)
    ensures SameOutside(partial, fs.files, Pruned(fs, SnapshotDir(partial), kept).files)
  {
    hide Inv, HasPartial, Grows;
    var g := Pruned(fs, SnapshotDir(partial), kept).files;
    forall p | Public(p) ensures SameAt(fs.files, g, p) {
      UnderSnapshot(partial, p);
      assert p == LATEST_PATH || IsObject(p) || p[1] != partial;
    }
    GoodSame(env, base, fs.files, g);
  }

  /** `writeJsonAtomic` and `writeBytesAtomic`. */
  method WriteAtomic(env: Env, ghost base: Files, disk: Disk, dir: Path, name: Name, content: Bytes) returns (ok: bool)
    requires !Public(dir + [name]) && !Public(dir + [name + ".tmp"])
    requires Good(env, base, disk.fs.files) && Kept(env, base, disk.history)
    modifies disk
    ensures Good(env, base, disk.fs.files) && Kept(env, base, disk.history)
    ensures SameExcept(old(disk.fs.files), disk.fs.files, {dir + [name], dir + [name + ".tmp"]})
    ensures disk.fs.dirs <= old(disk.fs.dirs) + Prefixes(dir)
    ensures ok ==> dir + [name] in disk.fs.files && disk.fs.files[dir + [name]] == content
    ensures disk.failed == (old(disk.failed) || !ok)
  {
    hide Public, Good;
    var (file, tmp) := (dir + [name], dir + [name + ".tmp"]);
    assert file[|dir|] != tmp[|dir|];
    ok := ScratchMkdir(env, base, disk, dir);
    if !ok { return; }
    ghost var f := disk.fs.files;
    ok := ScratchWrite(env, base, disk, tmp, content);
    if !ok { return; }
    ghost var g := disk.fs.files;
    ok := ScratchRename(env, base, disk, tmp, file);
    SameChain(f, g, disk.fs.files, {tmp}, {tmp, file});
  }

  // ----- objects -----

  /** `verifyExistingObject` */
  ghost predicate Verified(env: Env, files: Files, p: Path, sha: Sha, size: nat)
  {
    p in files && Fits(env, files[p], sha, size)
  }

  method VerifyExisting(env: Env, disk: Disk, p: Path, sha: Sha, size: nat) returns (ok: bool)
    ensures ok <==> Verified(env, disk.fs.files, p, sha, size)
  {
    ok := p in disk.fs.files && |disk.fs.files[p]| == size && env.hash(disk.fs.files[p]) == sha;
  }

  /** Directories are added, but none that a snapshot would have. */
  ghost predicate DirsGrow(before: set<Path>, after: set<Path>)
  {
    before <= after && forall id :: SnapshotDir(id) in after ==> SnapshotDir(id) in before
  }

  lemma NoSnapshotAbove(made: Path)
    requires |made| < 2 || made[0] != "snapshots"
    ensures forall id :: SnapshotDir(id) !in Prefixes(made)
  {
    forall id, i | 0 <= i <= |made| ensures made[..i] != SnapshotDir(id) {
      assert |made[..i]| == 2 ==> made[..i][0] == made[0] && SnapshotDir(id)[0] == "snapshots";
    }
  }

  lemma PublishStep(env: Env, base: Files, fs: Fs, sha: Sha)
    requires Good(env, base, fs.files)
    requires ObjectPartial(sha) in fs.files && env.hash(fs.files[ObjectPartial(sha)]) == sha
    ensures var g := RenameFile(fs, ObjectPartial(sha), ObjectPath(sha)).files;
      Good(env, base, g) && g[ObjectPath(sha)] == fs.files[ObjectPartial(sha)]
  {
    hide Inv, RenameFile, Grows, Public;
    ObjectStep(env, fs, sha);
    ObjectsArePublic(sha);
    assert IsObject(ObjectPath(sha)) by { assert ObjectPath(sha)[4] == sha; }
    GrowsByObject(base, fs.files, RenameFile(fs, ObjectPartial(sha), ObjectPath(sha)).files, ObjectPartial(sha),
      ObjectPath(sha));
  }

  /** `publishObject` */
  method PublishObject(env: Env, ghost base: Files, disk: Disk, o: PlanObject) returns (ok: bool)
    requires Good(env, base, disk.fs.files) && Kept(env, base, disk.history) && ContentFits(env, o)
    modifies disk
    ensures Good(env, base, disk.fs.files) && Kept(env, base, disk.history)
    ensures SameExcept(old(disk.fs.files), disk.fs.files, {ObjectPartial(o.sha), ObjectPath(o.sha)})
    ensures ObjectPath(o.sha) in old(disk.fs.files) ==> ObjectPath(o.sha) in disk.fs.files
    ensures DirsGrow(old(disk.fs.dirs), disk.fs.dirs)
    ensures ok ==> Verified(env, disk.fs.files, ObjectPath(o.sha), o.sha, o.size)
    ensures disk.failed == (old(disk.failed) || !ok)
  {
    hide Public, Good;
    var (partial, destination) := (ObjectPartial(o.sha), ObjectPath(o.sha));
    ObjectsArePublic(o.sha);
    assert partial != destination;
    ok := VerifyExisting(env, disk, destination, o.sha, o.size);
    if ok { return; }
    ok := ScratchMkdir(env, base, disk, destination[..4]);
    NoSnapshotAbove(destination[..4]);
    if !ok { return; }
    var content := o.content;
    if content.None? {
      content := disk.Fetch(iset b: Bytes | Fits(env, b, o.sha, o.size));
      if content.None? { return false; }
    }
    ghost var before := disk.fs.files;
    ok := ScratchWrite(env, base, disk, partial, content.value);
    assert SameAt(before, disk.fs.files, destination);
    if !ok { return; }
    var verified := VerifyExisting(env, disk, partial, o.sha, o.size);
    if !verified {
      ghost var g := disk.fs.files;
      var removed := disk.Unlink(partial);
      ExceptScratch(env, base, g, disk.fs.files, {partial});
      return false;
    }
    ghost var f := disk.fs;
    PublishStep(env, base, f, o.sha);
    ok := disk.Rename(partial, destination);
  }

  ghost predicate SameOutsideObjects(f: Files, g: Files)
  {
    forall p :: p == [] || p[0] != "objects" ==> SameAt(f, g, p)
  }

  /** No object disappears. */
  ghost predicate ObjectsStay(f: Files, g: Files)
  {
    forall sha: Sha :: ObjectPath(sha) in f ==> ObjectPath(sha) in g
  }

  ghost predicate AllVerified(env: Env, files: Files, objects: seq<PlanObject>, n: nat)
    requires n <= |objects|
  {
    forall i :: 0 <= i < n ==> Verified(env, files, ObjectPath(objects[i].sha), objects[i].sha, objects[i].size)
  }

  lemma OtherObjects(f: Files, g: Files, changed: Sha)
    requires SameExcept(f, g, {ObjectPartial(changed), ObjectPath(changed)})
    ensures forall sha: Sha :: sha != changed ==> SameAt(f, g, ObjectPath(sha))
  {
    forall sha: Sha ensures sha != changed ==> SameAt(f, g, ObjectPath(sha)) {
      ObjectsArePublic(sha);
      ObjectsArePublic(changed);
      if sha != changed { assert ObjectPath(sha)[4] != ObjectPath(changed)[4]; }
    }
  }

  lemma OneMoreObject(env: Env, f: Files, g: Files, objects: seq<PlanObject>, n: nat)
    requires n < |objects| && forall i, j :: 0 <= i < j < |objects| ==> objects[i].sha != objects[j].sha
    requires SameExcept(f, g, {ObjectPartial(objects[n].sha), ObjectPath(objects[n].sha)})
    requires ObjectPath(objects[n].sha) in f ==> ObjectPath(objects[n].sha) in g
    ensures SameOutsideObjects(f, g) && ObjectsStay(f, g)
    ensures AllVerified(env, f, objects, n) ==> AllVerified(env, g, objects, n)
  {
    var o := objects[n];
    var changed := {ObjectPartial(o.sha), ObjectPath(o.sha)};
    forall p | p == [] || p[0] != "objects" ensures SameAt(f, g, p) {
      assert ObjectPartial(o.sha)[0] == "objects" && ObjectPath(o.sha)[0] == "objects";
    }
    OtherObjects(f, g, o.sha);
    if AllVerified(env, f, objects, n) {
      forall i | 0 <= i < n ensures Verified(env, g, ObjectPath(objects[i].sha), objects[i].sha, objects[i].size) {
        assert SameAt(f, g, ObjectPath(objects[i].sha));
      }
    }
  }

  lemma OutsideChain(f: Files, g: Files, h: Files)
    requires SameOutsideObjects(f, g) && SameOutsideObjects(g, h)
    ensures SameOutsideObjects(f, h)
  {
    forall p | p == [] || p[0] != "objects" ensures SameAt(f, h, p) { assert SameAt(f, g, p) && SameAt(g, h, p); }
  }

  /** The first loop of `publish`. */
  method PublishObjects(env: Env, ghost base: Files, disk: Disk, objects: seq<PlanObject>) returns (ok: bool)
    requires Good(env, base, disk.fs.files) && Kept(env, base, disk.history)
    requires forall i, j :: 0 <= i < j < |objects| ==> objects[i].sha != objects[j].sha
    requires forall i :: 0 <= i < |objects| ==> ContentFits(env, objects[i])
    modifies disk
    ensures Good(env, base, disk.fs.files) && Kept(env, base, disk.history)
    ensures SameOutsideObjects(old(disk.fs.files), disk.fs.files) && ObjectsStay(old(disk.fs.files), disk.fs.files)
    ensures DirsGrow(old(disk.fs.dirs), disk.fs.dirs)
    ensures ok ==> AllVerified(env, disk.fs.files, objects, |objects|)
    ensures disk.failed == (old(disk.failed) || !ok)
  {
    hide Good;
    for i := 0 to |objects|
      invariant Good(env, base, disk.fs.files) && Kept(env, base, disk.history)
      invariant SameOutsideObjects(old(disk.fs.files), disk.fs.files) && ObjectsStay(old(disk.fs.files), disk.fs.files)
      invariant DirsGrow(old(disk.fs.dirs), disk.fs.dirs)
      invariant disk.failed == old(disk.failed)
      invariant AllVerified(env, disk.fs.files, objects, i)
    {
      ghost var f := disk.fs.files;
      var published := PublishObject(env, base, disk, objects[i]);
      OneMoreObject(env, f, disk.fs.files, objects, i);
      OutsideChain(old(disk.fs.files), f, disk.fs.files);
      if !published { return false; }
    }
    return true;
  }

  // ----- the snapshot -----

  ghost predicate HasDoc(files: Files, id: Name, name: Name, content: Bytes)
  {
    InSnapshot(id, name) in files && files[InSnapshot(id, name)] == content
  }

  const COMPLETE_MARK: Bytes := [0x63, 0x6f, 0x6d, 0x70, 0x6c, 0x65, 0x74, 0x65, 0x0a]  // complete\n

  /** Everything `publish` writes into the snapshot directory. */
  ghost predicate HasDocs(files: Files, id: Name, plan: Plan)
  {
    && HasListing(files, id, plan)
    && (plan.signature.Some? ==> HasDoc(files, id, "public-bootstrap-signature.json", plan.signature.value))
    && HasDoc(files, id, "COMPLETE", COMPLETE_MARK)
  }

  /** Nothing outside the directory of `partial` differs. */
  ghost predicate SameOutside(partial: Name, f: Files, g: Files)
  {
    forall p :: !Under(SnapshotDir(partial), p) ==> SameAt(f, g, p)
  }

  lemma OutsidePartialChain(partial: Name, f: Files, g: Files, h: Files)
    requires SameOutside(partial, f, g) && SameOutside(partial, g, h)
    ensures SameOutside(partial, f, h)
  {
    forall p | !Under(SnapshotDir(partial), p) ensures SameAt(f, h, p) { assert SameAt(f, g, p) && SameAt(g, h, p); }
  }

  /** Writing one document: the others stay. */
  method WriteDoc(env: Env, ghost base: Files, disk: Disk, partial: Name, name: Name, content: Bytes) returns (ok: bool)
    requires HasPartial(partial) && Good(env, base, disk.fs.files) && Kept(env, base, disk.history)
    modifies disk
    ensures Good(env, base, disk.fs.files) && Kept(env, base, disk.history)
    ensures SameOutside(partial, old(disk.fs.files), disk.fs.files)
    ensures forall other :: other != name && other != name + ".tmp" ==>
      SameAt(old(disk.fs.files), disk.fs.files, InSnapshot(partial, other))
    ensures disk.fs.dirs <= old(disk.fs.dirs) + Prefixes(SnapshotDir(partial))
    ensures ok ==> HasDoc(disk.fs.files, partial, name, content)
    ensures disk.failed == (old(disk.failed) || !ok)
  {
    hide Good, HasPartial, Public;
    var dir := SnapshotDir(partial);
    SnapshotsArePublic(partial, name);
    SnapshotsArePublic(partial, name + ".tmp");
    assert dir + [name] == InSnapshot(partial, name) && dir + [name + ".tmp"] == InSnapshot(partial, name + ".tmp");
    ghost var f := disk.fs.files;
    ok := WriteAtomic(env, base, disk, dir, name, content);
    DocSame(partial, name, f, disk.fs.files);
  }

  lemma DocSame(partial: Name, name: Name, f: Files, g: Files)
    requires SameExcept(f, g, {InSnapshot(partial, name), InSnapshot(partial, name + ".tmp")})
    ensures SameOutside(partial, f, g)
    ensures forall other :: other != name && other != name + ".tmp" ==> SameAt(f, g, InSnapshot(partial, other))
  {
    forall p | !Under(SnapshotDir(partial), p) ensures SameAt(f, g, p) {
      UnderSnapshot(partial, p);
      assert InSnapshot(partial, name)[0] == InSnapshot(partial, name + ".tmp")[0] == "snapshots";
    }
    forall other | other != name && other != name + ".tmp" ensures SameAt(f, g, InSnapshot(partial, other)) {
      assert InSnapshot(partial, other)[2] == other;
    }
  }

  lemma DocStays(f: Files, g: Files, partial: Name, name: Name, content: Bytes)
    requires HasDoc(f, partial, name, content) && SameAt(f, g, InSnapshot(partial, name))
    ensures HasDoc(g, partial, name, content)
  {
  }

  ghost predicate HasListing(files: Files, id: Name, plan: Plan)
  {
    && HasDoc(files, id, "manifest.json", plan.manifest)
    && HasDoc(files, id, "files.json", plan.fileList)
    && HasDoc(files, id, "public-bootstrap.json", plan.metadata)
  }

  method WriteListing(env: Env, ghost base: Files, disk: Disk, partial: Name, plan: Plan) returns (ok: bool)
    requires HasPartial(partial) && Good(env, base, disk.fs.files) && Kept(env, base, disk.history)
    modifies disk
    ensures Good(env, base, disk.fs.files) && Kept(env, base, disk.history)
    ensures SameOutside(partial, old(disk.fs.files), disk.fs.files)
    ensures disk.fs.dirs <= old(disk.fs.dirs) + Prefixes(SnapshotDir(partial))
    ensures ok ==> HasListing(disk.fs.files, partial, plan)
    ensures disk.failed == (old(disk.failed) || !ok)
  {
    hide Good, HasPartial, HasDoc, SameAt, Prefixes;
    ghost var f0 := disk.fs.files;
    ok := WriteDoc(env, base, disk, partial, "manifest.json", plan.manifest);
    ghost var f1 := disk.fs.files;
    if !ok { return; }
    ok := WriteDoc(env, base, disk, partial, "files.json", plan.fileList);
    ghost var f2 := disk.fs.files;
    OutsidePartialChain(partial, f0, f1, f2);
    if !ok { return; }
    DocStays(f1, f2, partial, "manifest.json", plan.manifest);
    ok := WriteDoc(env, base, disk, partial, "public-bootstrap.json", plan.metadata);
    OutsidePartialChain(partial, f0, f2, disk.fs.files);
    if !ok { return; }
    DocStays(f2, disk.fs.files, partial, "manifest.json", plan.manifest);
    DocStays(f2, disk.fs.files, partial, "files.json", plan.fileList);
  }

  lemma ListingStays(f: Files, g: Files, partial: Name, name: Name, plan: Plan)
    requires HasListing(f, partial, plan)
    requires name == "public-bootstrap-signature.json" || name == "COMPLETE"
    requires forall other :: other != name && other != name + ".tmp" ==> SameAt(f, g, InSnapshot(partial, other))
    ensures HasListing(g, partial, plan)
  {
    hide HasDoc, SameAt;
    DocStays(f, g, partial, "manifest.json", plan.manifest);
    DocStays(f, g, partial, "files.json", plan.fileList);
    DocStays(f, g, partial, "public-bootstrap.json", plan.metadata);
  }

  /** The documents, in order; COMPLETE comes last. */
  method WriteDocs(env: Env, ghost base: Files, disk: Disk, partial: Name, plan: Plan) returns (ok: bool)
    requires HasPartial(partial) && Good(env, base, disk.fs.files) && Kept(env, base, disk.history)
    modifies disk
    ensures Good(env, base, disk.fs.files) && Kept(env, base, disk.history)
    ensures SameOutside(partial, old(disk.fs.files), disk.fs.files)
    ensures disk.fs.dirs <= old(disk.fs.dirs) + Prefixes(SnapshotDir(partial))
    ensures ok ==> HasDocs(disk.fs.files, partial, plan)
    ensures disk.failed == (old(disk.failed) || !ok)
  {
    hide Good, HasPartial, HasDoc, SameAt, Prefixes;
    ghost var f0 := disk.fs.files;
    ok := WriteListing(env, base, disk, partial, plan);
    if !ok { return; }
    ghost var f1 := disk.fs.files;
    if plan.signature.Some? {
      ok := WriteDoc(env, base, disk, partial, "public-bootstrap-signature.json", plan.signature.value);
      OutsidePartialChain(partial, f0, f1, disk.fs.files);
      if !ok { return; }
      ListingStays(f1, disk.fs.files, partial, "public-bootstrap-signature.json", plan);
    }
    ghost var f2 := disk.fs.files;
    ok := WriteDoc(env, base, disk, partial, "COMPLETE", COMPLETE_MARK);
    OutsidePartialChain(partial, f0, f2, disk.fs.files);
    if !ok { return; }
    ListingStays(f2, disk.fs.files, partial, "COMPLETE", plan);
    if plan.signature.Some? {
      DocStays(f2, disk.fs.files, partial, "public-bootstrap-signature.json", plan.signature.value);
    }
  }

  lemma AboveSnapshot(made: Path, partial: Name, id: Name)
    requires Under(made, SnapshotDir(partial)) && partial != id
    ensures SnapshotDir(id) !in Prefixes(made)
  {
    forall i | 0 <= i <= |made| ensures made[..i] != SnapshotDir(id) {
      assert |made[..i]| == 2 ==> made[..i][1] == SnapshotDir(partial)[1] == partial;
      assert SnapshotDir(id)[1] == id;
    }
  }

  lemma FreeStays(fs: Fs, gs: Fs, partial: Name, id: Name, made: Path)
    requires !Exists(fs, SnapshotDir(id)) && partial != id
    requires SameOutside(partial, fs.files, gs.files)
    requires gs.dirs <= fs.dirs + Prefixes(made) && Under(made, SnapshotDir(partial))
    ensures !Exists(gs, SnapshotDir(id))
  {
    hide Prefixes;
    AboveSnapshot(made, partial, id);
    forall q | q in gs.files ensures !Under(SnapshotDir(id), q) {
      UnderSnapshot(id, q);
      UnderSnapshot(partial, q);
      assert Under(SnapshotDir(id), q) ==> SameAt(fs.files, gs.files, q);
    }
  }

  /** The snapshot directory name used while writing. */
  function PartialName(id: Name, pid: string): (r: Name)
    ensures HasPartial(r) && r != id
  {
    var r := id + ".partial-" + pid;
    assert r[|id|..|id| + 8] == ".partial";
    assert PartialAt(r, |id|);
    r
  }

  /** Nothing outside the two directories differs. */
  ghost predicate SameOutsideBoth(partial: Name, id: Name, f: Files, g: Files)
  {
    forall p :: !Under(SnapshotDir(partial), p) && !Under(SnapshotDir(id), p) ==> SameAt(f, g, p)
  }

  lemma OutsideBothChain(partial: Name, id: Name, f: Files, g: Files, h: Files)
    requires SameOutside(partial, f, g) && SameOutsideBoth(partial, id, g, h)
    ensures SameOutsideBoth(partial, id, f, h)
  {
    forall p | !Under(SnapshotDir(partial), p) && !Under(SnapshotDir(id), p) ensures SameAt(f, h, p) {
      assert SameAt(f, g, p) && SameAt(g, h, p);
    }
  }

  lemma Install(env: Env, base: Files, fs: Fs, gs: Fs, plan: Plan, partial: Name)
    requires HasPartial(partial) && partial != plan.backupId && PlanOk(env, plan)
    requires Good(env, base, gs.files) && HasDocs(gs.files, partial, plan) && SameOutside(partial, fs.files, gs.files)
    requires gs.dirs <= fs.dirs + Prefixes(SnapshotDir(partial)) && !Exists(fs, SnapshotDir(plan.backupId))
    requires forall i :: 0 <= i < |plan.objects| ==> ObjectPath(plan.objects[i].sha) in fs.files
    ensures var h := RenameDir(gs, SnapshotDir(partial), SnapshotDir(plan.backupId)).files;
      Good(env, base, h) && HasDocs(h, plan.backupId, plan) && SameOutsideBoth(partial, plan.backupId, fs.files, h)
  {
    hide Inv, HasPartial, PlanOk, HasDocs, Exists, RenameDir, SameAt, ObjectPath, Intact, Grows;
    var h := RenameDir(gs, SnapshotDir(partial), SnapshotDir(plan.backupId)).files;
    FreeStays(fs, gs, partial, plan.backupId, SnapshotDir(partial));
    PartialIsIntact(env, fs.files, gs.files, plan, partial);
    SnapshotStep(env, gs, partial, plan.backupId);
    MovedDocs(gs.files, h, plan, partial);
    OutsideBothFrom(partial, plan.backupId, gs.files, h);
    OutsideBothChain(partial, plan.backupId, fs.files, gs.files, h);
    NothingUnder(gs, SnapshotDir(plan.backupId));
    GrowsBySnapshot(base, gs.files, h, partial, plan.backupId);
  }

  lemma OutsideBothFrom(partial: Name, id: Name, f: Files, g: Files)
    requires forall p :: !Under(SnapshotDir(partial), p) && !Under(SnapshotDir(id), p) ==> SameAt(f, g, p)
    ensures SameOutsideBoth(partial, id, f, g)
  {
  }

  lemma NothingUnder(fs: Fs, dir: Path)
    requires !Exists(fs, dir)
    ensures forall p :: Under(dir, p) ==> p !in fs.files
  {
  }

  /** The `try` block: documents, then the rename; any failure removes the partial directory. */
  method WriteAndRename(env: Env, ghost base: Files, disk: Disk, plan: Plan, partial: Name) returns (ok: bool)
    requires HasPartial(partial) && partial != plan.backupId
    requires Good(env, base, disk.fs.files) && Kept(env, base, disk.history) && PlanOk(env, plan)
    requires forall i :: 0 <= i < |plan.objects| ==> ObjectPath(plan.objects[i].sha) in disk.fs.files
    requires !Exists(disk.fs, SnapshotDir(plan.backupId))
    modifies disk
    ensures Good(env, base, disk.fs.files) && Kept(env, base, disk.history)
    ensures !ok ==> SameOutside(partial, old(disk.fs.files), disk.fs.files)
    ensures ok ==> HasDocs(disk.fs.files, plan.backupId, plan)
    ensures ok ==> SameOutsideBoth(partial, plan.backupId, old(disk.fs.files), disk.fs.files)
    ensures disk.failed == (old(disk.failed) || !ok)
  {
    hide Good, HasPartial, PlanOk, HasDocs, Exists, RenameDir, SameAt, ObjectPath, SameOutside, SameOutsideBoth,
      Prefixes;
    ghost var f := disk.fs;
    ok := WriteDocs(env, base, disk, partial, plan);
    ghost var g := disk.fs;
    if ok {
      Install(env, base, f, g, plan, partial);
      ok := disk.RenameTree(SnapshotDir(partial), SnapshotDir(plan.backupId));
    }
    if !ok {
      ghost var h := disk.fs.files;
      var removed := ScratchRemove(env, base, disk, partial);
      OutsidePartialChain(partial, f.files, h, disk.fs.files);
    }
  }

  lemma PartialIsIntact(env: Env, f: Files, g: Files, plan: Plan, partial: Name)
    requires PlanOk(env, plan) && HasDocs(g, partial, plan) && SameOutside(partial, f, g)
    requires forall i :: 0 <= i < |plan.objects| ==> ObjectPath(plan.objects[i].sha) in f
    ensures Intact(env, g, partial)
  {
    hide ObjectPath, HasPartial;
    var shas := env.parseFiles(plan.fileList).value;
    forall k | 0 <= k < |shas| ensures ObjectPath(shas[k]) in g {
      assert HasObject(plan.objects, shas[k]);
      ObjectOutside(partial, shas[k]);
      assert SameAt(f, g, ObjectPath(shas[k]));
    }
  }

  lemma ObjectOutside(partial: Name, sha: Sha)
    ensures !Under(SnapshotDir(partial), ObjectPath(sha))
  {
    UnderSnapshot(partial, ObjectPath(sha));
    assert ObjectPath(sha)[0] == "objects";
  }

  lemma MovedDocs(f: Files, g: Files, plan: Plan, partial: Name)
    requires HasDocs(f, partial, plan)
    requires forall name :: InSnapshot(partial, name) in f ==>
      InSnapshot(plan.backupId, name) in g && g[InSnapshot(plan.backupId, name)] == f[InSnapshot(partial, name)]
    ensures HasDocs(g, plan.backupId, plan)
  {
    hide InSnapshot;
  }

  lemma ObjectsRemain(f: Files, g: Files, partial: Name, objects: seq<PlanObject>)
    requires SameOutside(partial, f, g)
    requires forall i :: 0 <= i < |objects| ==> ObjectPath(objects[i].sha) in f
    ensures forall i :: 0 <= i < |objects| ==> ObjectPath(objects[i].sha) in g
  {
    hide ObjectPath;
    forall i | 0 <= i < |objects| ensures ObjectPath(objects[i].sha) in g {
      ObjectOutside(partial, objects[i].sha);
      assert SameAt(f, g, ObjectPath(objects[i].sha));
    }
  }

  /** From the `existsSync` of the final snapshot to the end of the `try` block. */
  method InstallFresh(env: Env, ghost base: Files, disk: Disk, plan: Plan, pid: string) returns (ok: bool)
    requires Good(env, base, disk.fs.files) && Kept(env, base, disk.history) && PlanOk(env, plan)
    requires forall i :: 0 <= i < |plan.objects| ==> ObjectPath(plan.objects[i].sha) in disk.fs.files
    modifies disk
    ensures Good(env, base, disk.fs.files) && Kept(env, base, disk.history)
    ensures !ok ==> SameOutside(PartialName(plan.backupId, pid), old(disk.fs.files), disk.fs.files)
    ensures ok ==> HasDocs(disk.fs.files, plan.backupId, plan)
    ensures !old(disk.failed) ==> (ok <==> !disk.failed && !Exists(old(disk.fs), SnapshotDir(plan.backupId)))
    ensures Exists(old(disk.fs), SnapshotDir(plan.backupId)) ==> !ok
    ensures ok ==> SameOutsideBoth(PartialName(plan.backupId, pid), plan.backupId, old(disk.fs.files), disk.fs.files)
  {
    hide Good, HasPartial, PlanOk, HasDocs, SameAt, ObjectPath, SameOutside, SameOutsideBoth, Prefixes;
    var partial := PartialName(plan.backupId, pid);
    ghost var f := disk.fs;
    SameOutsideSelf(partial, f.files);
    if Exists(disk.fs, SnapshotDir(plan.backupId)) { return false; }
    hide Exists;
    ok := ScratchRemove(env, base, disk, partial);
    ghost var g := disk.fs;
    if !ok { return; }
    ok := ScratchMkdir(env, base, disk, SnapshotDir(partial));
    if !ok { return; }
    FreeStays(f, disk.fs, partial, plan.backupId, SnapshotDir(partial));
    ObjectsRemain(f.files, g.files, partial, plan.objects);
    ghost var h := disk.fs.files;
    ok := WriteAndRename(env, base, disk, plan, partial);
    if ok {
      OutsideBothChain(partial, plan.backupId, f.files, h, disk.fs.files);
    } else {
      OutsidePartialChain(partial, f.files, h, disk.fs.files);
    }
  }

  /** From `mkdirSync(snapshots)` on. */
  method InstallSnapshot(env: Env, ghost base: Files, disk: Disk, plan: Plan, pid: string) returns (ok: bool)
    requires Good(env, base, disk.fs.files) && Kept(env, base, disk.history) && PlanOk(env, plan)
    requires forall i :: 0 <= i < |plan.objects| ==> ObjectPath(plan.objects[i].sha) in disk.fs.files
    modifies disk
    ensures Good(env, base, disk.fs.files) && Kept(env, base, disk.history)
    ensures !ok ==> SameOutside(PartialName(plan.backupId, pid), old(disk.fs.files), disk.fs.files)
    ensures ok ==> HasDocs(disk.fs.files, plan.backupId, plan)
    ensures !old(disk.failed) ==> (ok <==> !disk.failed && !Exists(old(disk.fs), SnapshotDir(plan.backupId)))
    ensures Exists(old(disk.fs), SnapshotDir(plan.backupId)) ==> !ok
    ensures ok ==> SameOutsideBoth(PartialName(plan.backupId, pid), plan.backupId, old(disk.fs.files), disk.fs.files)
  {
    hide Good, HasPartial, PlanOk, HasDocs, SameAt, ObjectPath, SameOutside, SameOutsideBoth, Prefixes, Exists;
    ghost var f := disk.fs;
    SameOutsideSelf(PartialName(plan.backupId, pid), f.files);
    ok := ScratchMkdir(env, base, disk, ["snapshots"]);
    if !ok { return; }
    FreeBefore(f, disk.fs, plan.backupId);
    ok := InstallFresh(env, base, disk, plan, pid);
  }

  lemma SameOutsideSelf(partial: Name, f: Files)
    ensures SameOutside(partial, f, f)
  {
  }

  lemma FreeBefore(fs: Fs, gs: Fs, id: Name)
    requires fs.files == gs.files && fs.dirs <= gs.dirs <= fs.dirs + Prefixes(["snapshots"])
    ensures Exists(gs, SnapshotDir(id)) <==> Exists(fs, SnapshotDir(id))
  {
    NoSnapshotAbove(["snapshots"]);
  }

  // ----- the whole run -----

  /** Writing `latest.json.partial` and renaming it. The last step is the only one that readers of
      `latest.json` see, and the only one that can break the invariant. */
  method SwingLatest(env: Env, ghost base: Files, disk: Disk, plan: Plan) returns (ok: bool)
    requires Good(env, base, disk.fs.files) && Kept(env, base, disk.history) && PlanOk(env, plan)
    requires InSnapshot(plan.backupId, "COMPLETE") in disk.fs.files
    modifies disk
    ensures !ok ==> Good(env, base, disk.fs.files) && Kept(env, base, disk.history)
    ensures ok ==> disk.history != [] && disk.history[|disk.history| - 1] == disk.fs
    ensures ok ==> Kept(env, base, disk.history[..|disk.history| - 1])
    ensures ok ==> Keeps(base, disk.fs.files) && (Inv(env, disk.fs.files) <==> !HasPartial(plan.backupId))
    ensures SameExcept(old(disk.fs.files), disk.fs.files, LATEST_NAMES)
    ensures ok ==> LATEST_PATH in disk.fs.files && disk.fs.files[LATEST_PATH] == plan.latest
    ensures disk.failed == (old(disk.failed) || !ok)
  {
    hide Good, HasPartial, Public, Inv, Keeps;
    LatestScratch();
    ghost var f := disk.fs.files;
    ok := WriteAtomic(env, base, disk, [], "latest.json.partial", plan.latest);
    if !ok { return; }
    ghost var g := disk.fs;
    ghost var before := disk.history;
    CompleteIsElsewhere(f, g.files, plan.backupId);
    FinalStep(env, base, g, plan);
    ok := disk.Rename(LATEST_PARTIAL, LATEST_PATH);
    if ok { assert disk.history[..|disk.history| - 1] == before; }
    AroundLatest(f, g.files, disk.fs.files);
  }

  const LATEST_TMP: Path := ["latest.json.partial" + ".tmp"]
  const LATEST_NAMES: set<Path> := {LATEST_PATH, LATEST_PARTIAL, LATEST_TMP}

  lemma LatestScratch()
    ensures !Public(LATEST_PARTIAL) && !Public(LATEST_TMP)
    ensures [] + ["latest.json.partial"] == LATEST_PARTIAL && [] + ["latest.json.partial" + ".tmp"] == LATEST_TMP
  {
    assert LATEST_PARTIAL[0] != LATEST_PATH[0] && |LATEST_TMP[0]| != |LATEST_PATH[0]|;
  }

  lemma CompleteIsElsewhere(f: Files, g: Files, id: Name)
    requires InSnapshot(id, "COMPLETE") in f && SameExcept(f, g, {LATEST_PARTIAL, LATEST_TMP})
    ensures InSnapshot(id, "COMPLETE") in g
  {
    assert |InSnapshot(id, "COMPLETE")| == 3;
    assert SameAt(f, g, InSnapshot(id, "COMPLETE"));
  }

  lemma AroundLatest(f: Files, g: Files, h: Files)
    requires SameExcept(f, g, {LATEST_PARTIAL, LATEST_TMP}) && SameExcept(g, h, LATEST_NAMES)
    ensures SameExcept(f, h, LATEST_NAMES)
  {
    forall p | p !in LATEST_NAMES ensures SameAt(f, h, p) { assert SameAt(f, g, p) && SameAt(g, h, p); }
  }

  lemma FinalStep(env: Env, base: Files, fs: Fs, plan: Plan)
    requires Good(env, base, fs.files) && LATEST_PARTIAL in fs.files && fs.files[LATEST_PARTIAL] == plan.latest
    requires PlanOk(env, plan) && InSnapshot(plan.backupId, "COMPLETE") in fs.files
    ensures var g := RenameFile(fs, LATEST_PARTIAL, LATEST_PATH).files;
      && Keeps(base, g) && (Inv(env, g) <==> !HasPartial(plan.backupId)) && g[LATEST_PATH] == plan.latest
      && SameExcept(fs.files, g, LATEST_NAMES)
  {
    hide HasPartial, Inv;
    LatestStep(env, fs, plan.backupId);
    var g := RenameFile(fs, LATEST_PARTIAL, LATEST_PATH).files;
    forall p | Public(p) && p != LATEST_PATH && p in base ensures p in g && (IsObject(p) || g[p] == base[p]) {
      assert SameAt(fs.files, g, p);
    }
  }

  /** What a finished run leaves: every object verified, every document in place, `latest.json` written. */
  ghost predicate Published(env: Env, files: Files, plan: Plan)
  {
    && AllVerified(env, files, plan.objects, |plan.objects|)
    && HasDocs(files, plan.backupId, plan)
    && LATEST_PATH in files && files[LATEST_PATH] == plan.latest
  }

  lemma ObjectsStayVerified(env: Env, f: Files, g: Files, partial: Name, id: Name, objects: seq<PlanObject>)
    requires SameOutsideBoth(partial, id, f, g) && AllVerified(env, f, objects, |objects|)
    ensures AllVerified(env, g, objects, |objects|)
  {
    hide ObjectPath;
    forall i | 0 <= i < |objects|
      ensures Verified(env, g, ObjectPath(objects[i].sha), objects[i].sha, objects[i].size)
    {
      ObjectOutside(partial, objects[i].sha);
      ObjectOutside(id, objects[i].sha);
      assert SameAt(f, g, ObjectPath(objects[i].sha));
    }
  }

  lemma RestStays(env: Env, f: Files, g: Files, plan: Plan)
    requires SameExcept(f, g, LATEST_NAMES)
    requires AllVerified(env, f, plan.objects, |plan.objects|) && HasDocs(f, plan.backupId, plan)
    ensures AllVerified(env, g, plan.objects, |plan.objects|) && HasDocs(g, plan.backupId, plan)
  {
    forall i | 0 <= i < |plan.objects| ensures SameAt(f, g, ObjectPath(plan.objects[i].sha)) {
      assert |ObjectPath(plan.objects[i].sha)| == 5;
    }
    forall name ensures SameAt(f, g, InSnapshot(plan.backupId, name)) {
      assert |InSnapshot(plan.backupId, name)| == 3;
    }
    hide ObjectPath, InSnapshot;
  }

  /** No snapshot but the given one has been completed or has ceased to be. */
  ghost predicate OnlyCompletes(f: Files, g: Files, id: Name)
  {
    forall other :: other != id ==> (Complete(g, other) <==> Complete(f, other))
  }

  lemma CompletesOnly(start: Files, f: Files, g: Files, h: Files, partial: Name, id: Name)
    requires SameOutsideObjects(start, f) && SameOutsideBoth(partial, id, f, g) && SameExcept(g, h, LATEST_NAMES)
    requires HasPartial(partial)
    ensures OnlyCompletes(start, h, id)
  {
    hide HasPartial;
    forall other | other != id ensures Complete(h, other) <==> Complete(start, other) {
      var p := InSnapshot(other, "COMPLETE");
      assert p[0] == "snapshots" && p[1] == other && |p| == 3;
      UnderSnapshot(partial, p);
      UnderSnapshot(id, p);
      assert SameAt(start, f, p) && SameAt(g, h, p);
      assert other != partial ==> SameAt(f, g, p);
    }
  }

  /** `publish`. In every state on the way, whatever fails, the repository is good, what readers saw before
      is still there, and `latest.json` is the old one; the last step of a run that returns replaces it,
      and then everything is in place. The invariant fails only for an id with ".partial" inside. */
  method Publish(env: Env, disk: Disk, plan: Plan, pid: string) returns (ok: bool)
    requires Inv(env, disk.fs.files) && disk.history == [disk.fs] && !disk.failed && PlanOk(env, plan)
    modifies disk
    ensures !ok ==> Kept(env, old(disk.fs.files), disk.history) && Good(env, old(disk.fs.files), disk.fs.files)
    ensures ok ==> disk.history != [] && disk.history[|disk.history| - 1] == disk.fs
    ensures ok ==> Kept(env, old(disk.fs.files), disk.history[..|disk.history| - 1])
    ensures ok ==> Published(env, disk.fs.files, plan) && Keeps(old(disk.fs.files), disk.fs.files)
    ensures ok ==> OnlyCompletes(old(disk.fs.files), disk.fs.files, plan.backupId)
    ensures Inv(env, disk.fs.files) <==> !(ok && HasPartial(plan.backupId))
    ensures ok <==> !disk.failed && !Exists(old(disk.fs), SnapshotDir(plan.backupId))
  {
    hide Good, HasPartial, PlanOk, HasDocs, ObjectPath, AllVerified, Keeps, Exists, Inv, SameOutsideObjects,
      OnlyCompletes, SameOutsideBoth, SameOutside, SameAt, Prefixes, ObjectsStay;
    ghost var base := disk.fs.files;
    ghost var start := disk.fs;
    StartIsGood(env, base);
    var id := plan.backupId;
    ok := ScratchMkdir(env, base, disk, []);
    if !ok { GoodIsInv(env, base, disk.fs.files); return; }
    NoSnapshotAbove([]);
    ghost var made := disk.fs;
    PlanHasDistinctObjects(env, plan);
    ok := PublishObjects(env, base, disk, plan.objects);
    if !ok { GoodIsInv(env, base, disk.fs.files); return; }
    ghost var f := disk.fs;
    DirsGrowChain(start.dirs, made.dirs, f.dirs);
    VerifiedArePresent(env, f.files, plan.objects);
    ok := InstallSnapshot(env, base, disk, plan, pid);
    ThereBefore(start, f, id);
    if !ok { GoodIsInv(env, base, disk.fs.files); return; }
    ghost var g := disk.fs.files;
    ObjectsStayVerified(env, f.files, g, PartialName(id, pid), id, plan.objects);
    DocsAreComplete(g, plan);
    ok := SwingLatest(env, base, disk, plan);
    RestStays(env, g, disk.fs.files, plan);
    CompletesOnly(base, f.files, g, disk.fs.files, PartialName(id, pid), id);
    if !ok { GoodIsInv(env, base, disk.fs.files); }
  }

  lemma DirsGrowChain(a: set<Path>, b: set<Path>, c: set<Path>)
    requires DirsGrow(a, b) && DirsGrow(b, c)
    ensures DirsGrow(a, c)
  {
  }

  lemma StartIsGood(env: Env, base: Files)
    requires Inv(env, base)
    ensures Good(env, base, base)
  {
  }

  lemma GoodIsInv(env: Env, base: Files, g: Files)
    requires Good(env, base, g)
    ensures Inv(env, g)
  {
  }

  lemma PlanHasDistinctObjects(env: Env, plan: Plan)
    requires PlanOk(env, plan)
    ensures forall i, j :: 0 <= i < j < |plan.objects| ==> plan.objects[i].sha != plan.objects[j].sha
    ensures forall i :: 0 <= i < |plan.objects| ==> ContentFits(env, plan.objects[i])
  {
  }

  lemma VerifiedArePresent(env: Env, files: Files, objects: seq<PlanObject>)
    requires AllVerified(env, files, objects, |objects|)
    ensures forall i :: 0 <= i < |objects| ==> ObjectPath(objects[i].sha) in files
  {
    hide ObjectPath;
    assert forall i :: 0 <= i < |objects| ==>
      Verified(env, files, ObjectPath(objects[i].sha), objects[i].sha, objects[i].size);
  }

  lemma DocsAreComplete(files: Files, plan: Plan)
    requires HasDocs(files, plan.backupId, plan)
    ensures InSnapshot(plan.backupId, "COMPLETE") in files
  {
  }

  lemma ThereBefore(fs: Fs, gs: Fs, id: Name)
    requires SameOutsideObjects(fs.files, gs.files) && DirsGrow(fs.dirs, gs.dirs)
    ensures Exists(gs, SnapshotDir(id)) <==> Exists(fs, SnapshotDir(id))
  {
    forall q ensures Under(SnapshotDir(id), q) ==> (q in fs.files <==> q in gs.files) {
      UnderSnapshot(id, q);
      assert q != [] && q[0] == "snapshots" ==> SameAt(fs.files, gs.files, q);
    }
  }

  // ----- validation -----

  /** What `validatePublishedTree` accepts. */
  ghost predicate Validates(env: Env, fs: Fs, plan: Plan)
  {
    && AllVerified(env, fs.files, plan.objects, |plan.objects|)
    && Exists(fs, InSnapshot(plan.backupId, "manifest.json"))
    && Exists(fs, InSnapshot(plan.backupId, "files.json"))
    && Exists(fs, InSnapshot(plan.backupId, "COMPLETE"))
    && (plan.signature.Some? ==> Exists(fs, InSnapshot(plan.backupId, "public-bootstrap-signature.json")))
    && LATEST_PATH in fs.files && env.parseLatest(fs.files[LATEST_PATH]) == Some(plan.backupId)
  }

  /** `validatePublishedTree`: true when it does not throw. */
  method ValidatePublishedTree(env: Env, disk: Disk, plan: Plan) returns (ok: bool)
    ensures ok <==> Validates(env, disk.fs, plan)
  {
    hide Exists;
    for i := 0 to |plan.objects|
      invariant AllVerified(env, disk.fs.files, plan.objects, i)
    {
      var o := plan.objects[i];
      var verified := VerifyExisting(env, disk, ObjectPath(o.sha), o.sha, o.size);
      if !verified { return false; }
    }
    for i := 0 to |REQUIRED_DOCS|
      invariant forall k :: 0 <= k < i ==> Exists(disk.fs, InSnapshot(plan.backupId, REQUIRED_DOCS[k]))
    {
      if !Exists(disk.fs, InSnapshot(plan.backupId, REQUIRED_DOCS[i])) {
        assert REQUIRED_DOCS[i] in REQUIRED_DOCS;
        return false;
      }
    }
    assert REQUIRED_DOCS[0] == "manifest.json" && REQUIRED_DOCS[1] == "files.json" && REQUIRED_DOCS[2] == "COMPLETE";
    if plan.signature.Some? && !Exists(disk.fs, InSnapshot(plan.backupId, "public-bootstrap-signature.json")) {
      return false;
    }
    return LATEST_PATH in disk.fs.files && env.parseLatest(disk.fs.files[LATEST_PATH]) == Some(plan.backupId);
  }

  const REQUIRED_DOCS: seq<Name> := ["manifest.json", "files.json", "COMPLETE"]

  lemma PublishedValidates(env: Env, fs: Fs, plan: Plan)
    requires Published(env, fs.files, plan) && PlanOk(env, plan)
    ensures Validates(env, fs, plan)
  {
    hide InSnapshot;
  }

  /** What `Publish` says of a run: a throw leaves only good states; a return puts everything in place with its
      last step, and the states before that are good. */
  ghost predicate RunIsSafe(env: Env, base: Files, history: seq<Fs>, now: Fs, plan: Plan, ok: bool)
  {
    && (!ok ==> Kept(env, base, history) && Good(env, base, now.files))
    && (ok ==> history != [] && history[|history| - 1] == now && Kept(env, base, history[..|history| - 1]))
    && (ok ==>
          && Published(env, now.files, plan) && Keeps(base, now.files)
          && OnlyCompletes(base, now.files, plan.backupId))
    && (Inv(env, now.files) <==> !(ok && HasPartial(plan.backupId)))
  }

  /** The two calls of `main`: a publish that returns is never refused by the validation after it. */
  method PublishAndValidate(env: Env, disk: Disk, plan: Plan, pid: string) returns (published: bool, validated: bool)
    requires Inv(env, disk.fs.files) && disk.history == [disk.fs] && !disk.failed && PlanOk(env, plan)
    modifies disk
    ensures published <==> !disk.failed && !Exists(old(disk.fs), SnapshotDir(plan.backupId))
    ensures published ==> validated
    ensures RunIsSafe(env, old(disk.fs.files), disk.history, disk.fs, plan, published)
  {
    hide *;
    validated := false;
    ghost var base := disk.fs.files;
    published := Publish(env, disk, plan, pid);
    PublishIsSafe(env, base, disk.history, disk.fs, plan, published);
    if published {
      PublishedValidates(env, disk.fs, plan);
      validated := ValidatePublishedTree(env, disk, plan);
    }
  }

  lemma PublishIsSafe(env: Env, base: Files, history: seq<Fs>, now: Fs, plan: Plan, ok: bool)
    requires !ok ==> Kept(env, base, history) && Good(env, base, now.files)
    requires ok ==> history != [] && history[|history| - 1] == now && Kept(env, base, history[..|history| - 1])
    requires ok ==> Published(env, now.files, plan) && Keeps(base, now.files)
    requires ok ==> OnlyCompletes(base, now.files, plan.backupId)
    requires Inv(env, now.files) <==> !(ok && HasPartial(plan.backupId))
    ensures RunIsSafe(env, base, history, now, plan, ok)
  {
    hide Kept, Good, Published, Keeps, OnlyCompletes, Inv, HasPartial;
  }
}
