/**
 A public bootstrap repository: content-addressed objects, snapshots, and `latest.json`. What a reader
 relies on at any moment, and the three steps that change what a reader sees.
 */
module Repository {
  import opened Basics
  import opened FileSystem

  predicate IsSha(s: string)
  {
    |s| == 64 && forall i :: 0 <= i < |s| ==> '0' <= s[i] <= '9' || 'a' <= s[i] <= 'f'
  }

  /** What `SHA256_RE` accepts. */
  type Sha = s: string | IsSha(s) witness seq(64, _ => '0')

  predicate IsLowerHex(s: string) { forall i :: 0 <= i < |s| ==> '0' <= s[i] <= '9' || 'a' <= s[i] <= 'f' }

  lemma {:induction false} HexTextIsLower(b: Bytes)
    ensures |HexText(b)| == 2 * |b| && IsLowerHex(HexText(b))
  {
    if b != [] {
      HexTextIsLower(b[1..]);
      HexDigitIsLower(b[0] / 16);
      HexDigitIsLower(b[0] % 16);
    }
  }

  lemma HexDigitIsLower(d: nat)
    requires d < 16
    ensures '0' <= HEX_DIGITS[d] <= '9' || 'a' <= HEX_DIGITS[d] <= 'f'
  {
  }

  lemma LowerHexDigit(c: char) returns (d: nat)
    requires '0' <= c <= '9' || 'a' <= c <= 'f'
    ensures d < 16 && HEX_DIGITS[d] == c
  {
    d := if c <= '9' then c as nat - '0' as nat else c as nat - 'a' as nat + 10;
  }

  lemma HexTextCons(high: nat, low: nat, rest: Bytes)
    requires high < 16 && low < 16
    ensures HexText([high * 16 + low] + rest) == [HEX_DIGITS[high], HEX_DIGITS[low]] + HexText(rest)
  {
    var b := [high * 16 + low] + rest;
    assert b[1..] == rest && b[0] / 16 == high && b[0] % 16 == low;
  }

  lemma {:induction false} LowerIsHexText(s: string) returns (b: Bytes)
    requires IsLowerHex(s) && |s| % 2 == 0
    ensures HexText(b) == s && 2 * |b| == |s|
  {
    if s == "" { return []; }
    var high := LowerHexDigit(s[0]);
    var low := LowerHexDigit(s[1]);
    var rest := LowerIsHexText(s[2..]);
    hide HexText;
    b := [high * 16 + low] + rest;
    HexTextCons(high, low, rest);
    assert s == [s[0], s[1]] + s[2..];
  }

  /** The names of objects are the lower-case hex texts of 32 bytes. */
  lemma ShaIsHex(s: string)
    ensures IsSha(s) <==> exists b: Bytes :: |b| == 32 && s == HexText(b)
  {
    if IsSha(s) { var b := LowerIsHexText(s); }
    forall b: Bytes | |b| == 32 && s == HexText(b) ensures IsSha(s) { HexTextIsLower(b); }
  }

  /** The hash function and the two JSON readers the repository depends on. */
  datatype Env = Env(hash: Bytes -> Sha, parseFiles: Bytes -> Option<seq<Sha>>, parseLatest: Bytes -> Option<Name>)

  type Files = map<Path, Bytes>

  function ObjectPath(sha: Sha): Path { ["objects", "sha256", sha[..2], sha[2..4], sha] }

  function ObjectPartial(sha: Sha): Path { ["objects", "sha256", sha[..2], sha[2..4], sha + ".partial"] }

  function SnapshotDir(id: Name): Path { ["snapshots", id] }

  function InSnapshot(id: Name, name: Name): Path { ["snapshots", id, name] }

  /** An object lies under the first two and the next two digits of its name, and is written beside itself. */
  lemma ObjectPathSpells(sha: Sha)
    ensures var p := ObjectPath(sha);
      && |p| == 5 && p[..2] == ["objects", "sha256"] && p[4] == sha
      && |p[2]| == |p[3]| == 2 && p[2] + p[3] + sha[4..] == sha
    ensures ObjectPartial(sha) == ObjectPath(sha)[..4] + [sha + ".partial"]
  {
  }

  const LATEST_PATH: Path := ["latest.json"]
  const LATEST_PARTIAL: Path := ["latest.json.partial"]

  predicate PartialAt(s: string, i: nat) { i + 8 <= |s| && s[i..i + 8] == ".partial" }

  /** `includes('.partial')` */
  predicate HasPartial(s: string) { exists i | 0 <= i <= |s| :: PartialAt(s, i) }

  lemma HasPartialIff(s: string)
    ensures HasPartial(s) <==> exists a, b :: s == a + (".partial" + b)
  {
    if HasPartial(s) {
      var i :| 0 <= i <= |s| && PartialAt(s, i);
      assert s == s[..i] + (".partial" + s[i + 8..]);
    }
    forall a, b | s == a + (".partial" + b) ensures HasPartial(s) {
      assert s[|a|..|a| + 8] == ".partial";
      assert PartialAt(s, |a|);
    }
  }

  /** A completed public snapshot: not a partial directory, and marked COMPLETE. */
  predicate Complete(files: Files, id: Name)
  {
    !HasPartial(id) && InSnapshot(id, "COMPLETE") in files
  }

  /** The file list of a snapshot is readable and every object it names is there. */
  ghost predicate Intact(env: Env, files: Files, id: Name)
  {
    var p := InSnapshot(id, "files.json");
    && p in files && env.parseFiles(files[p]).Some?
    && var shas := env.parseFiles(files[p]).value; forall k :: 0 <= k < |shas| ==> ObjectPath(shas[k]) in files
  }

  ghost predicate ObjectsOk(env: Env, files: Files)
  {
    forall sha: Sha :: ObjectPath(sha) in files ==> env.hash(files[ObjectPath(sha)]) == sha
  }

  ghost predicate SnapshotsOk(env: Env, files: Files)
  {
    forall id :: Complete(files, id) ==> Intact(env, files, id)
  }

  /** `latest.json` is absent or names a completed snapshot. */
  ghost predicate LatestOk(env: Env, files: Files)
  {
    LATEST_PATH in files ==>
      env.parseLatest(files[LATEST_PATH]).Some? && Complete(files, env.parseLatest(files[LATEST_PATH]).value)
  }

  ghost predicate Inv(env: Env, files: Files)
  {
    ObjectsOk(env, files) && SnapshotsOk(env, files) && LatestOk(env, files)
  }

  // ----- what a reader sees -----

  predicate IsObject(p: Path)
  {
    |p| == 5 && IsSha(p[4]) && p == ObjectPath(p[4])
  }

  predicate InPublicSnapshot(p: Path)
  {
    |p| >= 3 && p[0] == "snapshots" && !HasPartial(p[1])
  }

  /** Everything else is scratch: partial directories, temporary and partial files. */
  predicate Public(p: Path)
  {
    p == LATEST_PATH || InPublicSnapshot(p) || IsObject(p)
  }

  predicate SameAt(f: Files, g: Files, p: Path)
  {
    (p in f <==> p in g) && (p in f ==> f[p] == g[p])
  }

  ghost predicate SamePublic(f: Files, g: Files)
  {
    forall p :: Public(p) ==> SameAt(f, g, p)
  }

  ghost predicate SameExcept(f: Files, g: Files, changed: set<Path>)
  {
    forall p :: p !in changed ==> SameAt(f, g, p)
  }

  lemma ObjectsArePublic(sha: Sha)
    ensures Public(ObjectPath(sha)) && !Public(ObjectPartial(sha))
  {
    assert ObjectPath(sha)[4] == sha;
    assert |ObjectPartial(sha)[4]| == 72;
    assert ObjectPartial(sha)[0] == "objects";
  }

  lemma SnapshotsArePublic(id: Name, name: Name)
    ensures Public(InSnapshot(id, name)) <==> !HasPartial(id)
  {
    assert InSnapshot(id, name)[0] == "snapshots" && InSnapshot(id, name)[1] == id;
  }

  lemma CompleteSame(f: Files, g: Files, id: Name)
    requires SamePublic(f, g)
    ensures Complete(f, id) <==> Complete(g, id)
  {
    hide HasPartial;
    SnapshotsArePublic(id, "COMPLETE");
    if !HasPartial(id) { assert SameAt(f, g, InSnapshot(id, "COMPLETE")); }
  }

  lemma IntactSame(env: Env, f: Files, g: Files, id: Name)
    requires SamePublic(f, g) && !HasPartial(id)
    ensures Intact(env, f, id) <==> Intact(env, g, id)
  {
    hide HasPartial, Public, ObjectPath, InSnapshot;
    SnapshotsArePublic(id, "files.json");
    assert SameAt(f, g, InSnapshot(id, "files.json"));
    forall sha: Sha ensures ObjectPath(sha) in f <==> ObjectPath(sha) in g {
      ObjectsArePublic(sha);
      assert SameAt(f, g, ObjectPath(sha));
    }
  }

  /** The invariant depends only on what a reader sees. */
  lemma InvSame(env: Env, f: Files, g: Files)
    requires SamePublic(f, g) && Inv(env, f)
    ensures Inv(env, g)
  {
    hide HasPartial, Intact, ObjectPath;
    assert SameAt(f, g, LATEST_PATH);
    forall sha: Sha | ObjectPath(sha) in g ensures env.hash(g[ObjectPath(sha)]) == sha {
      ObjectsArePublic(sha);
      assert SameAt(f, g, ObjectPath(sha));
    }
    forall id | Complete(g, id) ensures Intact(env, g, id) {
      CompleteSame(f, g, id);
      IntactSame(env, f, g, id);
    }
    if LATEST_PATH in g { CompleteSame(f, g, env.parseLatest(g[LATEST_PATH]).value); }
  }

  // ----- the three visible steps -----

  /** Moving a verified partial object into place. */
  lemma ObjectStep(env: Env, fs: Fs, sha: Sha)
    requires Inv(env, fs.files) && ObjectPartial(sha) in fs.files && env.hash(fs.files[ObjectPartial(sha)]) == sha
    ensures var g := RenameFile(fs, ObjectPartial(sha), ObjectPath(sha)).files;
      && Inv(env, g) && ObjectPath(sha) in g && g[ObjectPath(sha)] == fs.files[ObjectPartial(sha)]
      && SameExcept(fs.files, g, {ObjectPartial(sha), ObjectPath(sha)})
  {
    hide HasPartial;
    var f := fs.files;
    var g := RenameFile(fs, ObjectPartial(sha), ObjectPath(sha)).files;
    ObjectsArePublic(sha);
    forall s: Sha | ObjectPath(s) in g ensures env.hash(g[ObjectPath(s)]) == s {
      ObjectsArePublic(s);
      if s != sha { assert ObjectPath(s)[4] != ObjectPath(sha)[4]; assert SameAt(f, g, ObjectPath(s)); }
    }
    NewObjectKeeps(env, f, g, ObjectPartial(sha), ObjectPath(sha));
  }

  /** Snapshots and `latest.json` stay good when objects are added and scratch files go. */
  lemma NewObjectKeeps(env: Env, f: Files, g: Files, scratch: Path, added: Path)
    requires SameExcept(f, g, {scratch, added}) && !Public(scratch) && IsObject(added) && added in g
    requires SnapshotsOk(env, f) && LatestOk(env, f)
    ensures SnapshotsOk(env, g) && LatestOk(env, g)
  {
    hide HasPartial, ObjectPath, IsSha;
    forall id ensures (Complete(g, id) <==> Complete(f, id)) && (Complete(f, id) ==> Intact(env, g, id)) {
      SnapshotsArePublic(id, "COMPLETE");
      SnapshotsArePublic(id, "files.json");
      assert |InSnapshot(id, "COMPLETE")| == 3 && |InSnapshot(id, "files.json")| == 3;
      if !HasPartial(id) {
        assert SameAt(f, g, InSnapshot(id, "COMPLETE"));
        assert SameAt(f, g, InSnapshot(id, "files.json"));
        forall s: Sha | ObjectPath(s) in f ensures ObjectPath(s) in g {
          ObjectsArePublic(s);
          if ObjectPath(s) != added { assert SameAt(f, g, ObjectPath(s)); }
        }
      }
    }
    assert SameAt(f, g, LATEST_PATH);
  }

  /** Renaming the partial directory to a free snapshot name. */
  lemma SnapshotStep(env: Env, fs: Fs, partial: Name, id: Name)
    requires Inv(env, fs.files) && HasPartial(partial) && partial != id
    requires !Exists(fs, SnapshotDir(id)) && Intact(env, fs.files, partial)
    ensures var g := RenameDir(fs, SnapshotDir(partial), SnapshotDir(id)).files;
      && Inv(env, g)
      && (forall name :: InSnapshot(partial, name) in fs.files ==>
            InSnapshot(id, name) in g && g[InSnapshot(id, name)] == fs.files[InSnapshot(partial, name)])
      && (forall p :: !Under(SnapshotDir(partial), p) && !Under(SnapshotDir(id), p) ==> SameAt(fs.files, g, p))
  {
    hide HasPartial;
    var (a, b) := (SnapshotDir(partial), SnapshotDir(id));
    var (f, g) := (fs.files, RenameDir(fs, a, b).files);
    assert a[1] != b[1];
    forall name ensures InSnapshot(id, name) in g <==> InSnapshot(partial, name) in f
      ensures InSnapshot(partial, name) in f ==> g[InSnapshot(id, name)] == f[InSnapshot(partial, name)]
    {
      RenameDirAt(fs, a, b, [name]);
      assert a + [name] == InSnapshot(partial, name) && b + [name] == InSnapshot(id, name);
      assert Under(b, InSnapshot(id, name));
    }
    forall p | !Under(a, p) && !Under(b, p) ensures SameAt(f, g, p) { RenameDirElsewhere(fs, a, b, p); }
    MovedKeeps(env, f, g, partial, id);
  }

  lemma UnderSnapshot(id: Name, p: Path)
    ensures Under(SnapshotDir(id), p) <==> |p| >= 2 && p[0] == "snapshots" && p[1] == id
  {
    if |p| >= 2 { assert p[..2] == [p[0], p[1]]; }
  }

  lemma IntactCarried(env: Env, f: Files, g: Files, source: Name, target: Name)
    requires Intact(env, f, source)
    requires InSnapshot(target, "files.json") in g
    requires g[InSnapshot(target, "files.json")] == f[InSnapshot(source, "files.json")]
    requires forall s: Sha :: SameAt(f, g, ObjectPath(s))
    ensures Intact(env, g, target)
  {
    hide ObjectPath, InSnapshot;
    var shas := env.parseFiles(f[InSnapshot(source, "files.json")]).value;
    forall k | 0 <= k < |shas| ensures ObjectPath(shas[k]) in g {
      assert SameAt(f, g, ObjectPath(shas[k]));
    }
  }

  lemma MovedKeeps(env: Env, f: Files, g: Files, partial: Name, id: Name)
    requires Inv(env, f) && HasPartial(partial) && partial != id && Intact(env, f, partial)
    requires forall name :: InSnapshot(id, name) in g <==> InSnapshot(partial, name) in f
    requires forall name :: InSnapshot(partial, name) in f ==> g[InSnapshot(id, name)] == f[InSnapshot(partial, name)]
    requires forall p :: !Under(SnapshotDir(partial), p) && !Under(SnapshotDir(id), p) ==> SameAt(f, g, p)
    requires InSnapshot(id, "COMPLETE") !in f
    ensures Inv(env, g)
  {
    hide HasPartial;
    forall s: Sha ensures SameAt(f, g, ObjectPath(s)) {
      assert ObjectPath(s)[0] == "objects";
      UnderSnapshot(partial, ObjectPath(s));
      UnderSnapshot(id, ObjectPath(s));
    }
    forall other, name | other != id && other != partial ensures SameAt(f, g, InSnapshot(other, name)) {
      assert InSnapshot(other, name)[1] == other;
      UnderSnapshot(partial, InSnapshot(other, name));
      UnderSnapshot(id, InSnapshot(other, name));
    }
    forall other | Complete(g, other) ensures Intact(env, g, other) {
      if other == id {
        IntactCarried(env, f, g, partial, id);
      } else {
        assert SameAt(f, g, InSnapshot(other, "COMPLETE"));
        assert SameAt(f, g, InSnapshot(other, "files.json"));
        assert Complete(f, other) && Intact(env, f, other);
        IntactCarried(env, f, g, other, other);
      }
    }
    UnderSnapshot(partial, LATEST_PATH);
    UnderSnapshot(id, LATEST_PATH);
    assert SameAt(f, g, LATEST_PATH);
    if LATEST_PATH in g {
      var l := env.parseLatest(g[LATEST_PATH]).value;
      assert l != id && l != partial;
      assert SameAt(f, g, InSnapshot(l, "COMPLETE"));
    }
  }

  /** Swinging `latest.json` keeps the invariant exactly when the snapshot it then names is completed. */
  lemma LatestStep(env: Env, fs: Fs, id: Name)
    requires Inv(env, fs.files) && LATEST_PARTIAL in fs.files && env.parseLatest(fs.files[LATEST_PARTIAL]) == Some(id)
    ensures var g := RenameFile(fs, LATEST_PARTIAL, LATEST_PATH).files;
      && (Inv(env, g) <==> Complete(fs.files, id))
      && LATEST_PATH in g && g[LATEST_PATH] == fs.files[LATEST_PARTIAL]
      && SameExcept(fs.files, g, {LATEST_PARTIAL, LATEST_PATH})
  {
    hide HasPartial;
    var (f, g) := (fs.files, RenameFile(fs, LATEST_PARTIAL, LATEST_PATH).files);
    forall s: Sha ensures SameAt(f, g, ObjectPath(s)) { assert |ObjectPath(s)| == 5; }
    forall other, name ensures SameAt(f, g, InSnapshot(other, name)) { assert |InSnapshot(other, name)| == 3; }
    forall other
      ensures (Complete(g, other) <==> Complete(f, other)) && (Intact(env, f, other) ==> Intact(env, g, other))
    {
      assert SameAt(f, g, InSnapshot(other, "COMPLETE"));
      assert SameAt(f, g, InSnapshot(other, "files.json"));
    }
  }
}
