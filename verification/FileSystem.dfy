/**
 The destination file system: files by path, directories, and the steps the publisher takes. A step
 can fail, and a crash can hit in the middle of one: a write may leave any content, a recursive
 removal may have got anywhere. The class keeps a history of every state a crash could leave,
 and whether a step failed.
 */
module FileSystem {
  import opened Basics

  type Name = string
  type Path = seq<Name>

  datatype Fs = Fs(files: map<Path, Bytes>, dirs: set<Path>)

  predicate Under(dir: Path, p: Path)
  {
    dir <= p
  }

  /** `existsSync` on a path. */
  predicate Exists(fs: Fs, p: Path)
  {
    p in fs.dirs || exists q :: q in fs.files && Under(p, q)
  }

  function Write(fs: Fs, p: Path, content: Bytes): Fs
  {
    fs.(files := fs.files[p := content])
  }

  /** A write that stopped somewhere: not begun, or with whatever content it left. */
  function Torn(fs: Fs, p: Path, left: Option<Bytes>): Fs
  {
    if left.None? then fs else Write(fs, p, left.value)
  }

  /** `renameSync` of a file onto a path that is free or a file. */
  function RenameFile(fs: Fs, a: Path, b: Path): Fs
    requires a in fs.files
  {
    fs.(files := (fs.files - {a})[b := fs.files[a]])
  }

  /** A removal under p that has kept some of the files. */
  function Pruned(fs: Fs, p: Path, kept: set<Path>): Fs
  {
    Fs(map q | q in fs.files && (!Under(p, q) || q in kept) :: fs.files[q],
       set d | d in fs.dirs && (!Under(p, d) || d in kept))
  }

  function RemoveTree(fs: Fs, p: Path): Fs
  {
    Pruned(fs, p, {})
  }

  /** A directory and everything above it. */
  function Prefixes(p: Path): set<Path>
  {
    set i | 0 <= i <= |p| :: p[..i]
  }

  lemma PrefixesAre(p: Path, q: Path)
    ensures q in Prefixes(p) <==> q <= p
  {
    if q <= p { assert q == p[..|q|]; }
  }

  function MakeDir(fs: Fs, p: Path): Fs
  {
    fs.(dirs := fs.dirs + Prefixes(p))
  }

  /** `renameSync` of a directory onto a free path. */
  function RenameDir(fs: Fs, a: Path, b: Path): Fs
  {
    var rest := Pruned(fs, a, {});
    var moved := set q | q in fs.files && Under(a, q) :: b + q[|a|..];
    Fs(rest.files + map p | p in moved && Under(b, p) && a + p[|b|..] in fs.files :: fs.files[a + p[|b|..]],
       rest.dirs + set d | d in fs.dirs && Under(a, d) :: b + d[|a|..])
  }

  lemma RenameDirAt(fs: Fs, a: Path, b: Path, rest: Path)
    requires !Under(a, b)
    ensures b + rest in RenameDir(fs, a, b).files <==>
      a + rest in fs.files || (b + rest in fs.files && !Under(a, b + rest))
    ensures a + rest in fs.files ==> RenameDir(fs, a, b).files[b + rest] == fs.files[a + rest]
  {
    var p := b + rest;
    assert p[|b|..] == rest;
    if a + rest in fs.files {
      var q := a + rest;
      assert Under(a, q) && q[|a|..] == rest;
      assert p in set q | q in fs.files && Under(a, q) :: b + q[|a|..];
    }
    if p in (set q | q in fs.files && Under(a, q) :: b + q[|a|..]) {
      var q :| q in fs.files && Under(a, q) && p == b + q[|a|..];
      assert q == a + q[|a|..];
      assert q[|a|..] == p[|b|..];
    }
  }

  lemma RenameDirElsewhere(fs: Fs, a: Path, b: Path, p: Path)
    requires !Under(a, p) && !Under(b, p)
    ensures p in RenameDir(fs, a, b).files <==> p in fs.files
    ensures p in fs.files ==> RenameDir(fs, a, b).files[p] == fs.files[p]
  {
  }

  class Disk {
    var fs: Fs
    ghost var history: seq<Fs>
    ghost var failed: bool  // has a step failed?

    constructor (fs: Fs)
      ensures this.fs == fs && history == [fs] && !failed
    {
      this.fs := fs;
      history := [fs];
      failed := false;
    }

    /** `writeFileSync` and `copyFileSync`. */
    method WriteFile(p: Path, content: Bytes) returns (ok: bool, ghost left: Option<Bytes>)
      modifies this
      ensures fs == if ok then Write(old(fs), p, content) else Torn(old(fs), p, left)
      ensures history == old(history) + [Torn(old(fs), p, left), fs]
      ensures failed == (old(failed) || !ok)
    {
      ok := *;
      var stopped: Option<Bytes> := *;
      left := stopped;
      history := history + [Torn(fs, p, left)];
      fs := if ok then Write(fs, p, content) else Torn(fs, p, stopped);
      history := history + [fs];
      failed := failed || !ok;
    }

    /** `rmSync` of one file with `force`. */
    method Unlink(p: Path) returns (ok: bool)
      modifies this
      ensures fs == if ok then old(fs).(files := old(fs).files - {p}) else old(fs)
      ensures history == old(history) + [fs]
      ensures failed == (old(failed) || !ok)
    {
      ok := *;
      if ok { fs := fs.(files := fs.files - {p}); }
      history := history + [fs];
      failed := failed || !ok;
    }

    /** `renameSync` on a file: atomic, or without effect. */
    method Rename(a: Path, b: Path) returns (ok: bool)
      requires a in fs.files
      modifies this
      ensures fs == if ok then RenameFile(old(fs), a, b) else old(fs)
      ensures history == old(history) + [fs]
      ensures failed == (old(failed) || !ok)
    {
      ok := *;
      if ok { fs := RenameFile(fs, a, b); }
      history := history + [fs];
      failed := failed || !ok;
    }

    /** `renameSync` on a directory: atomic, or without effect. */
    method RenameTree(a: Path, b: Path) returns (ok: bool)
      modifies this
      ensures fs == if ok then RenameDir(old(fs), a, b) else old(fs)
      ensures history == old(history) + [fs]
      ensures failed == (old(failed) || !ok)
    {
      ok := *;
      if ok { fs := RenameDir(fs, a, b); }
      history := history + [fs];
      failed := failed || !ok;
    }

    /** `rmSync` with `recursive` and `force`: not atomic. */
    method Remove(p: Path) returns (ok: bool, ghost kept: set<Path>)
      modifies this
      ensures fs == if ok then RemoveTree(old(fs), p) else Pruned(old(fs), p, kept)
      ensures history == old(history) + [Pruned(old(fs), p, kept), fs]
      ensures failed == (old(failed) || !ok)
    {
      ok := *;
      var stopped: set<Path> := *;
      kept := stopped;
      history := history + [Pruned(fs, p, kept)];
      fs := if ok then RemoveTree(fs, p) else Pruned(fs, p, stopped);
      history := history + [fs];
      failed := failed || !ok;
    }

    /** `mkdirSync` with `recursive`. */
    method Mkdir(p: Path) returns (ok: bool)
      modifies this
      ensures fs == if ok then MakeDir(old(fs), p) else old(fs)
      ensures history == old(history) + [fs]
      ensures failed == (old(failed) || !ok)
    {
      ok := *;
      if ok { fs := MakeDir(fs, p); }
      history := history + [fs];
      failed := failed || !ok;
    }

    /** Reading from another repository: by now a file there may hold anything, or be gone. What is not
        as expected counts as a failure. */
    method Fetch(ghost expected: iset<Bytes>) returns (r: Option<Bytes>)
      modifies this`failed
      ensures failed == (old(failed) || !(r.Some? && r.value in expected))
    {
      r := *;
      failed := failed || !(r.Some? && r.value in expected);
    }
  }
}
