/** The filesystem as the pipelines see it: a tree of directories and files
    with abstract contents, and the operating-system and library calls the
    code makes on it. */
module FileSystem {
  import opened Wrappers
  import opened Paths
  import opened Errors

  type Byte = x: int | 0 <= x < 256

  /** What a file holds. The compressors and the Parquet writer are not
      modelled; their outputs are named after their inputs. */
  datatype Content =
    | Bytes(data: seq<Byte>)
    | Text(text: string)
    | Bzip2Of(original: Content)
    | ParquetOf(source: Content)

  datatype Fs = Fs(dirs: set<Path>, files: map<Path, Content>)

  /** A tree: the working directory exists, and every directory and file other
      than it sits in an existing directory; no path is both. */
  ghost predicate Valid(fs: Fs) {
    && [] in fs.dirs
    && (forall p :: p in fs.files ==> p != [] && p !in fs.dirs && Parent(p) in fs.dirs)
    && (forall p :: p in fs.dirs && p != [] ==> Parent(p) in fs.dirs)
  }

  predicate IsPrefix(q: Path, p: Path) {
    |q| <= |p| && q == p[..|q|]
  }

  /** `p` itself and every directory above it. */
  function Prefixes(p: Path): set<Path> {
    set k | 0 <= k <= |p| :: p[..k]
  }

  lemma PrefixesOfParent(p: Path)
    requires p != []
    ensures Prefixes(p) == Prefixes(Parent(p)) + {p}
  {
    var q := Parent(p);
    forall x | x in Prefixes(p) ensures x in Prefixes(q) + {p} {
      var k :| 0 <= k <= |p| && x == p[..k];
      if k < |p| { assert x == q[..k]; }
    }
    forall x | x in Prefixes(q) ensures x in Prefixes(p) {
      var k :| 0 <= k <= |q| && x == q[..k];
      assert x == p[..k];
    }
    assert p == p[..|p|];
  }

  /** In a tree every directory above an existing directory exists. */
  lemma {:induction false} AncestorsExist(fs: Fs, p: Path)
    requires Valid(fs) && p in fs.dirs
    ensures Prefixes(p) <= fs.dirs
    decreases |p|
  {
    if p != [] {
      AncestorsExist(fs, Parent(p));
      PrefixesOfParent(p);
    } else {
      assert forall x :: x in Prefixes(p) ==> x == [];
    }
  }

  /** Path resolution of the directory that holds `p`: a file on the way is
      ENOTDIR, a missing parent ENOENT. */
  function ResolveParent(fs: Fs, p: Path): (r: Outcome<Error>)
    ensures r.Pass? <==> Parent(p) in fs.dirs && forall k :: 0 < k < |p| ==> p[..k] !in fs.files
  {
    if exists k :: 0 < k < |p| && p[..k] in fs.files then Fail(NotADirectory(p))
    else if Parent(p) !in fs.dirs then Fail(FileNotFound(p))
    else Pass
  }

  /** `os.mkdir(p)`. */
  function OsMkdir(fs: Fs, p: Path): (r: (Outcome<Error>, Fs))
    ensures Valid(fs) ==> Valid(r.1)
    ensures r.0.Pass? <==> ResolveParent(fs, p).Pass? && p !in fs.dirs && p !in fs.files
    ensures r.0.Pass? ==> r.1 == fs.(dirs := fs.dirs + {p})
    ensures r.0.Fail? ==> r.1 == fs
    ensures r.0.Fail? && ResolveParent(fs, p).Pass? ==> r.0.error == FileExists(p)
  {
    var resolved := ResolveParent(fs, p);
    if resolved.Fail? then (resolved, fs)
    else if p in fs.dirs || p in fs.files then (Fail(FileExists(p)), fs)
    else (Pass, fs.(dirs := fs.dirs + {p}))
  }

  /** `pathlib.Path(p).mkdir(parents=parents, exist_ok=existOk)`: on ENOENT with
      `parents`, create the parent chain and try again; on any other error
      succeed only if `existOk` and `p` is a directory. Files never change,
      and only `p` and directories above it are created (they stay created
      when a later step fails). */
  function Mkdir(fs: Fs, p: Path, parents: bool, existOk: bool): (r: (Outcome<Error>, Fs))
    ensures Valid(fs) ==> Valid(r.1)
    ensures r.1.files == fs.files && fs.dirs <= r.1.dirs
    ensures forall q :: q in r.1.dirs && q !in fs.dirs ==> IsPrefix(q, p)
    ensures r.0.Pass? ==> p in r.1.dirs
    decreases |p|, if parents then 1 else 0
  {
    var (made, fs1) := OsMkdir(fs, p);
    if made.Pass? then
      (Pass, fs1)
    else if made.error.FileNotFound? then
      if !parents || Parent(p) == p then
        (made, fs)
      else
        var (up, fs2) := Mkdir(fs, Parent(p), true, true);
        if up.Fail? then (up, fs2) else Mkdir(fs2, p, false, existOk)
    else if existOk && p in fs.dirs then
      (Pass, fs)
    else
      (made, fs)
  }

  /** The directories above a prefix of `q` are directories above `q`. */
  lemma PrefixesOfPrefix(p: Path, q: Path)
    requires IsPrefix(p, q)
    ensures Prefixes(p) <= Prefixes(q)
  {
    forall x | x in Prefixes(p) ensures x in Prefixes(q) {
      var k :| 0 <= k <= |p| && x == p[..k];
      assert x == q[..k];
    }
  }

  /** `mkdir` of `p` creates nothing outside a set that holds `p` and every
      directory above it. */
  lemma MkdirWithin(fs: Fs, p: Path, parents: bool, existOk: bool, s: set<Path>)
    requires Prefixes(p) <= s
    ensures Mkdir(fs, p, parents, existOk).1.dirs <= fs.dirs + s
  {
    var r := Mkdir(fs, p, parents, existOk);
    forall x | x in r.1.dirs && x !in fs.dirs ensures x in s {
      assert x == p[..|x|];
    }
  }

  /** Without `parents`, `mkdir` of a tree succeeds only below an existing directory. */
  lemma MkdirNeedsParent(fs: Fs, p: Path, existOk: bool)
    requires Valid(fs) && Mkdir(fs, p, false, existOk).0.Pass?
    ensures Parent(p) in fs.dirs
  {
    if p !in fs.dirs {
      assert OsMkdir(fs, p).0.Pass?;
    }
  }

  /** With no file on the way, `mkdir(parents=True, exist_ok=True)` succeeds
      and leaves exactly `p` and the directories above it existing. */
  lemma {:induction false} MkdirAll(fs: Fs, p: Path)
    requires Valid(fs)
    requires forall k :: 0 < k <= |p| ==> p[..k] !in fs.files
    ensures Mkdir(fs, p, true, true) == (Pass, fs.(dirs := fs.dirs + Prefixes(p)))
    decreases |p|
  {
    if p in fs.dirs {
      AncestorsExist(fs, p);
      assert fs.dirs + Prefixes(p) == fs.dirs;
    } else {
      assert p != [];
      PrefixesOfParent(p);
      var q := Parent(p);
      forall k | 0 < k <= |q| ensures q[..k] !in fs.files {
        assert q[..k] == p[..k];
      }
      if q in fs.dirs {
        AncestorsExist(fs, q);
        assert p !in fs.files by { assert p == p[..|p|]; }
        assert OsMkdir(fs, p) == (Pass, fs.(dirs := fs.dirs + {p}));
        assert fs.dirs + Prefixes(p) == fs.dirs + {p};
      } else {
        MkdirAll(fs, q);
        var fs2 := fs.(dirs := fs.dirs + Prefixes(q));
        assert p !in fs2.dirs;
        assert p !in fs.files by { assert p == p[..|p|]; }
        assert OsMkdir(fs, p).0 == Fail(FileNotFound(p));
        assert q == q[..|q|];
        assert q in fs2.dirs;
        assert OsMkdir(fs2, p) == (Pass, fs2.(dirs := fs2.dirs + {p}));
        assert Mkdir(fs2, p, false, true) == (Pass, fs2.(dirs := fs2.dirs + {p}));
        assert |q| < |p|;
        assert fs2.dirs + {p} == fs.dirs + Prefixes(p);
      }
    }
  }

  /** `mkdir` of an existing path: with `exist_ok` an existing directory is
      success with no change at all; anything else raises FileExistsError. */
  lemma MkdirExisting(fs: Fs, p: Path, parents: bool, existOk: bool)
    requires Valid(fs) && (p in fs.dirs || p in fs.files)
    ensures var r := Mkdir(fs, p, parents, existOk);
      && (existOk && p in fs.dirs ==> r == (Pass, fs))
      && (!existOk || p in fs.files ==> r == (Fail(FileExists(p)), fs))
  {
    var q := Parent(p);
    assert q in fs.dirs;
    AncestorsExist(fs, q);
    forall k | 0 < k < |p| ensures p[..k] !in fs.files {
      assert p[..k] == q[..k];
      assert p[..k] in Prefixes(q);
    }
    assert ResolveParent(fs, p).Pass?;
    assert OsMkdir(fs, p) == (Fail(FileExists(p)), fs);
  }

  /** A second `mkdir(exist_ok=True)` of a directory the first call made changes
      nothing and does not fail, whatever `parents` says. */
  lemma MkdirIdempotent(fs: Fs, p: Path, parents: bool, parents': bool)
    requires Valid(fs) && Mkdir(fs, p, parents, true).0.Pass?
    ensures var fs1 := Mkdir(fs, p, parents, true).1;
      Mkdir(fs1, p, parents', true) == (Pass, fs1)
  {
    MkdirExisting(Mkdir(fs, p, parents, true).1, p, parents', true);
  }

  predicate HasCompressedSuffix(name: string) {
    || (|name| >= 4 && name[|name| - 4..] == ".bz2")
    || (|name| >= 3 && name[|name| - 3..] == ".bz")
    || (|name| >= 5 && name[|name| - 5..] == ".tbz2")
    || (|name| >= 4 && name[|name| - 4..] == ".tbz")
  }

  /** The path of `f` with `.bz2` added to its last component. */
  function Compressed(f: Path): (c: Path)
    requires f != []
    ensures c != f && Parent(c) == Parent(f) && Basename(c) == Basename(f) + ".bz2"
  {
    Parent(f) + [Basename(f) + ".bz2"]
  }

  /** Whether `bzip2 -f f` replaces `f`: it must be a file, must not already
      carry a compressed suffix, and its output must not be a directory. */
  predicate Compresses(fs: Fs, f: Path) {
    f in fs.files && f != [] && !HasCompressedSuffix(Basename(f)) && Compressed(f) !in fs.dirs
  }

  /** Running `bzip2 -f -9` on `f` as a subprocess, whose exit status nobody
      checks: either `f` is replaced by `f.bz2` holding its compression (an
      existing `f.bz2` is overwritten), or nothing changes. */
  function Bzip2(fs: Fs, f: Path): (r: Fs)
    ensures Valid(fs) ==> Valid(r)
    ensures r.dirs == fs.dirs
    ensures Compresses(fs, f) ==>
      && f !in r.files
      && Compressed(f) in r.files && r.files[Compressed(f)] == Bzip2Of(fs.files[f])
      && (forall q :: q != f && q != Compressed(f) ==>
            (q in r.files <==> q in fs.files) && (q in r.files ==> r.files[q] == fs.files[q]))
    ensures !Compresses(fs, f) ==> r == fs
  {
    if Compresses(fs, f) then
      fs.(files := (fs.files - {f})[Compressed(f) := Bzip2Of(fs.files[f])])
    else
      fs
  }

  /** `bzip2` adds no file but its output. */
  lemma Bzip2Adds(fs: Fs, f: Path)
    requires Compresses(fs, f)
    ensures forall q :: q in Bzip2(fs, f).files ==> q in fs.files || q == Compressed(f)
  {
  }

  /** `open(p, 'w')` or `open(p, 'wb')` followed by writes: `p` becomes a file
      holding `content`, unless its directory cannot be reached or `p` is one. */
  function WriteFile(fs: Fs, p: Path, content: Content): (r: (Outcome<Error>, Fs))
    ensures Valid(fs) ==> Valid(r.1)
    ensures r.0.Pass? <==> p != [] && ResolveParent(fs, p).Pass? && p !in fs.dirs
    ensures r.0.Pass? ==> r.1 == fs.(files := fs.files[p := content])
    ensures r.0.Fail? ==> r.1 == fs
  {
    var resolved := ResolveParent(fs, p);
    if resolved.Fail? then (resolved, fs)
    else if p in fs.dirs || p == [] then (Fail(IsADirectory(p)), fs)
    else (Pass, fs.(files := fs.files[p := content]))
  }

  /** `fd.write(data)` on a file opened with `'wb'`. */
  function AppendBytes(fs: Fs, p: Path, data: seq<Byte>): (r: Fs)
    requires p in fs.files && fs.files[p].Bytes?
    ensures Valid(fs) ==> Valid(r)
    ensures r == fs.(files := fs.files[p := Bytes(fs.files[p].data + data)])
  {
    fs.(files := fs.files[p := Bytes(fs.files[p].data + data)])
  }

  /** `output.write(text)` on a file opened with `'w'`. */
  function AppendText(fs: Fs, p: Path, text: string): (r: Fs)
    requires p in fs.files && fs.files[p].Text?
    ensures Valid(fs) ==> Valid(r)
    ensures r == fs.(files := fs.files[p := Text(fs.files[p].text + text)])
  {
    fs.(files := fs.files[p := Text(fs.files[p].text + text)])
  }

  /** Opening `p` for reading. */
  function ReadFile(fs: Fs, p: Path): (r: Result<Content, Error>)
    ensures r.Ok? <==> p in fs.files
    ensures r.Ok? ==> r.value == fs.files[p]
  {
    if p in fs.files then Ok(fs.files[p])
    else if p in fs.dirs then Err(IsADirectory(p))
    else
      var resolved := ResolveParent(fs, p);
      if resolved.Fail? then Err(resolved.error) else Err(FileNotFound(p))
  }

  /** `os.rename(src, dst)` of a file; an existing file at `dst` is replaced.
      Moving a directory is not modelled and fails. */
  function Rename(fs: Fs, src: Path, dst: Path): (r: (Outcome<Error>, Fs))
    ensures Valid(fs) ==> Valid(r.1)
    ensures r.0.Pass? <==> src in fs.files && ResolveParent(fs, dst).Pass? && dst !in fs.dirs
    ensures r.0.Pass? ==> r.1 == fs.(files := (fs.files - {src})[dst := fs.files[src]])
    ensures r.0.Fail? ==> r.1 == fs
  {
    if src !in fs.files then
      (Fail(if src in fs.dirs then IsADirectory(src) else FileNotFound(src)), fs)
    else
      var resolved := ResolveParent(fs, dst);
      if resolved.Fail? then (resolved, fs)
      else if dst in fs.dirs then (Fail(IsADirectory(dst)), fs)
      else (Pass, fs.(files := (fs.files - {src})[dst := fs.files[src]]))
  }

  /** Where `shutil.move(src, dst)` puts `src`: inside `dst` if that is a directory. */
  function MoveTarget(fs: Fs, src: Path, dst: Path): Path {
    if dst in fs.dirs then dst + [Basename(src)] else dst
  }

  /** `shutil.move(src, dst)` of a file: into `dst` when it is a directory (an
      existing entry of that name there is an error), else onto `dst`. */
  function Move(fs: Fs, src: Path, dst: Path): (r: (Outcome<Error>, Fs))
    ensures Valid(fs) ==> Valid(r.1)
    ensures r.0.Pass? ==>
      var target := MoveTarget(fs, src, dst);
      src in fs.files && r.1 == fs.(files := (fs.files - {src})[target := fs.files[src]])
    ensures r.0.Fail? ==> r.1 == fs
    ensures dst in fs.dirs && (MoveTarget(fs, src, dst) in fs.dirs || MoveTarget(fs, src, dst) in fs.files) ==>
      r.0 == Fail(DestinationExists(MoveTarget(fs, src, dst)))
  {
    var target := MoveTarget(fs, src, dst);
    if dst in fs.dirs && (target in fs.dirs || target in fs.files) then
      (Fail(DestinationExists(target)), fs)
    else
      Rename(fs, src, target)
  }

  /** `shutil.move` keeps the directories and every file but its source. */
  lemma MoveKeeps(fs: Fs, src: Path, dst: Path)
    ensures Move(fs, src, dst).1.dirs == fs.dirs
    ensures forall q :: q in fs.files && q != src ==> q in Move(fs, src, dst).1.files
  {
  }

  /** A file in the working directory of a tree can be created unless a
      directory has its name. */
  lemma ResolveInCwd(fs: Fs, name: string)
    requires Valid(fs)
    ensures ResolveParent(fs, [name]).Pass?
  {
  }

  /** `shutil.move` of a file to `name` inside an existing directory of a tree,
      where no directory has the destination's name, is a plain rename. */
  lemma MoveInto(fs: Fs, src: Path, dir: Path, name: string)
    requires Valid(fs) && src in fs.files && dir in fs.dirs && dir + [name] !in fs.dirs
    ensures Move(fs, src, dir + [name]) == (Pass, fs.(files := (fs.files - {src})[dir + [name] := fs.files[src]]))
  {
    var dst := dir + [name];
    AncestorsExist(fs, dir);
    forall k | 0 < k < |dst| ensures dst[..k] !in fs.files {
      assert dst[..k] == dir[..k];
      assert dst[..k] in Prefixes(dir);
    }
  }
}
