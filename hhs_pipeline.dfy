/** `Asset.get_csv` and `download_datasets`: fetching each Socrata dataset as a
    time-stamped CSV file, converting it to Parquet, compressing it, and moving
    both artifacts into the versioned sync tree. */
module HhsPipeline {
  import opened Wrappers
  import opened Paths
  import opened Errors
  import opened FileSystem
  import opened Framing
  import CivilTime
  import opened TimeFormat
  import opened HhsNaming
  import opened AppToken
  import opened Writers

  /** `Asset(name, id)`: a dataset on a Socrata server. */
  datatype Asset = Asset(name: string, id: string)

  /** What the Socrata server answers during one run: the `rowsUpdatedAt`
      metadata field of each dataset id, and the body of each URL as the
      chunks `iter_content` yields. */
  datatype Server = Server(rowsUpdatedAt: string -> int, body: string -> seq<seq<Byte>>)

  predicate InRange(t: int) {
    CivilTime.MIN_TIMESTAMP <= t <= CivilTime.MAX_TIMESTAMP
  }

  /** State only ever grows in the ways a dataset step can change it:
      directories are never removed, and neither is any file outside the
      working directory itself. */
  predicate Grows(a: Fs, b: Fs) {
    a.dirs <= b.dirs && forall q :: q in a.files && |q| > 1 ==> q in b.files
  }

  /** `dataset.get_csv(client)`: the metadata timestamp is converted first, so
      an out-of-range value fails before anything is requested; then the CSV
      export URL is requested and its chunks are written to the returned name. */
  method GetCsv(fs: Fs, asset: Asset, domain: string, server: Server)
    returns (r: Result<string, Error>, requested: Option<string>, fs': Fs)
    ensures Valid(fs) ==> Valid(fs')
    ensures requested == (if InRange(server.rowsUpdatedAt(asset.id))
                          then Some(DownloadUrl(domain, asset.id)) else None)
    ensures var name := CsvFileName(asset.name, server.rowsUpdatedAt(asset.id));
      r.Ok? <==> name.Ok? && CanCreate(fs, InCwd(name.value))
    ensures r.Ok? ==>
      && r == CsvFileName(asset.name, server.rowsUpdatedAt(asset.id))
      && fs' == fs.(files := fs.files[InCwd(r.value) := Bytes(Concat(server.body(DownloadUrl(domain, asset.id))))])
    ensures r.Err? ==> fs' == fs
  {
    var rowsUpdatedAt := server.rowsUpdatedAt(asset.id);
    var updatedAt := CivilTime.UtcFromTimestamp(rowsUpdatedAt);
    if updatedAt.Err? {
      return Err(updatedAt.error), None, fs;
    }
    var url := DownloadUrl(domain, asset.id);
    requested := Some(url);
    var chunks := server.body(url);
    var outpath := asset.name + "_" + Stamp(updatedAt.value) + ".csv";
    assert CsvFileName(asset.name, rowsUpdatedAt) == Ok(outpath);
    var written;
    written, fs' := WriteChunks(fs, InCwd(outpath), chunks);
    if written.Fail? {
      return Err(written.error), requested, fs';
    }
    r := Ok(outpath);
  }

  /** The `HHS` directory inside the sync directory. */
  function HhsDir(sync: Path): Path {
    sync + ["HHS"]
  }

  /** The versioned directory of a dataset: `HHS`, its name, then `v2`. */
  function DatasetDir(sync: Path, name: string): Path {
    sync + ["HHS", name, "v2"]
  }

  function CsvDir(sync: Path, name: string): Path {
    DatasetDir(sync, name) + ["csv"]
  }

  function ParquetDir(sync: Path, name: string): Path {
    DatasetDir(sync, name) + ["parquet"]
  }

  /** The directories a dataset's placement leaves in place. */
  function PlacementDirs(sync: Path, name: string): set<Path> {
    Prefixes(DatasetDir(sync, name)) + {CsvDir(sync, name), ParquetDir(sync, name)}
  }

  /** No file stands where a directory on the way to `p` must be. */
  predicate NoFileOn(fs: Fs, p: Path) {
    forall k :: 0 < k <= |p| ==> p[..k] !in fs.files
  }

  /** `mkdir(exist_ok=True)` of a path whose parent is a directory of a tree
      succeeds and adds exactly that path, unless a file has the name. */
  lemma MkdirChild(fs: Fs, p: Path, parents: bool)
    requires Valid(fs) && Parent(p) in fs.dirs && p !in fs.files
    ensures Mkdir(fs, p, parents, true) == (Pass, fs.(dirs := fs.dirs + {p}))
  {
    AncestorsExist(fs, Parent(p));
    forall k | 0 < k < |p| ensures p[..k] !in fs.files {
      assert p[..k] == Parent(p)[..k];
      assert p[..k] in Prefixes(Parent(p));
    }
    if p in fs.dirs {
      assert fs.dirs + {p} == fs.dirs;
    }
  }

  /** The dataset's `v2`, `csv` and `parquet` steps inside an existing `HHS` directory. */
  lemma DatasetMkdirs(fs: Fs, sync: Path, name: string)
    requires Valid(fs) && HhsDir(sync) in fs.dirs
    requires NoFileOn(fs, CsvDir(sync, name)) && NoFileOn(fs, ParquetDir(sync, name))
    ensures var d := DatasetDir(sync, name);
      var fs3 := fs.(dirs := fs.dirs + Prefixes(d));
      var fs4 := fs3.(dirs := fs3.dirs + {CsvDir(sync, name)});
      && Mkdir(fs, d, true, true) == (Pass, fs3)
      && Mkdir(fs3, CsvDir(sync, name), false, true) == (Pass, fs4)
      && Mkdir(fs4, ParquetDir(sync, name), false, true) == (Pass, fs4.(dirs := fs4.dirs + {ParquetDir(sync, name)}))
  {
    var c := CsvDir(sync, name);
    var q := ParquetDir(sync, name);
    var d := DatasetDir(sync, name);
    forall k | 0 < k <= |d| ensures d[..k] !in fs.files {
      assert d[..k] == c[..k];
    }
    MkdirAll(fs, d);
    var fs3 := fs.(dirs := fs.dirs + Prefixes(d));
    assert d == d[..|d|];
    assert c == c[..|c|] && q == q[..|q|];
    MkdirChild(fs3, c, false);
    var fs4 := fs3.(dirs := fs3.dirs + {c});
    MkdirChild(fs4, q, false);
  }

  /** The sync directory and `HHS` steps below an existing parent. */
  lemma SyncMkdirs(fs: Fs, sync: Path)
    requires Valid(fs) && Parent(sync) in fs.dirs && sync !in fs.files && HhsDir(sync) !in fs.files
    ensures var fs1 := fs.(dirs := fs.dirs + {sync});
      && Mkdir(fs, sync, false, true) == (Pass, fs1)
      && Mkdir(fs1, HhsDir(sync), false, true) == (Pass, fs1.(dirs := fs1.dirs + {HhsDir(sync)}))
  {
    MkdirChild(fs, sync, false);
    MkdirChild(fs.(dirs := fs.dirs + {sync}), HhsDir(sync), false);
  }

  /** Every directory the five `mkdir` calls can create is a placement directory. */
  lemma PlacementPrefixes(sync: Path, name: string)
    ensures var placement := PlacementDirs(sync, name);
      && Prefixes(sync) <= placement && Prefixes(HhsDir(sync)) <= placement
      && Prefixes(DatasetDir(sync, name)) <= placement
      && Prefixes(CsvDir(sync, name)) <= placement && Prefixes(ParquetDir(sync, name)) <= placement
  {
    var d := DatasetDir(sync, name);
    assert IsPrefix(sync, d) by { assert sync == d[..|sync|]; }
    assert IsPrefix(HhsDir(sync), d) by { assert HhsDir(sync) == d[..|sync| + 1]; }
    PrefixesOfPrefix(sync, d);
    PrefixesOfPrefix(HhsDir(sync), d);
    PrefixesOfParent(CsvDir(sync, name));
    PrefixesOfParent(ParquetDir(sync, name));
  }

  /** Once the `csv` and `parquet` directories exist, and nothing but
      placement directories was added, exactly the placement directories
      were added, and no file can have been on their way. */
  lemma DirsPlaced(fs: Fs, fs2: Fs, sync: Path, name: string)
    requires Valid(fs) && Valid(fs2) && fs2.files == fs.files
    requires fs.dirs <= fs2.dirs <= fs.dirs + PlacementDirs(sync, name)
    requires CsvDir(sync, name) in fs2.dirs && ParquetDir(sync, name) in fs2.dirs
    ensures fs2 == fs.(dirs := fs.dirs + PlacementDirs(sync, name))
    ensures NoFileOn(fs, CsvDir(sync, name)) && NoFileOn(fs, ParquetDir(sync, name))
  {
    var c := CsvDir(sync, name);
    var q := ParquetDir(sync, name);
    AncestorsExist(fs2, c);
    AncestorsExist(fs2, q);
    PrefixesOfParent(c);
    forall k | 0 < k <= |c| ensures c[..k] !in fs.files {
      assert c[..k] in Prefixes(c);
    }
    forall k | 0 < k <= |q| ensures q[..k] !in fs.files {
      assert q[..k] in Prefixes(q);
    }
    assert fs2.dirs == fs.dirs + PlacementDirs(sync, name);
  }

  /** On a tree where the placement directories exist, the directory steps
      meet no obstacle and have nothing to add. */
  lemma PlacementExists(fs: Fs, sync: Path, name: string)
    requires Valid(fs) && PlacementDirs(sync, name) <= fs.dirs
    ensures Parent(sync) in fs.dirs
    ensures NoFileOn(fs, CsvDir(sync, name)) && NoFileOn(fs, ParquetDir(sync, name))
    ensures fs.(dirs := fs.dirs + PlacementDirs(sync, name)) == fs
  {
    PlacementPrefixes(sync, name);
    assert sync in Prefixes(sync) by { assert sync == sync[..|sync|]; }
    DirsPlaced(fs, fs, sync, name);
    assert fs.dirs + PlacementDirs(sync, name) == fs.dirs;
  }

  /** The directory steps of a dataset: the sync directory and `HHS` below it
      with `exist_ok=True`, the dataset's `v2` directory with `parents=True`
      as well, then `csv` and `parquet` inside it. The first failure stops,
      leaving the directories made so far. On a tree the calls succeed
      exactly when the sync directory's parent exists and no file blocks the
      `csv` or `parquet` directory's path, and then they add exactly the
      placement directories; run again, they change nothing. */
  method MakeDatasetDirs(fs: Fs, sync: Path, name: string) returns (o: Outcome<Error>, fs': Fs)
    ensures Valid(fs) ==> Valid(fs')
    ensures fs'.files == fs.files && fs.dirs <= fs'.dirs <= fs.dirs + PlacementDirs(sync, name)
    ensures Valid(fs) ==>
      (o.Pass? <==> Parent(sync) in fs.dirs && NoFileOn(fs, CsvDir(sync, name)) && NoFileOn(fs, ParquetDir(sync, name)))
    ensures Valid(fs) && o.Pass? ==> fs' == fs.(dirs := fs.dirs + PlacementDirs(sync, name))
    ensures Valid(fs) && PlacementDirs(sync, name) <= fs.dirs ==> o.Pass? && fs' == fs
  {
    var hhs, d, c, q := HhsDir(sync), DatasetDir(sync, name), CsvDir(sync, name), ParquetDir(sync, name);
    ghost var placement := PlacementDirs(sync, name);
    if Valid(fs) && Parent(sync) in fs.dirs && NoFileOn(fs, c) && NoFileOn(fs, q) {
      assert sync !in fs.files by { if sync != [] { assert sync == c[..|sync|]; } }
      assert hhs == c[..|sync| + 1];
      SyncMkdirs(fs, sync);
      var fs2 := fs.(dirs := fs.dirs + {sync} + {hhs});
      assert Valid(fs2);
      DatasetMkdirs(fs2, sync, name);
    }
    if Valid(fs) && placement <= fs.dirs {
      PlacementExists(fs, sync, name);
    }
    PlacementPrefixes(sync, name);

    var made := Mkdir(fs, sync, false, true);
    MkdirWithin(fs, sync, false, true, placement);
    o, fs' := made.0, made.1;
    if o.Fail? {
      return;
    }
    if Valid(fs) {
      MkdirNeedsParent(fs, sync, true);
    }
    made := Mkdir(fs', hhs, false, true);
    MkdirWithin(fs', hhs, false, true, placement);
    o, fs' := made.0, made.1;
    if o.Fail? {
      return;
    }
    made := Mkdir(fs', d, true, true);
    MkdirWithin(fs', d, true, true, placement);
    o, fs' := made.0, made.1;
    if o.Fail? {
      return;
    }
    made := Mkdir(fs', c, false, true);
    MkdirWithin(fs', c, false, true, placement);
    o, fs' := made.0, made.1;
    if o.Fail? {
      return;
    }
    ghost var fs4 := fs';
    made := Mkdir(fs', q, false, true);
    MkdirWithin(fs', q, false, true, placement);
    o, fs' := made.0, made.1;
    if o.Pass? && Valid(fs) {
      assert c in fs'.dirs;
      DirsPlaced(fs, fs', sync, name);
    }
  }

  /** The compressed CSV file's name: the CSV file's name followed by `.bz2`. */
  function Bz2Name(csv: string): string {
    csv + ".bz2"
  }

  /** The names of the three working-directory artifacts of a dataset are
      pairwise different, and `bzip2` accepts the CSV file's name. */
  lemma ArtifactNames(name: string, t: int)
    requires InRange(t)
    ensures var csv := CsvFileName(name, t).value;
      && !HasCompressedSuffix(csv)
      && csv != Bz2Name(csv) && csv != ParquetFileName(csv) && Bz2Name(csv) != ParquetFileName(csv)
  {
    var csv := CsvFileName(name, t).value;
    var root := name + "_" + CsvStamp(t);
    CsvFileNameShape(name, t);
    ParquetOfCsv(name, t);
    assert csv == root + ".csv";
    var pq := ParquetFileName(csv);
    assert pq == root + ".parquet";
    assert csv[|csv| - 1] == 'v' && pq[|pq| - 1] == 't';
    assert Bz2Name(csv)[|csv| + 3] == '2';
  }

  /** The state one successful dataset step leaves: the CSV file, its `.bz2`
      and the Parquet file are gone from the working directory; the
      compressed CSV is in the `csv` directory and the Parquet file in the
      `parquet` directory (inside a directory of the same name if one is in
      the way, as `shutil.move` does); the placement directories exist. */
  function Placed(fs: Fs, sync: Path, name: string, csv: string, data: Content): Fs {
    var bz := Bz2Name(csv);
    var pq := ParquetFileName(csv);
    var csvTarget := MoveTarget(fs, [bz], CsvDir(sync, name) + [bz]);
    var parquetTarget := MoveTarget(fs, [pq], ParquetDir(sync, name) + [pq]);
    Fs(fs.dirs + PlacementDirs(sync, name),
       (fs.files - {[csv], [bz], [pq]})[csvTarget := Bzip2Of(data)][parquetTarget := ParquetOf(data)])
  }

  /** Conditions under which a dataset step cannot fail: the sync directory's
      parent exists, no directory has the name of an artifact in the working
      directory or at its destination, the sync path does not start with an
      artifact's name, and no file blocks the placement directories. */
  predicate Ready(fs: Fs, sync: Path, name: string, csv: string) {
    var bz := Bz2Name(csv);
    var pq := ParquetFileName(csv);
    && Parent(sync) in fs.dirs
    && [csv] !in fs.dirs && [bz] !in fs.dirs && [pq] !in fs.dirs
    && DatasetDir(sync, name)[0] != csv && DatasetDir(sync, name)[0] != bz && DatasetDir(sync, name)[0] != pq
    && NoFileOn(fs, CsvDir(sync, name)) && NoFileOn(fs, ParquetDir(sync, name))
    && CsvDir(sync, name) + [bz] !in fs.dirs && ParquetDir(sync, name) + [pq] !in fs.dirs
  }

  /** The working-directory bookkeeping of a dataset step, on map keys. */
  lemma PlacedFiles<K, V>(m: map<K, V>, csv: K, pq: K, bz: K, t1: K, t2: K, data: V, parquet: V, packed: V)
    requires csv != pq && csv != bz && pq != bz
    requires t1 != csv && t1 != pq && t1 != bz && t2 != csv && t2 != pq && t2 != bz
    ensures var m1 := (m[csv := data][pq := parquet] - {csv})[bz := packed];
      (m1 - {bz, pq})[t1 := m1[bz]][t2 := m1[pq]] == (m - {csv, bz, pq})[t1 := packed][t2 := parquet]
  {
  }

  /** Two renames in a row, on map keys. */
  lemma TwoMoves<K, V>(m: map<K, V>, s1: K, t1: K, s2: K, t2: K)
    requires s1 in m && s2 in m && s1 != s2 && t1 != s2
    ensures ((m - {s1})[t1 := m[s1]] - {s2})[t2 := m[s2]] == (m - {s1, s2})[t1 := m[s1]][t2 := m[s2]]
  {
  }

  /** A destination one level below a placement directory is not itself a
      placement directory, so the directory steps do not change where
      `shutil.move` puts a file. */
  lemma TargetUnmoved(fs: Fs, sync: Path, name: string, src: Path, dir: Path, file: string)
    requires dir == CsvDir(sync, name) || dir == ParquetDir(sync, name)
    ensures MoveTarget(fs.(dirs := fs.dirs + PlacementDirs(sync, name)), src, dir + [file])
         == MoveTarget(fs, src, dir + [file])
  {
    var d := DatasetDir(sync, name);
    var dst := dir + [file];
    assert forall x :: x in Prefixes(d) ==> |x| <= |d|;
    assert dst !in PlacementDirs(sync, name);
  }

  /** The conversion steps of a dataset: `csv2parquet` reads the CSV file and
      writes the Parquet file named after it, then `bzip2` compresses the CSV
      file; nobody checks its exit status. */
  method ConvertAndCompress(fs: Fs, csvFile: string) returns (o: Outcome<Error>, fs': Fs)
    ensures Valid(fs) ==> Valid(fs')
    ensures Grows(fs, fs')
    ensures Valid(fs) ==> (o.Pass? <==> [csvFile] in fs.files && [ParquetFileName(csvFile)] !in fs.dirs)
    ensures o.Pass? ==>
      && [csvFile] in fs.files
      && fs' == Bzip2(fs.(files := fs.files[[ParquetFileName(csvFile)] := ParquetOf(fs.files[[csvFile]])]), [csvFile])
    ensures forall q :: q in fs'.files && q !in fs.files ==> q == [ParquetFileName(csvFile)] || q == [Bz2Name(csvFile)]
    ensures o.Fail? ==> fs' == fs
  {
    var csvPath := InCwd(csvFile);
    var parquetFile := ParquetFileName(csvFile);
    var source := ReadFile(fs, csvPath);
    if source.Err? {
      return Fail(source.error), fs;
    }
    var converted := WriteFile(fs, InCwd(parquetFile), ParquetOf(source.value));
    o, fs' := converted.0, converted.1;
    if Valid(fs) {
      ResolveInCwd(fs, parquetFile);
    }
    if o.Fail? {
      return;
    }
    fs' := Bzip2(fs', csvPath);
  }

  /** Two successful moves in a row, from the working directory into two
      directories: both sources were files and the state is both renames. */
  lemma MovesResult(fs: Fs, csvDir: Path, parquetDir: Path, bz: string, pq: string, fs5: Fs, fs6: Fs)
    requires csvDir != []
    requires Move(fs, [bz], csvDir + [bz]) == (Pass, fs5)
    requires Move(fs5, [pq], parquetDir + [pq]) == (Pass, fs6)
    ensures [bz] in fs.files && [pq] in fs.files
    ensures fs6 == Fs(fs.dirs, (fs.files - {[bz], [pq]})
                                 [MoveTarget(fs, [bz], csvDir + [bz]) := fs.files[[bz]]]
                                 [MoveTarget(fs, [pq], parquetDir + [pq]) := fs.files[[pq]]])
  {
    var t1 := MoveTarget(fs, [bz], csvDir + [bz]);
    assert fs5.files == (fs.files - {[bz]})[t1 := fs.files[[bz]]];
    assert |t1| > 1;
    TwoMoves(fs.files, [bz], t1, [pq], MoveTarget(fs, [pq], parquetDir + [pq]));
  }

  /** Into existing directories where no directory has a destination's name,
      both moves of two different files succeed. */
  lemma MovesSucceed(fs: Fs, csvDir: Path, parquetDir: Path, bz: string, pq: string)
    requires Valid(fs) && [bz] in fs.files && [pq] in fs.files && bz != pq
    requires csvDir in fs.dirs && parquetDir in fs.dirs
    requires csvDir + [bz] !in fs.dirs && parquetDir + [pq] !in fs.dirs
    ensures var (o5, fs5) := Move(fs, [bz], csvDir + [bz]);
      o5.Pass? && Move(fs5, [pq], parquetDir + [pq]).0.Pass?
  {
    MoveInto(fs, [bz], csvDir, bz);
    MoveInto(fs.(files := (fs.files - {[bz]})[csvDir + [bz] := fs.files[[bz]]]), [pq], parquetDir, pq);
  }

  /** The moves that end a dataset step: `shutil.move` of the compressed CSV
      file `bz` into `csvDir`, then of the Parquet file `pq` into `parquetDir`.
      The first failure stops: it leaves the tree as it was, or as the first
      move left it. */
  method MoveArtifacts(fs: Fs, csvDir: Path, parquetDir: Path, bz: string, pq: string)
    returns (o: Outcome<Error>, fs': Fs)
    requires csvDir != []
    ensures Valid(fs) ==> Valid(fs')
    ensures fs'.dirs == fs.dirs && forall q :: q in fs.files && |q| > 1 ==> q in fs'.files
    ensures o.Pass? ==>
      && [bz] in fs.files && [pq] in fs.files
      && fs' == Fs(fs.dirs, (fs.files - {[bz], [pq]})
                              [MoveTarget(fs, [bz], csvDir + [bz]) := fs.files[[bz]]]
                              [MoveTarget(fs, [pq], parquetDir + [pq]) := fs.files[[pq]]])
    ensures o.Fail? ==> fs' == Move(fs, [bz], csvDir + [bz]).1
    ensures (&& Valid(fs) && [bz] in fs.files && [pq] in fs.files && bz != pq
             && csvDir in fs.dirs && parquetDir in fs.dirs
             && csvDir + [bz] !in fs.dirs && parquetDir + [pq] !in fs.dirs)
      ==> o.Pass?
  {
    if Valid(fs) && [bz] in fs.files && [pq] in fs.files && bz != pq
       && csvDir in fs.dirs && parquetDir in fs.dirs
       && csvDir + [bz] !in fs.dirs && parquetDir + [pq] !in fs.dirs {
      MovesSucceed(fs, csvDir, parquetDir, bz, pq);
    }
    var moved := Move(fs, [bz], csvDir + [bz]);
    MoveKeeps(fs, [bz], csvDir + [bz]);
    o, fs' := moved.0, moved.1;
    if o.Fail? {
      return;
    }
    ghost var fs5 := fs';
    moved := Move(fs', [pq], parquetDir + [pq]);
    MoveKeeps(fs5, [pq], parquetDir + [pq]);
    o, fs' := moved.0, moved.1;
    if o.Pass? {
      MovesResult(fs, csvDir, parquetDir, bz, pq, fs5, fs');
    }
  }

  /** The placement steps of a dataset: the five `mkdir` calls, then the
      compressed CSV file `bz` moved into the `csv` directory and the Parquet
      file `pq` into the `parquet` directory. On a tree, a failure of the
      `mkdir` calls leaves the files as they were and some of the placement
      directories; a failure of the moves leaves all the placement
      directories and what the moves did. */
  method PlaceArtifacts(fs: Fs, sync: Path, name: string, bz: string, pq: string)
    returns (o: Outcome<Error>, fs': Fs)
    ensures Valid(fs) ==> Valid(fs')
    ensures Grows(fs, fs')
    ensures Valid(fs) && o.Pass? ==>
      && [bz] in fs.files && [pq] in fs.files
      && fs' == Fs(fs.dirs + PlacementDirs(sync, name),
                   (fs.files - {[bz], [pq]})
                     [MoveTarget(fs, [bz], CsvDir(sync, name) + [bz]) := fs.files[[bz]]]
                     [MoveTarget(fs, [pq], ParquetDir(sync, name) + [pq]) := fs.files[[pq]]])
    ensures Valid(fs) && o.Fail? ==>
      if Parent(sync) in fs.dirs && NoFileOn(fs, CsvDir(sync, name)) && NoFileOn(fs, ParquetDir(sync, name))
      then fs' == Move(fs.(dirs := fs.dirs + PlacementDirs(sync, name)), [bz], CsvDir(sync, name) + [bz]).1
      else fs'.files == fs.files && fs.dirs <= fs'.dirs <= fs.dirs + PlacementDirs(sync, name)
    ensures (&& Valid(fs) && [bz] in fs.files && [pq] in fs.files && bz != pq
             && Parent(sync) in fs.dirs && NoFileOn(fs, CsvDir(sync, name)) && NoFileOn(fs, ParquetDir(sync, name))
             && CsvDir(sync, name) + [bz] !in fs.dirs && ParquetDir(sync, name) + [pq] !in fs.dirs)
      ==> o.Pass?
  {
    var csvDir := CsvDir(sync, name);
    var parquetDir := ParquetDir(sync, name);
    o, fs' := MakeDatasetDirs(fs, sync, name);
    if o.Fail? {
      return;
    }
    TargetUnmoved(fs, sync, name, [bz], csvDir, bz);
    TargetUnmoved(fs, sync, name, [pq], parquetDir, pq);
    o, fs' := MoveArtifacts(fs', csvDir, parquetDir, bz, pq);
  }

  /** Files added to the working directory do not block a placement
      directory whose path does not start with one of their names. */
  lemma NoFileOnAfterCwdChanges(fs: Fs, fs2: Fs, dir: Path, a: string, b: string, c: string)
    requires NoFileOn(fs, dir) && dir != []
    requires forall q :: q in fs2.files ==> q in fs.files || q == [a] || q == [b] || q == [c]
    requires dir[0] != a && dir[0] != b && dir[0] != c
    ensures NoFileOn(fs2, dir)
  {
    forall k | 0 < k <= |dir| ensures dir[..k] !in fs2.files {
      assert dir[..k] !in fs.files;
      assert dir[..k][0] == dir[0];
    }
  }

  /** The state after `get_csv`, the conversion and the compression of the
      CSV file `csv` holding `data`. */
  function Converted(fs: Fs, csv: string, data: Content): Fs {
    Bzip2(fs.(files := fs.files[[csv] := data][[ParquetFileName(csv)] := ParquetOf(data)]), [csv])
  }

  /** The working directory after writing `csv` and `pq` and compressing
      `csv` to `bz`: a tree with the same directories, holding `bz` and `pq`... */
  lemma ConvertedFiles(fs: Fs, csv: string, bz: string, pq: string, data: Content)
    requires Valid(fs) && [csv] !in fs.dirs && [pq] !in fs.dirs && [bz] !in fs.dirs
    requires bz == csv + ".bz2" && !HasCompressedSuffix(csv) && csv != pq && bz != pq
    ensures var fs2 := Bzip2(fs.(files := fs.files[[csv] := data][[pq] := ParquetOf(data)]), [csv]);
      Valid(fs2) && fs2.dirs == fs.dirs && [bz] in fs2.files && [pq] in fs2.files
  {
    var before := fs.(files := fs.files[[csv] := data][[pq] := ParquetOf(data)]);
    WrittenInCwd(fs, csv, pq, data);
    CompressesInCwd(before, csv, bz);
    assert [pq] != [csv] && [pq] != [bz];
  }

  /** ... and no file besides the old ones and the three names. */
  lemma ConvertedOnly(fs: Fs, csv: string, bz: string, pq: string, data: Content)
    requires Valid(fs) && [csv] !in fs.dirs && [pq] !in fs.dirs && [bz] !in fs.dirs
    requires bz == csv + ".bz2" && !HasCompressedSuffix(csv)
    ensures var fs2 := Bzip2(fs.(files := fs.files[[csv] := data][[pq] := ParquetOf(data)]), [csv]);
      forall q :: q in fs2.files ==> q in fs.files || q == [csv] || q == [bz] || q == [pq]
  {
    var before := fs.(files := fs.files[[csv] := data][[pq] := ParquetOf(data)]);
    CompressesInCwd(before, csv, bz);
    Bzip2Adds(before, [csv]);
  }

  /** `bzip2` of a file in the working directory writes `csv.bz2` there. */
  lemma CompressesInCwd(fs: Fs, csv: string, bz: string)
    requires [csv] in fs.files && [bz] !in fs.dirs && bz == csv + ".bz2" && !HasCompressedSuffix(csv)
    ensures Compresses(fs, [csv]) && Compressed([csv]) == [bz]
  {
    assert Basename([csv]) == csv && Parent([csv]) == [];
  }

  /** Writing two files of the working directory keeps a tree. */
  lemma WrittenInCwd(fs: Fs, csv: string, pq: string, data: Content)
    requires Valid(fs) && [csv] !in fs.dirs && [pq] !in fs.dirs
    ensures Valid(fs.(files := fs.files[[csv] := data][[pq] := ParquetOf(data)]))
  {
  }

  /** On a ready tree the conversion leaves the placement steps nothing to
      fail on. */
  lemma ReadyToPlace(fs: Fs, sync: Path, name: string, csv: string, data: Content)
    requires Valid(fs) && Ready(fs, sync, name, csv)
    requires !HasCompressedSuffix(csv) && csv != Bz2Name(csv) && csv != ParquetFileName(csv) && Bz2Name(csv) != ParquetFileName(csv)
    ensures var fs2 := Converted(fs, csv, data);
      var bz := Bz2Name(csv);
      var pq := ParquetFileName(csv);
      && Valid(fs2) && [bz] in fs2.files && [pq] in fs2.files
      && Parent(sync) in fs2.dirs && NoFileOn(fs2, CsvDir(sync, name)) && NoFileOn(fs2, ParquetDir(sync, name))
      && CsvDir(sync, name) + [bz] !in fs2.dirs && ParquetDir(sync, name) + [pq] !in fs2.dirs
  {
    var bz := Bz2Name(csv);
    var pq := ParquetFileName(csv);
    ConvertedFiles(fs, csv, bz, pq, data);
    ConvertedOnly(fs, csv, bz, pq, data);
    var fs2 := Converted(fs, csv, data);
    var first := DatasetDir(sync, name)[0];
    assert CsvDir(sync, name)[0] == first && ParquetDir(sync, name)[0] == first;
    NoFileOnAfterCwdChanges(fs, fs2, CsvDir(sync, name), csv, bz, pq);
    NoFileOnAfterCwdChanges(fs, fs2, ParquetDir(sync, name), csv, bz, pq);
  }

  /** Placing the converted artifacts leaves the placed state. */
  lemma PlacedAfterConvert(fs: Fs, sync: Path, name: string, csv: string, data: Content, fs3: Fs)
    requires Valid(fs)
    requires !HasCompressedSuffix(csv) && csv != Bz2Name(csv) && csv != ParquetFileName(csv) && Bz2Name(csv) != ParquetFileName(csv)
    requires var fs2 := Converted(fs, csv, data);
      var bz := Bz2Name(csv);
      var pq := ParquetFileName(csv);
      && [bz] in fs2.files && [pq] in fs2.files
      && fs3 == Fs(fs2.dirs + PlacementDirs(sync, name),
                   (fs2.files - {[bz], [pq]})
                     [MoveTarget(fs2, [bz], CsvDir(sync, name) + [bz]) := fs2.files[[bz]]]
                     [MoveTarget(fs2, [pq], ParquetDir(sync, name) + [pq]) := fs2.files[[pq]]])
    ensures fs3 == Placed(fs, sync, name, csv, data)
  {
    var bz := Bz2Name(csv);
    var pq := ParquetFileName(csv);
    var before := fs.(files := fs.files[[csv] := data][[pq] := ParquetOf(data)]);
    var fs2 := Converted(fs, csv, data);
    assert Compressed([csv]) == [bz];
    assert Compresses(before, [csv]);
    assert fs2.dirs == fs.dirs;
    PlacedFiles(fs.files, [csv], [pq], [bz],
                MoveTarget(fs, [bz], CsvDir(sync, name) + [bz]),
                MoveTarget(fs, [pq], ParquetDir(sync, name) + [pq]),
                data, ParquetOf(data), Bzip2Of(data));
  }

  /** One iteration of `download_datasets`: `get_csv`, the Parquet
      conversion, `bzip2`, the five `mkdir` calls and the two moves, in that
      order. The first failure stops the step and leaves what the earlier
      calls did. On a tree, success leaves exactly the placed state, and the
      ready conditions guarantee success. A failure on a tree leaves one of
      four states, decided by the first step that fails: the tree unchanged
      (no name, or no CSV file); the CSV file written (the Parquet name is a
      directory); the converted state with some placement directories (a
      `mkdir` fails); or the converted state with every placement directory
      and what the moves did. */
  method ProcessDataset(fs: Fs, sync: Path, domain: string, asset: Asset, server: Server)
    returns (o: Outcome<Error>, requested: Option<string>, fs': Fs)
    ensures Valid(fs) ==> Valid(fs')
    ensures Grows(fs, fs')
    ensures var t := server.rowsUpdatedAt(asset.id);
      requested == (if InRange(t) then Some(DownloadUrl(domain, asset.id)) else None)
    ensures o.Pass? ==> InRange(server.rowsUpdatedAt(asset.id))
    ensures var t := server.rowsUpdatedAt(asset.id);
      Valid(fs) && o.Pass? ==>
        fs' == Placed(fs, sync, asset.name, CsvFileName(asset.name, t).value,
                      Bytes(Concat(server.body(DownloadUrl(domain, asset.id)))))
    ensures var t := server.rowsUpdatedAt(asset.id);
      Valid(fs) && InRange(t) && Ready(fs, sync, asset.name, CsvFileName(asset.name, t).value) ==> o.Pass?
    ensures var name := CsvFileName(asset.name, server.rowsUpdatedAt(asset.id));
      var data := Bytes(Concat(server.body(DownloadUrl(domain, asset.id))));
      Valid(fs) && o.Fail? ==>
        if name.Err? || !CanCreate(fs, InCwd(name.value)) then fs' == fs
        else if [ParquetFileName(name.value)] in fs.dirs then fs' == fs.(files := fs.files[[name.value] := data])
        else
          var fs2 := Converted(fs, name.value, data);
          var bz := Bz2Name(name.value);
          if Parent(sync) in fs2.dirs && NoFileOn(fs2, CsvDir(sync, asset.name)) && NoFileOn(fs2, ParquetDir(sync, asset.name))
          then fs' == Move(fs2.(dirs := fs2.dirs + PlacementDirs(sync, asset.name)), [bz], CsvDir(sync, asset.name) + [bz]).1
          else fs'.files == fs2.files && fs2.dirs <= fs'.dirs <= fs2.dirs + PlacementDirs(sync, asset.name)
  {
    ghost var t := server.rowsUpdatedAt(asset.id);
    ghost var data := Bytes(Concat(server.body(DownloadUrl(domain, asset.id))));
    var csv;
    csv, requested, fs' := GetCsv(fs, asset, domain, server);
    if csv.Err? {
      if Valid(fs) && InRange(t) {
        ResolveInCwd(fs, CsvFileName(asset.name, t).value);
      }
      return Fail(csv.error), requested, fs';
    }
    var csvFile := csv.value;
    ArtifactNames(asset.name, t);

    o, fs' := ConvertAndCompress(fs', csvFile);
    if o.Fail? {
      return;
    }
    assert fs' == Converted(fs, csvFile, data);
    if Valid(fs) && Ready(fs, sync, asset.name, csvFile) {
      ReadyToPlace(fs, sync, asset.name, csvFile, data);
    }
    ghost var fs2 := fs';

    o, fs' := PlaceArtifacts(fs', sync, asset.name, Bz2Name(csvFile), ParquetFileName(csvFile));
    if Valid(fs) && o.Pass? {
      PlacedAfterConvert(fs, sync, asset.name, csvFile, data, fs');
    }
  }

  /** A file moved onto `p` by `shutil.move` is there: at `p`, or inside `p`
      under its own name if `p` was a directory. */
  predicate Landed(fs: Fs, p: Path) {
    p in fs.files || (p in fs.dirs && p + [Basename(p)] in fs.files)
  }

  /** The artifacts of the CSV file `csv` of dataset `name`: its compressed CSV
      and its Parquet file have landed in their directories, and none of the
      three remains in the working directory. */
  predicate ArtifactsPlaced(fs: Fs, sync: Path, name: string, csv: string) {
    var bz := Bz2Name(csv);
    var pq := ParquetFileName(csv);
    && Landed(fs, CsvDir(sync, name) + [bz])
    && Landed(fs, ParquetDir(sync, name) + [pq])
    && [csv] !in fs.files && [bz] !in fs.files && [pq] !in fs.files
  }

  /** What a successful dataset step promises about the dataset: its
      timestamp was in range, so its URL was requested, and the artifacts of
      the CSV file it was saved as are placed. */
  predicate Delivered(fs: Fs, sync: Path, asset: Asset, server: Server) {
    var t := server.rowsUpdatedAt(asset.id);
    InRange(t) && ArtifactsPlaced(fs, sync, asset.name, CsvFileName(asset.name, t).value)
  }

  /** The placed state places the artifacts, adds no file to the working
      directory, and removes no directory and no file outside it. */
  lemma PlacedDelivers(fs: Fs, sync: Path, name: string, csv: string, data: Content)
    ensures var r := Placed(fs, sync, name, csv, data);
      && Grows(fs, r)
      && (forall q :: q in r.files && |q| <= 1 ==> q in fs.files)
      && ArtifactsPlaced(r, sync, name, csv)
  {
  }

  /** A dataset step that succeeded delivered its dataset. */
  lemma StepDelivers(fs: Fs, fs': Fs, sync: Path, domain: string, asset: Asset, server: Server)
    requires InRange(server.rowsUpdatedAt(asset.id))
    requires fs' == Placed(fs, sync, asset.name, CsvFileName(asset.name, server.rowsUpdatedAt(asset.id)).value,
                           Bytes(Concat(server.body(DownloadUrl(domain, asset.id)))))
    ensures Delivered(fs', sync, asset, server)
    ensures Grows(fs, fs') && forall q :: q in fs'.files && |q| <= 1 ==> q in fs.files
  {
    PlacedDelivers(fs, sync, asset.name, CsvFileName(asset.name, server.rowsUpdatedAt(asset.id)).value,
                   Bytes(Concat(server.body(DownloadUrl(domain, asset.id)))));
  }

  /** One pass of the loop of `download_datasets`, stated by what the loop
      keeps: a successful step delivers its dataset and adds no file to the
      working directory. */
  method DeliverDataset(fs: Fs, sync: Path, domain: string, asset: Asset, server: Server)
    returns (o: Outcome<Error>, requested: Option<string>, fs': Fs)
    ensures Valid(fs) ==> Valid(fs')
    ensures Grows(fs, fs')
    ensures var t := server.rowsUpdatedAt(asset.id);
      requested == (if InRange(t) then Some(DownloadUrl(domain, asset.id)) else None)
    ensures o.Pass? ==> InRange(server.rowsUpdatedAt(asset.id))
    ensures Valid(fs) && o.Pass? ==>
      && Delivered(fs', sync, asset, server)
      && forall q :: q in fs'.files && |q| <= 1 ==> q in fs.files
  {
    o, requested, fs' := ProcessDataset(fs, sync, domain, asset, server);
    if Valid(fs) && o.Pass? {
      StepDelivers(fs, fs', sync, domain, asset, server);
    }
  }

  /** Placed artifacts stay placed across a later step that removes nothing
      outside the working directory and adds nothing to it. */
  lemma ArtifactsStable(fs1: Fs, fs2: Fs, sync: Path, name: string, csv: string)
    requires ArtifactsPlaced(fs1, sync, name, csv) && Grows(fs1, fs2)
    requires forall q :: q in fs2.files && |q| <= 1 ==> q in fs1.files
    ensures ArtifactsPlaced(fs2, sync, name, csv)
  {
    var c := CsvDir(sync, name) + [Bz2Name(csv)];
    var q := ParquetDir(sync, name) + [ParquetFileName(csv)];
    assert |c + [Basename(c)]| > 1 && |q + [Basename(q)]| > 1;
  }

  /** Delivery survives such a step. */
  lemma DeliveredStable(fs1: Fs, fs2: Fs, sync: Path, asset: Asset, server: Server)
    requires Delivered(fs1, sync, asset, server) && Grows(fs1, fs2)
    requires forall q :: q in fs2.files && |q| <= 1 ==> q in fs1.files
    ensures Delivered(fs2, sync, asset, server)
  {
    ArtifactsStable(fs1, fs2, sync, asset.name, CsvFileName(asset.name, server.rowsUpdatedAt(asset.id)).value);
  }

  /** The datasets delivered before a step, and the one the step delivered,
      are all delivered after it. */
  lemma DeliveredExtend(before: Fs, after: Fs, sync: Path, datasets: seq<Asset>, i: nat, server: Server)
    requires i < |datasets|
    requires forall j :: 0 <= j < i ==> Delivered(before, sync, datasets[j], server)
    requires Delivered(after, sync, datasets[i], server)
    requires Grows(before, after) && forall q :: q in after.files && |q| <= 1 ==> q in before.files
    ensures forall j :: 0 <= j < i + 1 ==> Delivered(after, sync, datasets[j], server)
  {
    forall j | 0 <= j < i ensures Delivered(after, sync, datasets[j], server) {
      DeliveredStable(before, after, sync, datasets[j], server);
    }
  }

  lemma GrowsTrans(a: Fs, b: Fs, c: Fs)
    requires Grows(a, b) && Grows(b, c)
    ensures Grows(a, c)
  {
  }

  /** The download URLs of `datasets`, in order. */
  function Urls(domain: string, datasets: seq<Asset>): (urls: seq<string>)
    ensures |urls| == |datasets|
  {
    seq(|datasets|, i requires 0 <= i < |datasets| => DownloadUrl(domain, datasets[i].id))
  }

  lemma UrlsPrefix(domain: string, datasets: seq<Asset>, i: nat)
    requires i < |datasets|
    ensures Urls(domain, datasets[..i + 1]) == Urls(domain, datasets[..i]) + [DownloadUrl(domain, datasets[i].id)]
    ensures Urls(domain, datasets[..i + 1]) <= Urls(domain, datasets)
  {
  }

  /** The artifacts of a dataset have landed in their directories. Unlike
      `Delivered`, this says nothing of the working directory, where a later
      failed step may leave a file of the same name. */
  predicate ArtifactsLanded(fs: Fs, sync: Path, asset: Asset, server: Server) {
    var t := server.rowsUpdatedAt(asset.id);
    && InRange(t)
    && var csv := CsvFileName(asset.name, t).value;
       && Landed(fs, CsvDir(sync, asset.name) + [Bz2Name(csv)])
       && Landed(fs, ParquetDir(sync, asset.name) + [ParquetFileName(csv)])
  }

  /** A delivered dataset's artifacts stay where they landed across any
      later steps, failed ones included. */
  lemma LandedStable(fs1: Fs, fs2: Fs, sync: Path, asset: Asset, server: Server)
    requires Delivered(fs1, sync, asset, server) && Grows(fs1, fs2)
    ensures ArtifactsLanded(fs2, sync, asset, server)
  {
    var csv := CsvFileName(asset.name, server.rowsUpdatedAt(asset.id)).value;
    var c := CsvDir(sync, asset.name) + [Bz2Name(csv)];
    var q := ParquetDir(sync, asset.name) + [ParquetFileName(csv)];
    assert |c| > 1 && |q| > 1 && |c + [Basename(c)]| > 1 && |q + [Basename(q)]| > 1;
  }

  /** A run that failed at dataset `k`: it requested the exports of the
      datasets before `k`, and that of `k` when its timestamp was in range,
      and, when it started on a tree `fs`, the artifacts of every dataset
      before `k` have landed in the state `fs'` it ended in. */
  ghost predicate StoppedAt(fs: Fs, fs': Fs, sync: Path, domain: string, datasets: seq<Asset>, server: Server,
                            k: nat, requested: seq<string>)
    requires k < |datasets|
  {
    && requested == Urls(domain, datasets[..k])
                     + (if InRange(server.rowsUpdatedAt(datasets[k].id)) then [DownloadUrl(domain, datasets[k].id)] else [])
    && (Valid(fs) ==> forall j :: 0 <= j < k ==> ArtifactsLanded(fs', sync, datasets[j], server))
  }

  /** The run stopped at some dataset. */
  ghost predicate Stopped(fs: Fs, fs': Fs, sync: Path, domain: string, datasets: seq<Asset>, server: Server,
                          requested: seq<string>)
  {
    exists k :: 0 <= k < |datasets| && StoppedAt(fs, fs', sync, domain, datasets, server, k, requested)
  }

  /** A step at dataset `i` that fails after `i` delivered steps stops the
      run there. */
  lemma StopsAt(fs: Fs, before: Fs, fs': Fs, sync: Path, domain: string, datasets: seq<Asset>, server: Server,
                i: nat, done: seq<string>, url: Option<string>, requested: seq<string>)
    requires i < |datasets|
    requires done == Urls(domain, datasets[..i])
    requires url == (if InRange(server.rowsUpdatedAt(datasets[i].id)) then Some(DownloadUrl(domain, datasets[i].id)) else None)
    requires requested == done + (if url.Some? then [url.value] else [])
    requires Valid(fs) ==> forall j :: 0 <= j < i ==> Delivered(before, sync, datasets[j], server)
    requires Grows(before, fs')
    ensures Stopped(fs, fs', sync, domain, datasets, server, requested)
  {
    if Valid(fs) {
      forall j | 0 <= j < i ensures ArtifactsLanded(fs', sync, datasets[j], server) {
        LandedStable(before, fs', sync, datasets[j], server);
      }
    }
    assert StoppedAt(fs, fs', sync, domain, datasets, server, i, requested);
  }

  /** `download_datasets(args, server, datasets)`: the token is resolved
      first (an error there touches nothing), then each dataset is processed
      in list order; the first error ends the run and leaves what was done.
      A run that completes has requested every dataset's CSV export, in
      order, and has delivered every dataset. */
  method DownloadDatasets(fs: Fs, args: TokenArgs, environ: map<string, string>, sync: Path,
                          domain: string, datasets: seq<Asset>, server: Server)
    returns (o: Outcome<Error>, requested: seq<string>, fs': Fs)
    ensures GetSocrataAppToken(args, environ).Err? ==>
      o == Fail(GetSocrataAppToken(args, environ).error) && requested == [] && fs' == fs
    ensures GetSocrataAppTokenAsWritten(args, environ).Err? ==> o.Fail? && requested == [] && fs' == fs
    ensures Valid(fs) ==> Valid(fs')
    ensures Grows(fs, fs')
    ensures requested <= Urls(domain, datasets)
    ensures o.Pass? ==> GetSocrataAppToken(args, environ).Ok? && requested == Urls(domain, datasets)
    ensures Valid(fs) && o.Pass? ==> forall j :: 0 <= j < |datasets| ==> Delivered(fs', sync, datasets[j], server)
    ensures o.Fail? && GetSocrataAppToken(args, environ).Ok? ==>
      Stopped(fs, fs', sync, domain, datasets, server, requested)
  {
    AsWrittenDiffersOnlyInError(args, environ);
    var token := GetSocrataAppToken(args, environ);
    if token.Err? {
      return Fail(token.error), [], fs;
    }
    requested := [];
    fs' := fs;
    var i := 0;
    while i < |datasets|
      invariant 0 <= i <= |datasets|
      invariant Valid(fs) ==> Valid(fs')
      invariant Grows(fs, fs')
      invariant requested == Urls(domain, datasets[..i])
      invariant Valid(fs) ==> forall j :: 0 <= j < i ==> Delivered(fs', sync, datasets[j], server)
    {
      ghost var before, done := fs', requested;
      var step, url;
      step, url, fs' := DeliverDataset(fs', sync, domain, datasets[i], server);
      GrowsTrans(fs, before, fs');
      UrlsPrefix(domain, datasets, i);
      if url.Some? {
        requested := requested + [url.value];
      }
      if step.Fail? {
        assert requested <= Urls(domain, datasets[..i + 1]);
        StopsAt(fs, before, fs', sync, domain, datasets, server, i, done, url, requested);
        return Fail(step.error), requested, fs';
      }
      if Valid(fs) {
        DeliveredExtend(before, fs', sync, datasets, i, server);
      }
      i := i + 1;
    }
    assert datasets[..i] == datasets;
    o := Pass;
  }
}
