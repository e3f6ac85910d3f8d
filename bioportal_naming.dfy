/** The names the Bioportal download gives its artifacts. */
module BioportalNaming {
  import opened Paths
  import opened FileSystem
  import opened TimeFormat

  /** `make_filename(basename, now, extension)`: `basename_<isoformat>.extension`. */
  function MakeFilename(basename: string, now: AwareDateTime, extension: string): string
    requires ValidAware(now)
  {
    basename + "_" + IsoFormat(now) + "." + extension
  }

  /** The part every name of one run shares: everything before the extension. */
  function RunPrefix(basename: string, now: AwareDateTime): string
    requires ValidAware(now)
  {
    basename + "_" + IsoFormat(now) + "."
  }

  /** The names of one run are the shared prefix followed by the extension, so
      two of them are equal exactly when their extensions are. */
  lemma SameRunNames(basename: string, now: AwareDateTime, e1: string, e2: string)
    requires ValidAware(now)
    ensures MakeFilename(basename, now, e1) == RunPrefix(basename, now) + e1
    ensures MakeFilename(basename, now, e1) == MakeFilename(basename, now, e2) <==> e1 == e2
  {
    var p := RunPrefix(basename, now);
    assert MakeFilename(basename, now, e1) == p + e1;
    assert MakeFilename(basename, now, e2) == p + e2;
    if p + e1 == p + e2 {
      assert e1 == (p + e1)[|p|..];
      assert e2 == (p + e2)[|p|..];
    }
  }

  /** The timestamp carries `:` separators, so no Bioportal name is colon-free. */
  lemma NameHasColon(basename: string, now: AwareDateTime, extension: string)
    requires ValidAware(now)
    ensures ':' in MakeFilename(basename, now, extension)
  {
    IsoFormatLayout(now);
    var s := IsoFormat(now);
    var f := MakeFilename(basename, now, extension);
    assert f[|basename| + 1 + 13] == s[13];
  }

  /** The name of the deaths report saved with `extension`. */
  function DeathsName(now: AwareDateTime, extension: string): string
    requires ValidAware(now)
  {
    MakeFilename("deaths", now, extension)
  }

  /** The raw JSON, the JSON Lines and the Parquet file of one run are three
      different files. */
  lemma DeathsNamesDistinct(now: AwareDateTime)
    requires ValidAware(now)
    ensures DeathsName(now, "json") != DeathsName(now, "jsonl")
    ensures DeathsName(now, "json") != DeathsName(now, "parquet")
    ensures DeathsName(now, "jsonl") != DeathsName(now, "parquet")
  {
    SameRunNames("deaths", now, "json", "jsonl");
    SameRunNames("deaths", now, "json", "parquet");
    SameRunNames("deaths", now, "jsonl", "parquet");
  }

  /** The name `compress_file(file)` returns. It carries the suffix `bzip2`
      refuses to compress again. */
  function CompressedName(file: string): (c: string)
    ensures HasCompressedSuffix(c)
  {
    var c := file + ".bz2";
    assert c[|c| - 4..] == ".bz2";
    c
  }

  /** So a second `compress_file` on the returned name changes nothing. */
  lemma RecompressUnchanged(fs: Fs, file: string)
    ensures Bzip2(fs, InCwd(CompressedName(file))) == fs
  {
  }

  /** The returned name is where `bzip2` put the file. */
  lemma CompressedNameIsOutput(file: string)
    ensures Compressed(InCwd(file)) == InCwd(CompressedName(file))
  {
  }

  /** The compressed raw JSON is still distinct from the other two artifacts. */
  lemma CompressedJsonDistinct(now: AwareDateTime)
    requires ValidAware(now)
    ensures CompressedName(DeathsName(now, "json")) == DeathsName(now, "json.bz2")
    ensures CompressedName(DeathsName(now, "json")) != DeathsName(now, "jsonl")
    ensures CompressedName(DeathsName(now, "json")) != DeathsName(now, "parquet")
  {
    var p := RunPrefix("deaths", now);
    SameRunNames("deaths", now, "json", "json");
    assert CompressedName(DeathsName(now, "json")) == p + "json" + ".bz2";
    assert p + "json" + ".bz2" == p + "json.bz2";
    SameRunNames("deaths", now, "json.bz2", "jsonl");
    SameRunNames("deaths", now, "json.bz2", "parquet");
  }
}
