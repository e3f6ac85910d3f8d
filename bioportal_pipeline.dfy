/** `deaths_download` and the helpers it calls: download the deaths report,
    transcode it to JSON Lines, compress the raw JSON and write the Parquet
    file, all in the working directory. */
module BioportalPipeline {
  import opened Wrappers
  import opened Paths
  import opened Errors
  import opened FileSystem
  import opened Framing
  import opened TimeFormat
  import opened BioportalNaming
  import opened Writers

  const BIOPORTAL_URL := "https://bioportal.salud.pr.gov/api/administration/reports"
  const DEATHS_ENDPOINT := BIOPORTAL_URL + "/deaths/summary"

  /** `download_url(url, outpath)`: the response to `url`, as the chunks
      `web(url)` stands for, written in order to `outpath`. */
  method DownloadUrl(fs: Fs, url: string, outpath: string, web: string -> seq<seq<Byte>>)
    returns (o: Outcome<Error>, fs': Fs)
    ensures Valid(fs) ==> Valid(fs')
    ensures o.Pass? <==> CanCreate(fs, InCwd(outpath))
    ensures o.Pass? ==> fs' == fs.(files := fs.files[InCwd(outpath) := Bytes(Concat(web(url)))])
    ensures o.Fail? ==> fs' == fs
  {
    var chunks := web(url);
    o, fs' := WriteChunks(fs, InCwd(outpath), chunks);
  }

  /** `compress_file(file)`: `bzip2 -f -9 file`, whose exit status nobody
      checks, and the name of its output. */
  method CompressFile(fs: Fs, file: string) returns (name: string, fs': Fs)
    ensures name == CompressedName(file)
    ensures Valid(fs) ==> Valid(fs')
    ensures Compresses(fs, InCwd(file)) ==>
      && InCwd(file) !in fs'.files
      && InCwd(name) in fs'.files && fs'.files[InCwd(name)] == Bzip2Of(fs.files[InCwd(file)])
    ensures fs' == Bzip2(fs, InCwd(file))
  {
    fs' := Bzip2(fs, InCwd(file));
    name := file + ".bz2";
    CompressedNameIsOutput(file);
  }

  /** The state after the download alone. */
  function Downloaded(fs: Fs, json: string, raw: Content): Fs {
    fs.(files := fs.files[[json] := raw])
  }

  /** The state after the download and the transcoding, before compression. */
  function Transcoded<R>(fs: Fs, json: string, jsonl: string, raw: Content,
                         elements: Content -> seq<R>, serialize: R -> string): Fs
  {
    fs.(files := fs.files[[json] := raw][[jsonl] := Text(Jsonl(elements(raw), serialize))])
  }

  /** Names under which the steps of `deaths_download` do not interfere:
      three distinct names, the raw one without a compressed suffix and its
      compressed name distinct from the other two. */
  predicate Separate(json: string, jsonl: string, parquet: string) {
    && json != jsonl && json != parquet && jsonl != parquet
    && CompressedName(json) != jsonl && CompressedName(json) != parquet
    && !HasCompressedSuffix(json)
  }

  /** The bookkeeping of the last three steps, on file names: compressing
      the raw file replaces it, and neither the JSON Lines file nor the
      Parquet file is touched by it. */
  lemma DeathsFiles(fs: Fs, json: string, jsonl: string, parquet: string, raw: Content, lines: Content)
    requires Separate(json, jsonl, parquet) && InCwd(CompressedName(json)) !in fs.dirs
    ensures var t := fs.(files := fs.files[[json] := raw][[jsonl] := lines]);
      var c := Bzip2(t, [json]);
      var f := c.(files := c.files[[parquet] := ParquetOf(lines)]);
      && [json] !in f.files
      && [CompressedName(json)] in f.files && f.files[[CompressedName(json)]] == Bzip2Of(raw)
      && [jsonl] in f.files && f.files[[jsonl]] == lines
      && [parquet] in f.files && f.files[[parquet]] == ParquetOf(lines)
  {
    CompressedNameIsOutput(json);
  }

  /** A name `make_filename` builds ends in its extension, so a JSON name
      carries no compressed suffix. */
  lemma JsonNotCompressed(now: AwareDateTime)
    requires ValidAware(now)
    ensures !HasCompressedSuffix(DeathsName(now, "json"))
  {
    var f := DeathsName(now, "json");
    assert f[|f| - 1] == 'n';
  }

  /** The names of one deaths run do not interfere. */
  lemma DeathsNamesSeparate(now: AwareDateTime)
    requires ValidAware(now)
    ensures Separate(DeathsName(now, "json"), DeathsName(now, "jsonl"), DeathsName(now, "parquet"))
  {
    DeathsNamesDistinct(now);
    CompressedJsonDistinct(now);
    JsonNotCompressed(now);
  }

  /** The last two steps of `deaths_download`: `compress_file(json)`, then
      the JSON Lines file read as a table and written as the Parquet file.
      Reading fails when the JSON Lines file is missing. */
  method CompressAndConvert(fs: Fs, json: string, jsonl: string, parquet: string)
    returns (o: Outcome<Error>, fs': Fs)
    ensures Valid(fs) ==> Valid(fs')
    ensures var c := Bzip2(fs, [json]);
      o.Pass? <==> [jsonl] in c.files && CanCreate(c, [parquet])
    ensures var c := Bzip2(fs, [json]);
      o.Pass? ==> fs' == c.(files := c.files[[parquet] := ParquetOf(c.files[[jsonl]])])
    ensures o.Fail? ==> fs' == Bzip2(fs, [json])
  {
    var compressed;
    compressed, fs' := CompressFile(fs, json);
    var table := ReadFile(fs', [jsonl]);
    if table.Err? {
      return Fail(table.error), fs';
    }
    var written := WriteFile(fs', [parquet], ParquetOf(table.value));
    o, fs' := written.0, written.1;
  }

  /** Compressing the raw file leaves the JSON Lines file as it was. */
  lemma CompressKeepsJsonl(t: Fs, json: string, jsonl: string)
    requires json != jsonl && CompressedName(json) != jsonl && [jsonl] in t.files
    ensures [jsonl] in Bzip2(t, [json]).files && Bzip2(t, [json]).files[[jsonl]] == t.files[[jsonl]]
  {
    CompressedNameIsOutput(json);
  }

  /** The first two steps of `deaths_download`: download `url` to `json`,
      then transcode it to `jsonl`. The transcoder reads the raw download. */
  method FetchAndTranscode<R>(fs: Fs, url: string, json: string, jsonl: string,
                              now: AwareDateTime, web: string -> seq<seq<Byte>>,
                              elements: Content -> seq<R>, serialize: R -> string)
    returns (o: Outcome<Error>, fs': Fs)
    requires ValidAware(now)
    requires json != jsonl
    ensures Valid(fs) ==> Valid(fs')
    ensures Valid(fs) ==> (o.Pass? <==> [json] !in fs.dirs && [jsonl] !in fs.dirs)
    ensures o.Pass? ==> fs' == Transcoded(fs, json, jsonl, Bytes(Concat(web(url))), elements, serialize)
    ensures o.Fail? && !CanCreate(fs, [json]) ==> fs' == fs
    ensures o.Fail? && CanCreate(fs, [json]) ==> fs' == Downloaded(fs, json, Bytes(Concat(web(url))))
  {
    if Valid(fs) {
      ResolveInCwd(fs, json);
      ResolveInCwd(fs, jsonl);
    }
    o, fs' := DownloadUrl(fs, url, json, web);
    if o.Fail? {
      return;
    }
    o, fs' := Json2Jsonl(fs', [json], [jsonl], now, elements, serialize);
  }

  /** The four steps of `deaths_download` on the names `json`, `jsonl` and
      `parquet`: download `url` to `json`, transcode it to `jsonl`, compress
      `json`, then read `jsonl` and write it as `parquet`. The transcoder
      reads the raw download before the compressor replaces it, and the
      Parquet file is made from the uncompressed JSON Lines text. */
  method DeathsSteps<R>(fs: Fs, url: string, json: string, jsonl: string, parquet: string,
                        now: AwareDateTime, web: string -> seq<seq<Byte>>,
                        elements: Content -> seq<R>, serialize: R -> string)
    returns (o: Outcome<Error>, fs': Fs)
    requires ValidAware(now)
    requires Separate(json, jsonl, parquet)
    ensures Valid(fs) ==> Valid(fs')
    ensures Valid(fs) ==> (o.Pass? <==> [json] !in fs.dirs && [jsonl] !in fs.dirs && [parquet] !in fs.dirs)
    ensures var raw := Bytes(Concat(web(url)));
      var lines := Text(Jsonl(elements(raw), serialize));
      var compressed := Bzip2(Transcoded(fs, json, jsonl, raw, elements, serialize), [json]);
      o.Pass? ==> fs' == compressed.(files := compressed.files[[parquet] := ParquetOf(lines)])
    ensures var raw := Bytes(Concat(web(url)));
      o.Fail? ==>
        || fs' == fs
        || fs' == Downloaded(fs, json, raw)
        || fs' == Bzip2(Transcoded(fs, json, jsonl, raw, elements, serialize), [json])
    ensures var raw := Bytes(Concat(web(url)));
      Valid(fs) && o.Fail? ==>
        && ([json] in fs.dirs ==> fs' == fs)
        && ([json] !in fs.dirs && [jsonl] in fs.dirs ==> fs' == Downloaded(fs, json, raw))
        && ([json] !in fs.dirs && [jsonl] !in fs.dirs ==>
              fs' == Bzip2(Transcoded(fs, json, jsonl, raw, elements, serialize), [json]))
  {
    if Valid(fs) {
      ResolveInCwd(fs, parquet);
    }
    o, fs' := FetchAndTranscode(fs, url, json, jsonl, now, web, elements, serialize);
    if o.Fail? {
      return;
    }
    ghost var transcoded := fs';
    CompressKeepsJsonl(transcoded, json, jsonl);
    ghost var compressed := Bzip2(transcoded, [json]);
    assert compressed.dirs == fs.dirs;
    o, fs' := CompressAndConvert(fs', json, jsonl, parquet);
  }

  /** `deaths_download(now, args)`: the steps above on the names
      `make_filename` gives `deaths` at `now` with the extensions `json`,
      `jsonl` and `parquet`, downloading the deaths summary endpoint. The
      sync directory option is not used. */
  method DeathsDownload<R>(fs: Fs, now: AwareDateTime, web: string -> seq<seq<Byte>>,
                           elements: Content -> seq<R>, serialize: R -> string)
    returns (o: Outcome<Error>, fs': Fs)
    requires ValidAware(now)
    ensures Valid(fs) ==> Valid(fs')
    ensures var json := DeathsName(now, "json");
      var jsonl := DeathsName(now, "jsonl");
      var parquet := DeathsName(now, "parquet");
      Valid(fs) ==> (o.Pass? <==> [json] !in fs.dirs && [jsonl] !in fs.dirs && [parquet] !in fs.dirs)
    ensures var json := DeathsName(now, "json");
      var raw := Bytes(Concat(web(DEATHS_ENDPOINT)));
      var lines := Text(Jsonl(elements(raw), serialize));
      var compressed := Bzip2(Transcoded(fs, json, DeathsName(now, "jsonl"), raw, elements, serialize), [json]);
      o.Pass? ==> fs' == compressed.(files := compressed.files[[DeathsName(now, "parquet")] := ParquetOf(lines)])
    ensures var json := DeathsName(now, "json");
      var jsonl := DeathsName(now, "jsonl");
      var raw := Bytes(Concat(web(DEATHS_ENDPOINT)));
      Valid(fs) && o.Fail? ==>
        && ([json] in fs.dirs ==> fs' == fs)
        && ([json] !in fs.dirs && [jsonl] in fs.dirs ==> fs' == Downloaded(fs, json, raw))
        && ([json] !in fs.dirs && [jsonl] !in fs.dirs ==>
              fs' == Bzip2(Transcoded(fs, json, jsonl, raw, elements, serialize), [json]))
    ensures var json := DeathsName(now, "json");
      var jsonl := DeathsName(now, "jsonl");
      var parquet := DeathsName(now, "parquet");
      var raw := Bytes(Concat(web(DEATHS_ENDPOINT)));
      var lines := Text(Jsonl(elements(raw), serialize));
      var bz := [DeathsName(now, "json.bz2")];
      o.Pass? && bz !in fs.dirs ==>
        && [json] !in fs'.files
        && bz in fs'.files && fs'.files[bz] == Bzip2Of(raw)
        && [jsonl] in fs'.files && fs'.files[[jsonl]] == lines
        && [parquet] in fs'.files && fs'.files[[parquet]] == ParquetOf(lines)
  {
    DeathsNamesSeparate(now);
    CompressedJsonDistinct(now);
    var json, jsonl, parquet := DeathsName(now, "json"), DeathsName(now, "jsonl"), DeathsName(now, "parquet");
    o, fs' := DeathsSteps(fs, DEATHS_ENDPOINT, json, jsonl, parquet, now, web, elements, serialize);
    if o.Pass? && [CompressedName(json)] !in fs.dirs {
      ghost var raw := Bytes(Concat(web(DEATHS_ENDPOINT)));
      DeathsFiles(fs, json, jsonl, parquet, raw, Text(Jsonl(elements(raw), serialize)));
    }
  }
}
