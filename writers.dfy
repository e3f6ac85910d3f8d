/** The loops that write output files one piece at a time: the chunk loops of
    `download_url` and `Asset.get_csv`, and `json2jsonl`. */
module Writers {
  import opened Wrappers
  import opened Paths
  import opened Errors
  import opened FileSystem
  import opened Framing
  import opened TimeFormat

  /** Whether `open(p, 'w')` succeeds. */
  predicate CanCreate(fs: Fs, p: Path) {
    p != [] && ResolveParent(fs, p).Pass? && p !in fs.dirs
  }

  /** The chunk loop: `outpath` is opened for binary writing and each chunk
      is written in turn, so the file holds the chunks joined in order. */
  method WriteChunks(fs: Fs, outpath: Path, chunks: seq<seq<Byte>>) returns (o: Outcome<Error>, fs': Fs)
    ensures Valid(fs) ==> Valid(fs')
    ensures o.Pass? <==> CanCreate(fs, outpath)
    ensures o.Pass? ==> fs' == fs.(files := fs.files[outpath := Bytes(Concat(chunks))])
    ensures o.Fail? ==> fs' == fs
  {
    var created := WriteFile(fs, outpath, Bytes([]));
    o, fs' := created.0, created.1;
    if o.Fail? {
      return;
    }
    var i := 0;
    while i < |chunks|
      invariant 0 <= i <= |chunks|
      invariant Valid(fs) ==> Valid(fs')
      invariant fs' == fs.(files := fs.files[outpath := Bytes(Concat(chunks[..i]))])
    {
      fs' := AppendBytes(fs', outpath, chunks[i]);
      assert chunks[..i + 1] == chunks[..i] + [chunks[i]];
      ConcatSnoc(chunks[..i], chunks[i]);
      i := i + 1;
    }
    assert chunks[..|chunks|] == chunks;
  }

  /** What `json_stream` reads from `inputfile` once `outputfile` has been
      opened for writing: the same file, truncated, if the two names agree. */
  function SourceAfterOpen(fs: Fs, inputfile: Path, outputfile: Path): Content
    requires inputfile in fs.files
  {
    if inputfile == outputfile then Text("") else fs.files[inputfile]
  }

  /** `json2jsonl(inputfile, outputfile, downloadedAt)`: the output file holds
      each top-level element of the input, serialised, followed by a newline,
      in input order. `downloadedAt` is rendered and then not used: the
      records are written unchanged. `elements` stands for the parser (which
      elements the document holds) and `serialize` for `json.dumps`. */
  method Json2Jsonl<R>(fs: Fs, inputfile: Path, outputfile: Path, downloadedAt: AwareDateTime,
                       elements: Content -> seq<R>, serialize: R -> string)
    returns (o: Outcome<Error>, fs': Fs)
    requires ValidAware(downloadedAt)
    ensures Valid(fs) ==> Valid(fs')
    ensures o.Pass? <==> inputfile in fs.files && CanCreate(fs, outputfile)
    ensures o.Pass? ==>
      fs' == fs.(files := fs.files[outputfile :=
                   Text(Jsonl(elements(SourceAfterOpen(fs, inputfile, outputfile)), serialize))])
    ensures o.Fail? ==> fs' == fs
  {
    var stamp := IsoFormat(downloadedAt);
    var input := ReadFile(fs, inputfile);
    if input.Err? {
      return Fail(input.error), fs;
    }
    var created := WriteFile(fs, outputfile, Text(""));
    o, fs' := created.0, created.1;
    if o.Fail? {
      return;
    }
    var records := elements(fs'.files[inputfile]);
    assert fs'.files[inputfile] == SourceAfterOpen(fs, inputfile, outputfile);
    var i := 0;
    while i < |records|
      invariant 0 <= i <= |records|
      invariant Valid(fs) ==> Valid(fs')
      invariant fs' == fs.(files := fs.files[outputfile := Text(Jsonl(records[..i], serialize))])
    {
      fs' := AppendText(fs', outputfile, serialize(records[i]));
      fs' := AppendText(fs', outputfile, "\n");
      assert records[..i + 1] == records[..i] + [records[i]];
      JsonlSnoc(records[..i], records[i], serialize);
      i := i + 1;
    }
    assert records[..|records|] == records;
  }
}
