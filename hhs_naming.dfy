/** The names `Asset.get_csv` and `download_datasets` build for one Socrata
    dataset: the download URL, the time-stamped CSV file and its Parquet twin. */
module HhsNaming {
  import opened Wrappers
  import opened Errors
  import opened Digits
  import opened CivilTime
  import opened TimeFormat
  import opened Strings

  /** The CSV export URL of the dataset `id` on the Socrata host `domain`. */
  function DownloadUrl(domain: string, id: string): string {
    "https://" + domain + "/api/views/" + id + "/rows.csv?accessType=DOWNLOAD"
  }

  /** The host of an `https` URL: what follows the scheme up to the next `/`. */
  function UrlHost(url: string): string {
    if |url| >= 8 && url[..8] == "https://" then TakeUntil(url[8..], '/') else ""
  }

  /** The dataset identifier in a Socrata view URL on host `host`. */
  function ViewId(url: string, host: string): string {
    var prefix := "https://" + host + "/api/views/";
    if |url| >= |prefix| && url[..|prefix|] == prefix then TakeUntil(url[|prefix|..], '/') else ""
  }

  /** The URL requests the named domain... */
  lemma UrlHostOfDownloadUrl(domain: string, id: string)
    requires '/' !in domain
    ensures UrlHost(DownloadUrl(domain, id)) == domain
  {
    var url := DownloadUrl(domain, id);
    var afterHost := "/api/views/" + id + "/rows.csv?accessType=DOWNLOAD";
    assert url == "https://" + (domain + afterHost);
    assert url[..8] == "https://";
    assert url[8..] == domain + afterHost;
    TakeUntilPrefix(domain, afterHost, '/');
  }

  /** ... and the named dataset on it. */
  lemma ViewIdOfDownloadUrl(domain: string, id: string)
    requires '/' !in id
    ensures ViewId(DownloadUrl(domain, id), domain) == id
  {
    var url := DownloadUrl(domain, id);
    var tail := "/rows.csv?accessType=DOWNLOAD";
    var prefix := "https://" + domain + "/api/views/";
    assert url == prefix + (id + tail);
    assert url[..|prefix|] == prefix;
    assert url[|prefix|..] == id + tail;
    TakeUntilPrefix(id, tail, '/');
  }

  /** The CSV file name of a dataset: its name, `_`, the UTC time of
      `rowsUpdatedAt` stamped to the minute, and `.csv`. */
  function CsvFileName(name: string, rowsUpdatedAt: int): (r: Result<string, Error>)
    ensures r.Ok? <==> MIN_TIMESTAMP <= rowsUpdatedAt <= MAX_TIMESTAMP
    ensures r.Err? ==> r.error == TimestampOutOfRange(rowsUpdatedAt)
  {
    var updatedAt :- UtcFromTimestamp(rowsUpdatedAt);
    Ok(name + "_" + Stamp(updatedAt) + ".csv")
  }

  /** The stamp part of a file name. */
  function CsvStamp(rowsUpdatedAt: int): string
    requires MIN_TIMESTAMP <= rowsUpdatedAt <= MAX_TIMESTAMP
  {
    Stamp(UtcFromTimestamp(rowsUpdatedAt).value)
  }

  /** The name is the dataset name, `_`, a stamp of digits with one `_`, and
      `.csv`; with a four-digit year the suffix is 18 characters long, so the
      dataset name is what remains when it is stripped; a colon-free dataset
      name gives a colon-free file name. */
  lemma CsvFileNameShape(name: string, rowsUpdatedAt: int)
    requires MIN_TIMESTAMP <= rowsUpdatedAt <= MAX_TIMESTAMP
    ensures var f := CsvFileName(name, rowsUpdatedAt).value;
      && f == name + "_" + CsvStamp(rowsUpdatedAt) + ".csv"
      && (':' !in name ==> ':' !in f)
      && (UtcFromTimestamp(rowsUpdatedAt).value.year >= 1000 ==>
            |f| == |name| + 18 && f[..|f| - 18] == name && f[|f| - 18] == '_' && f[|f| - 4..] == ".csv")
  {
    var s := CsvStamp(rowsUpdatedAt);
    StampShape(UtcFromTimestamp(rowsUpdatedAt).value);
    SuffixedShape(name, s);
  }

  /** `name_stamp.csv` keeps `name` colon-free and, for a 13-character stamp,
      ends in an 18-character suffix. */
  lemma SuffixedShape(name: string, s: string)
    ensures var f := name + "_" + s + ".csv";
      && (':' !in name && ':' !in s ==> ':' !in f)
      && (|s| == 13 ==> |f| == |name| + 18 && f[..|f| - 18] == name && f[|f| - 18] == '_' && f[|f| - 4..] == ".csv")
  {
    var f := name + "_" + s + ".csv";
    if ':' !in name && ':' !in s {
      forall i | 0 <= i < |f| ensures f[i] != ':' {
        if i < |name| { assert f[i] == name[i]; }
        else if i == |name| { }
        else if i < |name| + 1 + |s| { assert f[i] == s[i - |name| - 1]; }
      }
    }
    if |s| == 13 {
      assert f[..|f| - 18] == name;
    }
  }

  /** The minute a Unix time falls in determines its UTC day, hour and minute. */
  lemma MinuteFields(t: int)
    ensures t / 86400 == t / 60 / 1440
    ensures t % 86400 / 3600 == t / 60 % 1440 / 60
    ensures t % 86400 % 3600 / 60 == t / 60 % 60
  {
    var q := t / 60;
    var r := t % 60;
    var days := q / 1440;
    var m := q % 1440;
    assert t == 60 * q + r;
    assert q == 1440 * days + m;
    assert t == 86400 * days + (60 * m + r);
    assert 0 <= 60 * m + r < 86400;
    assert t / 86400 == days;
    assert t % 86400 == 60 * m + r;
    var h := m / 60;
    var mi := m % 60;
    assert 60 * m + r == 3600 * h + (60 * mi + r);
    assert (60 * m + r) / 3600 == h;
    assert (60 * m + r) % 3600 == 60 * mi + r;
    assert q == 60 * (24 * days + h) + mi;
    assert q % 60 == mi;
  }

  /** Minute resolution: two `rowsUpdatedAt` values with four-digit years give
      the same file name exactly when they fall in the same UTC minute. */
  lemma CsvFileNameCollision(name: string, t1: int, t2: int)
    requires MIN_TIMESTAMP <= t1 <= MAX_TIMESTAMP && MIN_TIMESTAMP <= t2 <= MAX_TIMESTAMP
    requires UtcFromTimestamp(t1).value.year >= 1000 && UtcFromTimestamp(t2).value.year >= 1000
    ensures CsvFileName(name, t1) == CsvFileName(name, t2) <==> t1 / 60 == t2 / 60
  {
    var a := UtcFromTimestamp(t1).value;
    var b := UtcFromTimestamp(t2).value;
    StampInjective(a, b);
    if t1 / 60 == t2 / 60 {
      MinuteFields(t1);
      MinuteFields(t2);
    }
    if CsvFileName(name, t1) == CsvFileName(name, t2) {
      SplitEqual(name + "_" + Stamp(a), ".csv", name + "_" + Stamp(b), ".csv");
      SplitEqual(name + "_", Stamp(a), name + "_", Stamp(b));
      var da := DaysFromCivil(a.year, a.month, a.day);
      assert t1 == da * 86400 + a.hour * 3600 + a.minute * 60 + a.second;
      assert t2 == da * 86400 + a.hour * 3600 + a.minute * 60 + b.second;
      assert t1 / 60 == da * 1440 + a.hour * 60 + a.minute;
      assert t2 / 60 == da * 1440 + a.hour * 60 + a.minute;
    }
  }

  /** `os.path.splitext` on a POSIX path: the extension starts at the last dot
      of the last component, unless that component is only dots before it. */
  function SplitExt(p: string): (r: (string, string))
    ensures r.0 + r.1 == p
    ensures r.1 != "" ==> r.1[0] == '.' && forall i :: 1 <= i < |r.1| ==> r.1[i] != '.' && r.1[i] != '/'
  {
    var sepIndex := RFind(p, '/');
    var dotIndex := RFind(p, '.');
    if dotIndex > sepIndex && exists i :: sepIndex + 1 <= i < dotIndex && p[i] != '.' then
      (p[..dotIndex], p[dotIndex..])
    else
      (p, "")
  }

  /** Appending a dot and a dot-free, slash-free extension to a root that does
      not end in a dot or a slash is undone by `splitext`. */
  lemma SplitExtAppended(root: string, ext: string)
    requires root != [] && root[|root| - 1] != '.' && root[|root| - 1] != '/'
    requires ext != [] && ext[0] == '.' && forall i :: 1 <= i < |ext| ==> ext[i] != '.' && ext[i] != '/'
    ensures SplitExt(root + ext) == (root, ext)
  {
    var p := root + ext;
    var sepIndex := RFind(p, '/');
    var dotIndex := RFind(p, '.');
    assert p[|root|] == '.';
    assert dotIndex == |root|;
    assert sepIndex < |root| - 1;
    assert p[|root| - 1] != '.';
    assert p[..dotIndex] == root && p[dotIndex..] == ext;
  }

  /** The Parquet file's name: the root `splitext` finds in the CSV file's name, then `.parquet`. */
  function ParquetFileName(csvFile: string): string {
    SplitExt(csvFile).0 + ".parquet"
  }

  /** The Parquet file has the CSV file's name with `.csv` replaced by `.parquet`. */
  lemma ParquetOfCsv(name: string, rowsUpdatedAt: int)
    requires MIN_TIMESTAMP <= rowsUpdatedAt <= MAX_TIMESTAMP
    ensures var csv := CsvFileName(name, rowsUpdatedAt).value;
      && SplitExt(csv) == (name + "_" + CsvStamp(rowsUpdatedAt), ".csv")
      && ParquetFileName(csv) == name + "_" + CsvStamp(rowsUpdatedAt) + ".parquet"
  {
    var s := CsvStamp(rowsUpdatedAt);
    StampShape(UtcFromTimestamp(rowsUpdatedAt).value);
    var root := name + "_" + s;
    assert root[|root| - 1] == s[|s| - 1];
    assert IsDigit(s[|s| - 1]);
    SplitExtAppended(root, ".csv");
  }
}
