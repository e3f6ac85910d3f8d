/** Text renderings of civil times: the `strftime` stamp of the HHS file names
    and `datetime.isoformat()` of an aware time. */
module TimeFormat {
  import opened Digits
  import opened CivilTime

  /** `dt.strftime("%Y%m%d_%H%M")`; `%Y` is the year without padding
      (the C library's behaviour on Linux), the other fields two digits. */
  function Stamp(dt: DateTime): string
    requires Valid(dt)
  {
    Decimal(dt.year) + Padded(dt.month, 2) + Padded(dt.day, 2) + "_"
      + Padded(dt.hour, 2) + Padded(dt.minute, 2)
  }

  /** The stamp is digits, one underscore and four more digits: no colon, and
      13 characters for a four-digit year. */
  lemma StampShape(dt: DateTime)
    requires Valid(dt)
    ensures var s := Stamp(dt);
      && |s| >= 10 && s[|s| - 5] == '_'
      && AllDigits(s[..|s| - 5]) && AllDigits(s[|s| - 4..])
      && ':' !in s
      && (|s| == 13 <==> dt.year >= 1000)
  {
    var s := Stamp(dt);
    var date := Decimal(dt.year) + Padded(dt.month, 2) + Padded(dt.day, 2);
    var time := Padded(dt.hour, 2) + Padded(dt.minute, 2);
    assert s == date + "_" + time;
    assert s[..|s| - 5] == date;
    assert s[|s| - 4..] == time;
    assert forall i :: 0 <= i < |s| ==> s[i] == '_' || IsDigit(s[i]);
    if dt.year >= 1000 {
      DecimalIsPadded(dt.year, 4);
    } else {
      DecimalShort(dt.year);
    }
  }

  lemma DecimalShort(n: nat)
    requires n < 1000
    ensures |Decimal(n)| <= 3
  {
    if n >= 10 {
      DecimalShort(n / 10);
    }
  }

  /** For four-digit years the stamp determines year, month, day, hour and
      minute, and nothing else: the seconds are lost. */
  lemma StampInjective(a: DateTime, b: DateTime)
    requires Valid(a) && Valid(b) && a.year >= 1000 && b.year >= 1000
    ensures Stamp(a) == Stamp(b) <==>
      (a.year, a.month, a.day, a.hour, a.minute) == (b.year, b.month, b.day, b.hour, b.minute)
  {
    if Stamp(a) == Stamp(b) {
      DecimalIsPadded(a.year, 4);
      DecimalIsPadded(b.year, 4);
      var ya, ma, da, ha, ia := Padded(a.year, 4), Padded(a.month, 2), Padded(a.day, 2), Padded(a.hour, 2), Padded(a.minute, 2);
      var yb, mb, db, hb, ib := Padded(b.year, 4), Padded(b.month, 2), Padded(b.day, 2), Padded(b.hour, 2), Padded(b.minute, 2);
      assert ya + ma + da + "_" + ha + ia == yb + mb + db + "_" + hb + ib;
      SplitEqual(ya + ma + da + "_" + ha, ia, yb + mb + db + "_" + hb, ib);
      SplitEqual(ya + ma + da + "_", ha, yb + mb + db + "_", hb);
      SplitEqual(ya + ma + da, "_", yb + mb + db, "_");
      SplitEqual(ya + ma, da, yb + mb, db);
      SplitEqual(ya, ma, yb, mb);
      PaddedInjective(a.year, b.year, 4);
      PaddedInjective(a.month, b.month, 2);
      PaddedInjective(a.day, b.day, 2);
      PaddedInjective(a.hour, b.hour, 2);
      PaddedInjective(a.minute, b.minute, 2);
    }
  }

  /** An aware `datetime`: local fields and the UTC offset in seconds (the
      time-zone lookup that produces them is not modelled). */
  datatype AwareDateTime = Aware(local: DateTime, offset: int)

  predicate ValidAware(a: AwareDateTime) {
    Valid(a.local) && -SECONDS_PER_DAY < a.offset < SECONDS_PER_DAY
  }

  /** The `±HH:MM[:SS]` offset suffix of `isoformat` (sub-second offsets are not modelled). */
  function OffsetSuffix(offset: int): string
    requires -SECONDS_PER_DAY < offset < SECONDS_PER_DAY
  {
    var sign := if offset < 0 then "-" else "+";
    var a := if offset < 0 then -offset else offset;
    TimeOfDay(a);
    sign + OffsetClock(a / 3600, a % 3600 / 60, a % 60)
  }

  /** The `HH:MM[:SS]` of an offset: the seconds only when there are some. */
  function OffsetClock(h: nat, m: nat, sec: nat): string
    requires h < 100 && m < 100 && sec < 100
  {
    Padded(h, 2) + ":" + Padded(m, 2) + (if sec != 0 then ":" + Padded(sec, 2) else "")
  }

  lemma OffsetClockLayout(h: nat, m: nat, sec: nat)
    requires h < 100 && m < 100 && sec < 100
    ensures var c := OffsetClock(h, m, sec);
      && (|c| == 5 <==> sec == 0) && (|c| == 8 <==> sec != 0)
      && c[2] == ':' && AllDigits(c[0..2]) && AllDigits(c[3..5])
      && Value(c[0..2]) == h && Value(c[3..5]) == m
      && (|c| == 8 ==> c[5] == ':' && AllDigits(c[6..8]) && Value(c[6..8]) == sec)
  {
    var c := OffsetClock(h, m, sec);
    var hm := Padded(h, 2) + ":" + Padded(m, 2);
    assert c[..5] == hm;
    assert c[0..2] == hm[0..2] == Padded(h, 2);
    assert c[3..5] == hm[3..5] == Padded(m, 2);
    ValuePadded(h, 2);
    ValuePadded(m, 2);
    if sec != 0 {
      assert c == hm + ":" + Padded(sec, 2);
      assert c[6..8] == Padded(sec, 2);
      ValuePadded(sec, 2);
    }
  }

  /** `isoformat()` with the default separator `T` and `timespec='auto'`. */
  function IsoFormat(a: AwareDateTime): string
    requires ValidAware(a)
  {
    var t := a.local;
    IsoSeconds(t) + (if t.microsecond != 0 then "." + Padded(t.microsecond, 6) else "")
      + OffsetSuffix(a.offset)
  }

  /** The first 19 characters of `isoformat()`: date, `T` and time to the second. */
  function IsoSeconds(t: DateTime): string
    requires Valid(t)
  {
    Padded(t.year, 4) + "-" + Padded(t.month, 2) + "-" + Padded(t.day, 2)
      + "T" + Padded(t.hour, 2) + ":" + Padded(t.minute, 2) + ":" + Padded(t.second, 2)
  }

  lemma IsoSecondsLayout(t: DateTime)
    requires Valid(t)
    ensures var s := IsoSeconds(t);
      && |s| == 19
      && s[4] == '-' && s[7] == '-' && s[10] == 'T' && s[13] == ':' && s[16] == ':'
      && AllDigits(s[0..4]) && Value(s[0..4]) == t.year
      && AllDigits(s[5..7]) && Value(s[5..7]) == t.month
      && AllDigits(s[8..10]) && Value(s[8..10]) == t.day
      && AllDigits(s[11..13]) && Value(s[11..13]) == t.hour
      && AllDigits(s[14..16]) && Value(s[14..16]) == t.minute
      && AllDigits(s[17..19]) && Value(s[17..19]) == t.second
  {
    var s := IsoSeconds(t);
    assert s[0..4] == Padded(t.year, 4);
    assert s[5..7] == Padded(t.month, 2);
    assert s[8..10] == Padded(t.day, 2);
    assert s[11..13] == Padded(t.hour, 2);
    assert s[14..16] == Padded(t.minute, 2);
    assert s[17..19] == Padded(t.second, 2);
    ValuePadded(t.year, 4);
    ValuePadded(t.month, 2);
    ValuePadded(t.day, 2);
    ValuePadded(t.hour, 2);
    ValuePadded(t.minute, 2);
    ValuePadded(t.second, 2);
  }

  /** The layout of `isoformat()`: fixed separators, colons included, with each
      field readable back from its position, and the offset at the end. */
  lemma IsoFormatLayout(a: AwareDateTime)
    requires ValidAware(a)
    ensures var s := IsoFormat(a);
      && |s| >= 25
      && s[4] == '-' && s[7] == '-' && s[10] == 'T' && s[13] == ':' && s[16] == ':'
      && AllDigits(s[0..4]) && Value(s[0..4]) == a.local.year
      && AllDigits(s[5..7]) && Value(s[5..7]) == a.local.month
      && AllDigits(s[8..10]) && Value(s[8..10]) == a.local.day
      && AllDigits(s[11..13]) && Value(s[11..13]) == a.local.hour
      && AllDigits(s[14..16]) && Value(s[14..16]) == a.local.minute
      && AllDigits(s[17..19]) && Value(s[17..19]) == a.local.second
      && ':' in s
  {
    var h := IsoSeconds(a.local);
    var s := IsoFormat(a);
    IsoSecondsLayout(a.local);
    assert s[..19] == h;
    assert s[0..4] == h[0..4] && s[5..7] == h[5..7] && s[8..10] == h[8..10];
    assert s[11..13] == h[11..13] && s[14..16] == h[14..16] && s[17..19] == h[17..19];
    OffsetLayout(a.offset);
    assert s[13] == h[13];
  }

  /** The offset suffix reads back as its sign, hours, minutes and seconds. */
  lemma OffsetLayout(offset: int)
    requires -SECONDS_PER_DAY < offset < SECONDS_PER_DAY
    ensures var o := OffsetSuffix(offset);
      var a := if offset < 0 then -offset else offset;
      && (|o| == 6 || |o| == 9)
      && (o[0] == '-' <==> offset < 0) && (o[0] == '+' <==> offset >= 0)
      && o[3] == ':'
      && AllDigits(o[1..3]) && AllDigits(o[4..6])
      && (|o| == 6 ==> Value(o[1..3]) * 3600 + Value(o[4..6]) * 60 == a)
      && (|o| == 9 ==> o[6] == ':' && AllDigits(o[7..9])
                       && Value(o[1..3]) * 3600 + Value(o[4..6]) * 60 + Value(o[7..9]) == a)
  {
    var o := OffsetSuffix(offset);
    var a := if offset < 0 then -offset else offset;
    TimeOfDay(a);
    var h, m, sec := a / 3600, a % 3600 / 60, a % 60;
    var c := OffsetClock(h, m, sec);
    OffsetClockLayout(h, m, sec);
    assert o[1..] == c;
    assert o[1..3] == c[0..2] && o[4..6] == c[3..5];
    if sec != 0 {
      assert o[7..9] == c[6..8];
    }
  }

  /** Atlantic Standard Time, the offset of America/Puerto_Rico. */
  lemma PuertoRicoOffset()
    ensures OffsetSuffix(-4 * 3600) == "-04:00"
  {
    assert Padded(4, 2) == "04";
    assert Padded(0, 2) == "00";
  }
}
