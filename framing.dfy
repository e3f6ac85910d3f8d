/** Record framing: the text `json2jsonl` produces from the top-level array
    elements, and the byte sequence the chunk loops leave in a file. */
module Framing {
  import opened Strings

  /** The pieces joined in order. */
  function Concat<T>(pieces: seq<seq<T>>): seq<T> {
    if pieces == [] then [] else pieces[0] + Concat(pieces[1..])
  }

  lemma {:induction false} ConcatAppend<T>(a: seq<seq<T>>, b: seq<seq<T>>)
    ensures Concat(a + b) == Concat(a) + Concat(b)
  {
    if a == [] {
      assert a + b == b;
    } else {
      assert (a + b)[0] == a[0];
      assert (a + b)[1..] == a[1..] + b;
      ConcatAppend(a[1..], b);
    }
  }

  /** One more piece extends the join by that piece. */
  lemma ConcatSnoc<T>(a: seq<seq<T>>, x: seq<T>)
    ensures Concat(a + [x]) == Concat(a) + x
  {
    ConcatAppend(a, [x]);
    assert [x][1..] == [];
  }

  /** The serialised records, in order. */
  function Serialized<R>(records: seq<R>, serialize: R -> string): (lines: seq<string>)
    ensures |lines| == |records|
  {
    seq(|records|, i requires 0 <= i < |records| => serialize(records[i]))
  }

  /** Each record as its line: the serialised record and a newline. */
  function Framed<R>(records: seq<R>, serialize: R -> string): (lines: seq<string>)
    ensures |lines| == |records|
  {
    seq(|records|, i requires 0 <= i < |records| => serialize(records[i]) + "\n")
  }

  /** The JSON Lines text for `records`. */
  function Jsonl<R>(records: seq<R>, serialize: R -> string): string {
    Concat(Framed(records, serialize))
  }

  predicate NoNewline<R>(records: seq<R>, serialize: R -> string) {
    forall i :: 0 <= i < |records| ==> '\n' !in serialize(records[i])
  }

  /** One more record adds its line at the end. */
  lemma JsonlSnoc<R>(records: seq<R>, r: R, serialize: R -> string)
    ensures Jsonl(records + [r], serialize) == Jsonl(records, serialize) + serialize(r) + "\n"
  {
    assert Framed(records + [r], serialize) == Framed(records, serialize) + [serialize(r) + "\n"];
    ConcatAppend(Framed(records, serialize), [serialize(r) + "\n"]);
    assert Concat([serialize(r) + "\n"]) == serialize(r) + "\n" + Concat<char>([]);
  }

  /** The first record's line comes first. */
  lemma JsonlCons<R>(records: seq<R>, serialize: R -> string)
    requires records != []
    ensures Jsonl(records, serialize) == serialize(records[0]) + "\n" + Jsonl(records[1..], serialize)
  {
    assert Framed(records, serialize)[1..] == Framed(records[1..], serialize);
  }

  /** With a serialiser that emits no raw newline, the output has exactly one
      newline per record. */
  lemma {:induction false} JsonlNewlineCount<R>(records: seq<R>, serialize: R -> string)
    requires NoNewline(records, serialize)
    ensures Count(Jsonl(records, serialize), '\n') == |records|
  {
    if records != [] {
      JsonlCons(records, serialize);
      var line := serialize(records[0]);
      assert Count(line, '\n') == 0;
      CountAppend(line, "\n", '\n');
      CountAppend(line + "\n", Jsonl(records[1..], serialize), '\n');
      JsonlNewlineCount(records[1..], serialize);
    }
  }

  /** Splitting the output on newlines gives back the serialised records in
      order, then the empty text after the last newline. */
  lemma {:induction false} SplitJsonl<R>(records: seq<R>, serialize: R -> string)
    requires NoNewline(records, serialize)
    ensures Split(Jsonl(records, serialize), '\n') == Serialized(records, serialize) + [""]
  {
    if records == [] {
      assert TakeUntil("", '\n') == "";
    } else {
      JsonlCons(records, serialize);
      SplitAt(serialize(records[0]), Jsonl(records[1..], serialize), '\n');
      SplitJsonl(records[1..], serialize);
      assert Serialized(records, serialize) == [serialize(records[0])] + Serialized(records[1..], serialize);
    }
  }
}
