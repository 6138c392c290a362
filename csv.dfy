/** The CSV export of the client's history: the first record's keys as the header, then one
    line per record with its values joined by commas, in insertion order. */
module Csv {
  import opened Wrappers
  import opened Strings
  import opened Json

  predicate NoNullish(h: seq<JValue>) {
    forall k :: 0 <= k < |h| ==> !h[k].IsNullish()
  }

  lemma NoNullishAppend(h: seq<JValue>, r: JValue)
    requires NoNullish(h) && !r.IsNullish()
    ensures NoNullish(h + [r])
  {
  }

  /** `Object.keys(first).join(",")`. */
  function Header(first: JValue): string
    requires !first.IsNullish()
  {
    Join(Keys(first), ",")
  }

  /** `Object.values(item).join(",")`. */
  function Row(item: JValue): string
    requires !item.IsNullish()
  {
    Join(JoinStrings(Values(item)), ",")
  }

  /** A record's row as one line of the export. */
  function Line(item: JValue): string
    requires !item.IsNullish()
  {
    Row(item) + "\n"
  }

  /** Every record's line, in history order. */
  function Rows(h: seq<JValue>): string
    requires NoNullish(h)
  {
    if h == [] then "" else Rows(h[..|h| - 1]) + Line(h[|h| - 1])
  }

  /** The exported text; an empty history exports nothing. */
  function CsvText(h: seq<JValue>): Option<string>
    requires NoNullish(h)
  {
    if h == [] then None else Some(Header(h[0]) + "\n" + Rows(h))
  }

  lemma ConcatAssoc(a: string, b: string, c: string)
    ensures (a + b) + c == a + (b + c)
  {
  }

  /** One more record adds its line to the rows. */
  lemma RowsStep(h: seq<JValue>, i: nat)
    requires NoNullish(h) && i < |h|
    ensures NoNullish(h[..i]) && NoNullish(h[..i + 1])
    ensures Rows(h[..i + 1]) == Rows(h[..i]) + Line(h[i])
  {
    assert h[..i + 1][..i] == h[..i];
  }

  /** The rows of two consecutive stretches of history are the rows of each, one after the
      other. */
  lemma {:induction false} RowsAppend(a: seq<JValue>, b: seq<JValue>)
    requires NoNullish(a) && NoNullish(b)
    ensures NoNullish(a + b)
    ensures Rows(a + b) == Rows(a) + Rows(b)
    decreases |b|
  {
    if b != [] {
      var b' := b[..|b| - 1];
      assert (a + b)[..|a + b| - 1] == a + b';
      RowsAppend(a, b');
    } else {
      assert a + b == a;
    }
  }

  /** Once there is a history, a new record leaves the header alone and adds exactly its own
      row at the end of the export. */
  lemma CsvAppend(h: seq<JValue>, r: JValue)
    requires NoNullish(h) && h != [] && !r.IsNullish()
    ensures NoNullish(h + [r])
    ensures CsvText(h + [r]) == Some(CsvText(h).value + Line(r))
  {
    var h' := h + [r];
    assert h'[..|h'| - 1] == h;
    assert h'[0] == h[0];
    var hd := Header(h[0]) + "\n";
    calc {
      CsvText(h').value;
      hd + Rows(h');
      hd + (Rows(h) + Line(r));
      (hd + Rows(h)) + Line(r);
    }
  }

  /** An export starts with the first record's header, whatever was received later. */
  lemma {:induction false} HeaderIsFirstRecords(h: seq<JValue>, later: seq<JValue>)
    requires NoNullish(h) && NoNullish(later) && h != []
    ensures NoNullish(h + later)
    ensures StartsWith(CsvText(h + later).value, Header(h[0]) + "\n" + Rows(h))
  {
    RowsAppend(h, later);
    assert (h + later)[0] == h[0];
    var hd := Header(h[0]) + "\n";
    ConcatAssoc(hd, Rows(h), Rows(later));
    PrefixOfConcat(hd + Rows(h), Rows(later));
  }

  lemma PrefixOfConcat(a: string, b: string)
    ensures StartsWith(a + b, a)
  {
    assert (a + b)[..|a|] == a;
  }

  /** The export button's handler: the header line, then one line per record appended in a
      loop. */
  method Export(history: seq<JValue>) returns (csv: Option<string>)
    requires NoNullish(history)
    ensures csv == CsvText(history)
  {
    if |history| == 0 {
      return None;
    }
    var text := Header(history[0]) + "\n";
    ghost var hd := text;
    var i := 0;
    while i < |history|
      invariant 0 <= i <= |history|
      invariant text == hd + Rows(history[..i])
    {
      RowsStep(history, i);
      ConcatAssoc(hd, Rows(history[..i]), Line(history[i]));
      text := text + Line(history[i]);
      i := i + 1;
    }
    assert history[..i] == history;
    return Some(text);
  }
}
