/**
 * formatDataSet of GPTHandler.py: the training file uploaded for a fine-tune,
 * one record per stored message. The record is plain string concatenation:
 * the prompt holds a raw line feed and the completion is not escaped, so the
 * text is not JSON Lines in the sense of RFC 8259 and is modelled only as
 * the concatenation it is.
 */
module DataSet {
  import opened Wrappers
  import opened Corpus

  const RecordPrefix: string := "{\"prompt\": \"\n\", \"completion\": \""
  const RecordSuffix: string := "\"}\n"

  function Record(text: string): string {
    RecordPrefix + text + RecordSuffix
  }

  /** The records of the rows, in row order. */
  function Jsonl(rows: seq<Row>): string {
    if rows == [] then "" else Record(rows[0].text) + Jsonl(rows[1..])
  }

  /** The file of a concatenation of row lists is the concatenation of their files. */
  lemma {:induction false} JsonlAppend(a: seq<Row>, b: seq<Row>)
    ensures Jsonl(a + b) == Jsonl(a) + Jsonl(b)
  {
    if a == [] {
      assert a + b == b;
    } else {
      assert (a + b)[1..] == a[1..] + b;
      JsonlAppend(a[1..], b);
    }
  }

  /** Adding one row at the end adds its record at the end. */
  lemma JsonlSnoc(rows: seq<Row>, r: Row)
    ensures Jsonl(rows + [r]) == Jsonl(rows) + Record(r.text)
  {
    JsonlAppend(rows, [r]);
    assert [r][1..] == [];
  }

  predicate QuoteFree(t: string) {
    '"' !in t
  }

  /** Index of the first double quote, or the length when there is none. */
  function QuoteIndex(s: string): (n: nat)
    ensures n <= |s|
    ensures forall i | 0 <= i < n :: s[i] != '"'
    ensures n < |s| ==> s[n] == '"'
  {
    if s == [] || s[0] == '"' then 0 else 1 + QuoteIndex(s[1..])
  }

  /**
   * Reads the completions back: each record is the fixed prefix, the text up
   * to the next double quote, and the fixed suffix.
   */
  function DecodeJsonl(s: string): Option<seq<string>>
    decreases |s|
  {
    if s == [] then Some([])
    else if |RecordPrefix| <= |s| && s[..|RecordPrefix|] == RecordPrefix then
      var body := s[|RecordPrefix|..];
      var n := QuoteIndex(body);
      if n + |RecordSuffix| <= |body| && body[n..n + |RecordSuffix|] == RecordSuffix then
        match DecodeJsonl(body[n + |RecordSuffix|..])
        case Some(texts) => Some([body[..n]] + texts)
        case None => None
      else None
    else None
  }

  lemma {:induction false} QuoteIndexOf(t: string, rest: string)
    requires QuoteFree(t) && rest != [] && rest[0] == '"'
    ensures QuoteIndex(t + rest) == |t|
  {
    if t == [] {
      assert t + rest == rest;
    } else {
      assert (t + rest)[1..] == t[1..] + rest;
      QuoteIndexOf(t[1..], rest);
    }
  }

  lemma DecodeRecord(t: string, rest: string)
    requires QuoteFree(t)
    ensures DecodeJsonl(Record(t) + rest) ==
      match DecodeJsonl(rest)
      case Some(texts) => Some([t] + texts)
      case None => None
  {
    var s := Record(t) + rest;
    assert s[..|RecordPrefix|] == RecordPrefix;
    var body := s[|RecordPrefix|..];
    assert body == t + (RecordSuffix + rest);
    QuoteIndexOf(t, RecordSuffix + rest);
    assert body[|t|..|t| + |RecordSuffix|] == RecordSuffix;
    assert body[|t| + |RecordSuffix|..] == rest;
    assert body[..|t|] == t;
  }

  /** When no text holds a double quote, every completion can be read back, in order. */
  lemma {:induction false} JsonlRoundTrip(rows: seq<Row>)
    requires forall i | 0 <= i < |rows| :: QuoteFree(rows[i].text)
    ensures DecodeJsonl(Jsonl(rows)) == Some(Texts(rows))
  {
    if rows == [] {
      assert Texts(rows) == [];
    } else {
      var tail := rows[1..];
      forall i | 0 <= i < |tail| ensures QuoteFree(tail[i].text) {
        assert tail[i] == rows[i + 1];
      }
      JsonlRoundTrip(tail);
      assert Jsonl(rows) == Record(rows[0].text) + Jsonl(tail);
      DecodeRecord(rows[0].text, Jsonl(tail));
      assert Texts(rows) == [rows[0].text] + Texts(tail);
    }
  }

  /**
   * A completion holding a double quote is not escaped, so its record never
   * reads back as that completion: reading stops at the first quote.
   */
  lemma QuotedTextMisread(k: int, t: string)
    requires '"' in t
    ensures DecodeJsonl(Jsonl([Row(k, t)])) != Some([t])
  {
    var rows := [Row(k, t)];
    var s := Jsonl(rows);
    assert rows[1..] == [];
    assert s == Record(t) + Jsonl(rows[1..]);
    assert s == RecordPrefix + t + RecordSuffix;
    var body := s[|RecordPrefix|..];
    assert body == t + RecordSuffix;
    var j :| 0 <= j < |t| && t[j] == '"';
    assert body[j] == '"';
    var n := QuoteIndex(body);
    assert n <= j;
    if DecodeJsonl(s).Some? {
      var texts := DecodeJsonl(s).value;
      assert |texts| > 0 && texts[0] == body[..n];
      assert |texts[0]| < |t|;
    }
  }

  /** The completion `a"b`: its record no longer parses at all. */
  lemma UnescapedQuoteBreaksRecord()
    ensures DecodeJsonl(Jsonl([Row(1, "a\"b")])) == None
  {
    var s := Jsonl([Row(1, "a\"b")]);
    assert [Row(1, "a\"b")][..0] == [];
    assert s == RecordPrefix + "a\"b" + RecordSuffix;
    var body := s[|RecordPrefix|..];
    assert body == "a\"b\"}\n";
    assert QuoteIndex(body) == 1 by {
      assert body[0] == 'a' && body[1] == '"';
    }
    assert body[1..4] != RecordSuffix by {
      assert body[2] == 'b';
    }
  }
}
