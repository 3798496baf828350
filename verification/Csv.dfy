/**
 * CSV rows as csv.util.ts writes them, and a reader for one record after the grammar of section 2 of
 * RFC 4180: fields between commas, a quoted field holding anything with its quotes doubled.
 */
module Csv {
  import opened Options

  const QUOTE := '"'

  predicate NeedsQuotes(c: char) {
    c == QUOTE || c == ',' || c == '\n' || c == '\r'
  }

  /** `replace(/"/g, '""')`. */
  function DoubleQuotes(s: string): string {
    if s == "" then ""
    else if s[0] == QUOTE then [QUOTE, QUOTE] + DoubleQuotes(s[1..])
    else [s[0]] + DoubleQuotes(s[1..])
  }

  /** `escapeCsv`. */
  function Escape(s: string): string {
    if exists c <- s :: NeedsQuotes(c) then [QUOTE] + DoubleQuotes(s) + [QUOTE] else s
  }

  /** `toCsvRow`. */
  function Row(fields: seq<string>): string {
    if fields == [] then "" else
    if |fields| == 1 then Escape(fields[0]) else Escape(fields[0]) + "," + Row(fields[1..])
  }

  /** A field is quoted only when it holds a comma, a quote or a line break; any other is written as it is. */
  lemma QuotedIffNeeded(s: string)
    ensures (',' in s || '"' in s || '\n' in s || '\r' in s) ==> |Escape(s)| >= |s| + 2 && Escape(s)[0] == '"' == Escape(s)[|Escape(s)| - 1]
    ensures !(',' in s || '"' in s || '\n' in s || '\r' in s) ==> Escape(s) == s
  {
    DoublingLengthens(s);
    if c :| c in s && NeedsQuotes(c) { assert c == ',' || c == '"' || c == '\n' || c == '\r'; }
    assert NeedsQuotes(',') && NeedsQuotes('"') && NeedsQuotes('\n') && NeedsQuotes('\r');
  }

  lemma {:induction false} DoublingLengthens(s: string)
    ensures |DoubleQuotes(s)| >= |s|
  {
    if s != "" { DoublingLengthens(s[1..]); }
  }

  // ---- Reading a record ----

  /** A field, and what follows it. */
  datatype Read = Read(field: string, rest: string)

  /** What follows an opening quote, up to the quote that closes it. */
  function ReadQuoted(s: string): Option<Read> {
    if s == "" then None
    else if s[0] != QUOTE then
      var read := ReadQuoted(s[1..]);
      if read.None? then None else Some(Read([s[0]] + read.value.field, read.value.rest))
    else if |s| > 1 && s[1] == QUOTE then
      var read := ReadQuoted(s[2..]);
      if read.None? then None else Some(Read([QUOTE] + read.value.field, read.value.rest))
    else Some(Read("", s[1..]))
  }

  function ReadPlain(s: string): (read: Read)
    ensures |read.rest| <= |s|
  {
    if s == "" || NeedsQuotes(s[0]) then Read("", s)
    else var read := ReadPlain(s[1..]); Read([s[0]] + read.field, read.rest)
  }

  function ReadField(s: string): Option<Read> {
    if s != "" && s[0] == QUOTE then ReadQuoted(s[1..]) else Some(ReadPlain(s))
  }

  lemma {:induction false} ReadQuotedShortens(s: string)
    ensures ReadQuoted(s).Some? ==> |ReadQuoted(s).value.rest| < |s|
  {
    if s != "" {
      if s[0] != QUOTE { ReadQuotedShortens(s[1..]); }
      else if |s| > 1 && s[1] == QUOTE { ReadQuotedShortens(s[2..]); }
    }
  }

  /** A record ends where the text does; anything but a comma after a field is an error. */
  function ReadRecord(s: string): Option<seq<string>>
    decreases |s|
  {
    ReadQuotedShortens(if s != "" then s[1..] else s);
    match ReadField(s)
    case None => None
    case Some(read) =>
      if read.rest == "" then Some([read.field])
      else if read.rest[0] != ',' then None
      else
        var others := ReadRecord(read.rest[1..]);
        if others.None? then None else Some([read.field] + others.value)
  }

  // ---- Round trip ----

  /** What may follow a field in a row. */
  predicate Follows(rest: string) {
    rest == "" || rest[0] == ','
  }

  lemma {:induction false} QuotedReadsBack(s: string, rest: string)
    requires Follows(rest)
    ensures ReadQuoted(DoubleQuotes(s) + [QUOTE] + rest) == Some(Read(s, rest))
  {
    var text := DoubleQuotes(s) + [QUOTE] + rest;
    if s == "" {
      assert text == [QUOTE] + rest && text[1..] == rest;
    } else {
      QuotedReadsBack(s[1..], rest);
      var tail := DoubleQuotes(s[1..]) + [QUOTE] + rest;
      if s[0] == QUOTE {
        assert text == [QUOTE, QUOTE] + tail && text[2..] == tail;
      } else {
        assert text == [s[0]] + tail && text[1..] == tail;
      }
      assert s == [s[0]] + s[1..];
    }
  }

  lemma {:induction false} PlainReadsBack(s: string, rest: string)
    requires Follows(rest) && forall c <- s :: !NeedsQuotes(c)
    ensures ReadPlain(s + rest) == Read(s, rest)
  {
    if s == "" {
      assert s + rest == rest;
    } else {
      assert s[0] in s && forall c <- s[1..] :: c in s;
      PlainReadsBack(s[1..], rest);
      assert (s + rest)[1..] == s[1..] + rest && s == [s[0]] + s[1..];
    }
  }

  lemma FieldReadsBack(s: string, rest: string)
    requires Follows(rest)
    ensures ReadField(Escape(s) + rest) == Some(Read(s, rest))
  {
    hide ReadQuoted, ReadPlain, DoubleQuotes, NeedsQuotes;
    if exists c <- s :: NeedsQuotes(c) {
      var quoted := DoubleQuotes(s) + [QUOTE] + rest;
      QuotedReadsBack(s, rest);
      assert Escape(s) + rest == [QUOTE] + quoted && ([QUOTE] + quoted)[1..] == quoted;
    } else {
      PlainReadsBack(s, rest);
      PlainStart(s, rest);
    }
  }

  /** A field written as it is does not begin with a quote. */
  lemma PlainStart(s: string, rest: string)
    requires Follows(rest) && forall c <- s :: !NeedsQuotes(c)
    ensures s + rest == "" || (s + rest)[0] != QUOTE
  {
    if s != "" { assert s[0] in s; }
  }

  /** Every row reads back as exactly the fields it was written from. */
  lemma {:induction false} RowReadsBack(fields: seq<string>)
    requires fields != []
    ensures ReadRecord(Row(fields)) == Some(fields)
    decreases |fields|
  {
    if |fields| == 1 {
      FieldReadsBack(fields[0], "");
      assert Escape(fields[0]) + "" == Row(fields) && fields == [fields[0]];
    } else {
      var rest := "," + Row(fields[1..]);
      FieldReadsBack(fields[0], rest);
      assert Escape(fields[0]) + rest == Row(fields) && rest[1..] == Row(fields[1..]);
      RowReadsBack(fields[1..]);
      assert fields == [fields[0]] + fields[1..];
    }
  }

  /** So two rows are the same text only when they hold the same fields. */
  lemma RowsAreInjective(a: seq<string>, b: seq<string>)
    requires a != [] && b != [] && Row(a) == Row(b)
    ensures a == b
  {
    RowReadsBack(a);
    RowReadsBack(b);
  }

  /** No fields and one empty field are both written as nothing: the list must not be empty. */
  lemma NoFieldsReadAsOne()
    ensures Row([]) == Row([""]) && ReadRecord(Row([])) == Some([""])
  {
    RowReadsBack([""]);
    assert Escape("") == "";
  }
}
