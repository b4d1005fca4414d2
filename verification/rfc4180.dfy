/**
 * CSV text in the style of section 2 of RFC 4180: a field that holds a comma,
 * a double quote, a line feed or a carriage return is enclosed in double
 * quotes with every inner quote doubled (rules 6 and 7); any other field is
 * written as it is. Records end with a line feed. A reader for this format
 * shows that the writer loses nothing.
 */
module Rfc4180 {
  import opened Text

  predicate IsSpecial(c: char)
  {
    c == ',' || c == '"' || c == '\n' || c == '\r'
  }

  predicate NeedsQuotes(s: string)
  {
    exists i :: 0 <= i < |s| && IsSpecial(s[i])
  }

  /** `s.replace('"', '""')`. */
  function DoubleQuotes(s: string): string
  {
    if |s| == 0 then []
    else (if s[0] == '"' then "\"\"" else [s[0]]) + DoubleQuotes(s[1..])
  }

  /** The quoting step of `_csv_escape`. */
  function QuoteField(s: string): (r: string)
    ensures !NeedsQuotes(s) ==> r == s
    ensures NeedsQuotes(s) ==> |r| >= 2 && r[0] == '"' && r[|r| - 1] == '"'
  {
    if NeedsQuotes(s) then "\"" + DoubleQuotes(s) + "\"" else s
  }

  function QuoteAll(fields: seq<string>): (r: seq<string>)
    ensures |r| == |fields|
    ensures forall i :: 0 <= i < |fields| ==> r[i] == QuoteField(fields[i])
  {
    seq(|fields|, i requires 0 <= i < |fields| => QuoteField(fields[i]))
  }

  /** One line of the file: the quoted fields joined by commas. */
  function EncodeRecord(fields: seq<string>): string
  {
    Join(QuoteAll(fields), ",")
  }

  /** The whole file: every record followed by a line feed. */
  function EncodeTable(rows: seq<seq<string>>): string
  {
    if |rows| == 0 then "" else EncodeRecord(rows[0]) + "\n" + EncodeTable(rows[1..])
  }

  function EncodeRecords(rows: seq<seq<string>>): (r: seq<string>)
    ensures |r| == |rows|
    ensures forall i :: 0 <= i < |rows| ==> r[i] == EncodeRecord(rows[i])
  {
    seq(|rows|, i requires 0 <= i < |rows| => EncodeRecord(rows[i]))
  }

  /** `"\n".join(lines) + "\n"` is every line followed by its own line feed. */
  lemma {:induction false} JoinLinesTerminated(rows: seq<seq<string>>)
    requires |rows| > 0
    ensures Join(EncodeRecords(rows), "\n") + "\n" == EncodeTable(rows)
  {
    if |rows| > 1 {
      JoinLinesTerminated(rows[1..]);
      assert EncodeRecords(rows)[1..] == EncodeRecords(rows[1..]);
    }
  }

  // ---- Reading the format back ----

  /** Reads the inside of a quoted field, after its opening quote: returns the
      field and what follows the closing quote. */
  function ReadQuoted(s: string): (r: (string, string))
    ensures |r.1| <= |s|
  {
    if |s| == 0 then ("", "")
    else if s[0] == '"' then
      if |s| > 1 && s[1] == '"' then
        var inner := ReadQuoted(s[2..]);
        ("\"" + inner.0, inner.1)
      else ("", s[1..])
    else
      var inner := ReadQuoted(s[1..]);
      ([s[0]] + inner.0, inner.1)
  }

  predicate EndsField(s: string)
  {
    |s| == 0 || s[0] == ',' || s[0] == '\n'
  }

  /** Reads an unquoted field: everything up to the next comma or line feed. */
  function ReadPlain(s: string): (r: (string, string))
    ensures |r.1| <= |s|
    ensures EndsField(r.1)
    ensures EndsField(s) ==> r == ("", s)
  {
    if EndsField(s) then ("", s)
    else
      var inner := ReadPlain(s[1..]);
      ([s[0]] + inner.0, inner.1)
  }

  function ReadField(s: string): (r: (string, string))
    ensures |r.1| <= |s|
    ensures |s| > 0 && !EndsField(s) ==> |r.1| < |s|
    ensures EndsField(s) ==> r.1 == s
  {
    if |s| > 0 && s[0] == '"' then ReadQuoted(s[1..]) else ReadPlain(s)
  }

  /** Reads one record: fields up to a line feed or the end of the text. */
  function ReadRecord(s: string): (r: (seq<string>, string))
    ensures |r.1| <= |s|
    ensures |s| > 0 ==> |r.1| < |s|
    decreases |s|
  {
    var f := ReadField(s);
    if |f.1| > 0 && f.1[0] == ',' then
      var more := ReadRecord(f.1[1..]);
      ([f.0] + more.0, more.1)
    else if |f.1| > 0 && f.1[0] == '\n' then ([f.0], f.1[1..])
    else ([f.0], f.1)
  }

  function ReadTable(s: string): seq<seq<string>>
    decreases |s|
  {
    if |s| == 0 then [] else
      var rec := ReadRecord(s);
      [rec.0] + ReadTable(rec.1)
  }

  // ---- Round trip ----

  lemma {:induction false} ReadQuotedRoundTrip(f: string, t: string)
    requires |t| == 0 || t[0] != '"'
    ensures ReadQuoted(DoubleQuotes(f) + "\"" + t) == (f, t)
  {
    var s := DoubleQuotes(f) + "\"" + t;
    if |f| == 0 {
      assert s == "\"" + t;
      assert s[1..] == t;
    } else {
      ReadQuotedRoundTrip(f[1..], t);
      var s' := DoubleQuotes(f[1..]) + "\"" + t;
      if f[0] == '"' {
        assert s == "\"\"" + s';
        assert s[2..] == s';
        assert f == "\"" + f[1..];
      } else {
        assert s == [f[0]] + s';
        assert s[1..] == s';
        assert f == [f[0]] + f[1..];
      }
    }
  }

  lemma {:induction false} ReadPlainRoundTrip(f: string, t: string)
    requires forall i :: 0 <= i < |f| ==> f[i] != ',' && f[i] != '\n'
    requires EndsField(t)
    ensures ReadPlain(f + t) == (f, t)
  {
    if |f| == 0 {
      assert f + t == t;
    } else {
      ReadPlainRoundTrip(f[1..], t);
      assert (f + t)[1..] == f[1..] + t;
      assert f == [f[0]] + f[1..];
    }
  }

  /** Quoting a field and reading it back gives the field, and the reader
      stops exactly where the field ends. */
  lemma ReadFieldRoundTrip(f: string, t: string)
    requires EndsField(t)
    ensures ReadField(QuoteField(f) + t) == (f, t)
  {
    if NeedsQuotes(f) {
      var s := "\"" + DoubleQuotes(f) + "\"" + t;
      assert s[1..] == DoubleQuotes(f) + "\"" + t;
      ReadQuotedRoundTrip(f, t);
    } else {
      ReadPlainRoundTrip(f, t);
      if |f| > 0 {
        assert !IsSpecial(f[0]);
      }
    }
  }

  /** Unquoting a written field recovers it exactly. */
  lemma UnquoteRoundTrip(f: string)
    ensures ReadField(QuoteField(f)) == (f, "")
  {
    ReadFieldRoundTrip(f, "");
    assert QuoteField(f) + "" == QuoteField(f);
  }

  /** A record of several fields is its first field, a comma, and the rest. */
  lemma EncodeRecordCons(fields: seq<string>)
    requires |fields| > 1
    ensures EncodeRecord(fields) == QuoteField(fields[0]) + "," + EncodeRecord(fields[1..])
  {
    assert QuoteAll(fields)[1..] == QuoteAll(fields[1..]);
  }

  /** Reading past the comma after a first field reads the rest of the record. */
  lemma ReadRecordAfterComma(s: string, f: string, restText: string)
    requires ReadField(s) == (f, "," + restText)
    ensures ReadRecord(s) == ([f] + ReadRecord(restText).0, ReadRecord(restText).1)
  {
    assert ("," + restText)[1..] == restText;
  }

  lemma {:induction false} ReadRecordRoundTrip(fields: seq<string>, t: string)
    requires |fields| > 0
    ensures ReadRecord(EncodeRecord(fields) + "\n" + t) == (fields, t)
  {
    var s := EncodeRecord(fields) + "\n" + t;
    if |fields| == 1 {
      assert s == QuoteField(fields[0]) + ("\n" + t) by {
        assert EncodeRecord(fields) == QuoteField(fields[0]);
      }
      assert ReadField(s) == (fields[0], "\n" + t) by {
        ReadFieldRoundTrip(fields[0], "\n" + t);
      }
      assert ("\n" + t)[1..] == t;
      assert fields == [fields[0]];
    } else {
      var restText := EncodeRecord(fields[1..]) + "\n" + t;
      assert s == QuoteField(fields[0]) + ("," + restText) by {
        EncodeRecordCons(fields);
      }
      assert ReadField(s) == (fields[0], "," + restText) by {
        ReadFieldRoundTrip(fields[0], "," + restText);
      }
      assert ReadRecord(restText) == (fields[1..], t) by {
        ReadRecordRoundTrip(fields[1..], t);
      }
      ReadRecordAfterComma(s, fields[0], restText);
      assert fields == [fields[0]] + fields[1..];
    }
  }

  /** Reading a written file gives back its records, field by field. */
  lemma {:induction false} ReadTableRoundTrip(rows: seq<seq<string>>)
    requires forall i :: 0 <= i < |rows| ==> |rows[i]| > 0
    ensures ReadTable(EncodeTable(rows)) == rows
  {
    if |rows| > 0 {
      var rest := EncodeTable(rows[1..]);
      var s := EncodeTable(rows);
      assert s == EncodeRecord(rows[0]) + "\n" + rest;
      assert ReadRecord(s) == (rows[0], rest) by {
        ReadRecordRoundTrip(rows[0], rest);
      }
      assert ReadTable(rest) == rows[1..] by {
        ReadTableRoundTrip(rows[1..]);
      }
      assert ReadTable(s) == [rows[0]] + ReadTable(rest) by {
        assert |s| > 0;
      }
      assert rows == [rows[0]] + rows[1..];
    }
  }
}
