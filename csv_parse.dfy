/** Reading the listing file: splitting it into rows, and `parseCSVLine`, the character loop that
    cuts a row into fields. A `"` only switches the "inside quotes" flag and is never kept, so no
    field ever holds a quote; the clean-up `replace` calls that follow therefore change nothing. */
module CsvParse {
  import opened Js
  import opened Seqs

  // ---------------------------------------------------------------------------------------------
  // Rows

  /** A row that is not only whitespace. */
  predicate NonBlank(row: string) {
    Trim(row) != ""
  }

  /** `text.split('\n').filter(row => row.trim() !== '')`: the lines that are not blank, in order,
      each as many times as the text has it. */
  function Rows(text: string): (rows: seq<string>)
    ensures forall i :: 0 <= i < |rows| ==> NonBlank(rows[i]) && '\n' !in rows[i]
    ensures IsSubsequence(rows, Split(text, '\n'))
    ensures forall i :: 0 <= i < |Split(text, '\n')| && NonBlank(Split(text, '\n')[i]) ==> Split(text, '\n')[i] in rows
    ensures forall row :: multiset(rows)[row] == if NonBlank(row) then multiset(Split(text, '\n'))[row] else 0
  {
    Filter(Split(text, '\n'), NonBlank)
  }

  /** The empty file has no rows. */
  lemma RowsEmpty()
    ensures Rows("") == []
  {
    assert Split("", '\n') == [""];
    assert !NonBlank("");
  }

  /** Non-blank lines joined with `\n` come back as the rows, one for one. */
  lemma RowsOfLines(lines: seq<string>)
    requires lines != []
    requires forall k :: 0 <= k < |lines| ==> NonBlank(lines[k]) && '\n' !in lines[k]
    ensures Rows(Join(lines, '\n')) == lines
  {
    SplitJoin(lines, '\n');
    FilterAll(lines, NonBlank);
  }

  // ---------------------------------------------------------------------------------------------
  // The field loop, as a function of the characters read so far

  /** The loop's state: the fields pushed so far (before clean-up), `current`, and `inQuotes`. */
  datatype Scan = Scan(closed: seq<string>, current: string, inQuotes: bool)

  /** One iteration: a quote toggles the flag and is dropped, a comma outside quotes closes the
      current field, any other character is appended to it. */
  function Step(st: Scan, c: char): Scan {
    if c == '"' then st.(inQuotes := !st.inQuotes)
    else if c == ',' && !st.inQuotes then Scan(st.closed + [st.current], "", st.inQuotes)
    else st.(current := st.current + [c])
  }

  /** The state after the loop has read `s`. */
  function ScanLine(s: string): Scan {
    if s == [] then Scan([], "", false) else Step(ScanLine(s[..|s| - 1]), s[|s| - 1])
  }

  /** The `inQuotes` flag after reading `s`. */
  function InQuotes(s: string): bool {
    ScanLine(s).inQuotes
  }

  /** No field the loop builds holds a quote. */
  lemma {:induction false} ScanQuoteFree(s: string)
    ensures '"' !in ScanLine(s).current
    ensures forall k :: 0 <= k < |ScanLine(s).closed| ==> '"' !in ScanLine(s).closed[k]
  {
    if s != [] {
      ScanQuoteFree(s[..|s| - 1]);
    }
  }

  /** The fields before clean-up: the values `current` had when a comma outside quotes closed it,
      then its value at the end. */
  function RawFields(s: string): (fields: seq<string>)
    ensures |fields| >= 1
    ensures forall k :: 0 <= k < |fields| ==> '"' !in fields[k]
  {
    var st := ScanLine(s);
    ScanQuoteFree(s);
    st.closed + [st.current]
  }

  /** The number of `"` characters in `s`. */
  function QuoteCount(s: string): nat {
    multiset(s)['"']
  }

  /** A position of `s` is inside quotes when an odd number of quotes come before it. */
  predicate QuotedAt(s: string, i: nat)
    requires i <= |s|
  {
    QuoteCount(s[..i]) % 2 == 1
  }

  /** The loop's flag after reading `s` is the parity of the quotes read. */
  lemma {:induction false} InQuotesParity(s: string)
    ensures InQuotes(s) <==> QuoteCount(s) % 2 == 1
  {
    if s != [] {
      var init := s[..|s| - 1];
      InQuotesParity(init);
      assert s == init + [s[|s| - 1]];
      assert multiset(s) == multiset(init) + multiset{s[|s| - 1]};
    }
  }

  /** The commas of `s` that stand outside quotes. */
  function OutsideCommas(s: string): nat {
    if s == [] then 0
    else
      var init := s[..|s| - 1];
      OutsideCommas(init) + (if s[|s| - 1] == ',' && !QuotedAt(s, |s| - 1) then 1 else 0)
  }

  /** `s` with every `"` deleted. */
  function RemoveQuotes(s: string): string {
    if s == [] then []
    else RemoveQuotes(s[..|s| - 1]) + (if s[|s| - 1] == '"' then [] else [s[|s| - 1]])
  }

  // ---------------------------------------------------------------------------------------------
  // Field clean-up

  /** `.replace(/^"|"$/g, '')`: one quote removed from the start and one from the end. */
  function StripWrappingQuotes(s: string): (r: string)
    ensures |s| - 2 <= |r| <= |s|
    ensures multiset(r) <= multiset(s)
    ensures forall c :: c != '"' ==> multiset(r)[c] == multiset(s)[c]
    ensures '"' !in s ==> r == s
  {
    var a := if s != [] && s[0] == '"' then s[1..] else s;
    assert s != [] && s[0] == '"' ==> s == ['"'] + a;
    var r := if a != [] && a[|a| - 1] == '"' then a[..|a| - 1] else a;
    assert a != [] && a[|a| - 1] == '"' ==> a == r + ['"'];
    QuoteSteps(s, a, r);
    r
  }

  /** Dropping a leading quote and then a trailing one removes quotes and nothing else. */
  lemma QuoteSteps(s: string, a: string, r: string)
    requires s == a || s == ['"'] + a
    requires a == r || a == r + ['"']
    ensures |s| - 2 <= |r| <= |s|
    ensures multiset(r) <= multiset(s)
    ensures forall c :: c != '"' ==> multiset(r)[c] == multiset(s)[c]
    ensures '"' !in s ==> r == s
  {
    if s != a {
      assert multiset(s) == multiset{'"'} + multiset(a);
    }
    if a != r {
      assert multiset(a) == multiset(r) + multiset{'"'};
    }
  }

  /** `.replace(/""/g, '"')`: each doubled quote, left to right, becomes one. */
  function CollapseDoubledQuotes(s: string): (r: string)
    ensures |r| <= |s|
    ensures multiset(r) <= multiset(s)
    ensures forall c :: c != '"' ==> multiset(r)[c] == multiset(s)[c]
  {
    if |s| >= 2 && s[0] == '"' && s[1] == '"' then
      assert s == [s[0], s[1]] + s[2..];
      "\"" + CollapseDoubledQuotes(s[2..])
    else if s == [] then []
    else
      assert s == [s[0]] + s[1..];
      [s[0]] + CollapseDoubledQuotes(s[1..])
  }

  /** The clean-up applied to every field: trim, strip wrapping quotes, collapse doubled quotes. */
  function CleanField(f: string): (r: string)
    ensures forall k :: 0 <= k < |r| ==> r[k] in f
  {
    var t := Trim(f);
    var r := CollapseDoubledQuotes(StripWrappingQuotes(t));
    assert forall k :: 0 <= k < |r| ==> r[k] in t by {
      forall k | 0 <= k < |r|
        ensures r[k] in t
      {
        assert r[k] in multiset(r);
      }
    }
    r
  }

  function CleanAll(fs: seq<string>): (r: seq<string>)
    ensures |r| == |fs|
  {
    seq(|fs|, k requires 0 <= k < |fs| => CleanField(fs[k]))
  }

  lemma {:induction false} CollapseQuoteFree(s: string)
    requires '"' !in s
    ensures CollapseDoubledQuotes(s) == s
  {
    if s != [] {
      assert '"' !in s[1..] by {
        assert forall k :: 0 <= k < |s[1..]| ==> s[1..][k] == s[k + 1];
      }
      CollapseQuoteFree(s[1..]);
      assert [s[0]] + s[1..] == s;
    }
  }

  /** On a field without quotes the clean-up is a plain trim. */
  lemma CleanQuoteFree(f: string)
    requires '"' !in f
    ensures CleanField(f) == Trim(f)
  {
    var t := Trim(f);
    assert '"' !in t;
    assert StripWrappingQuotes(t) == t;
    CollapseQuoteFree(t);
  }

  lemma CleanAllQuoteFree(fs: seq<string>)
    requires forall k :: 0 <= k < |fs| ==> '"' !in fs[k]
    ensures forall k :: 0 <= k < |fs| ==> CleanAll(fs)[k] == Trim(fs[k])
  {
    forall k | 0 <= k < |fs|
      ensures CleanAll(fs)[k] == Trim(fs[k])
    {
      CleanQuoteFree(fs[k]);
    }
  }

  /** `parseCSVLine(text)`: one field per raw field, each field the trimmed raw field (the
      quote-removing replacements have nothing to remove), so no field holds a quote or has
      whitespace at either end. */
  function ParseLine(text: string): (fields: seq<string>)
    ensures |fields| == |RawFields(text)|
    ensures forall k :: 0 <= k < |fields| ==> fields[k] == Trim(RawFields(text)[k])
    ensures forall k :: 0 <= k < |fields| ==> '"' !in fields[k] && IsTrimmed(fields[k])
  {
    var raw := RawFields(text);
    CleanAllQuoteFree(raw);
    CleanAll(raw)
  }

  // ---------------------------------------------------------------------------------------------
  // The loop itself

  /** The character loop of `parseCSVLine`, pushing each field as it is closed. */
  method ParseCSVLine(text: string) returns (result: seq<string>)
    ensures result == ParseLine(text)
  {
    result := [];
    var current := "";
    var inQuotes := false;
    ghost var raw: seq<string> := [];
    for i := 0 to |text|
      invariant ScanLine(text[..i]) == Scan(raw, current, inQuotes)
      invariant result == CleanAll(raw)
    {
      var c := text[i];
      ScanPrefix(text, i);
      if c == '"' {
        inQuotes := !inQuotes;
      } else if c == ',' && !inQuotes {
        CleanAllSnoc(raw, current);
        result := result + [CleanField(current)];
        raw := raw + [current];
        current := "";
      } else {
        current := current + [c];
      }
    }
    CleanAllSnoc(raw, current);
    result := result + [CleanField(current)];
    assert text[..|text|] == text;
  }

  lemma ScanPrefix(s: string, i: nat)
    requires i < |s|
    ensures ScanLine(s[..i + 1]) == Step(ScanLine(s[..i]), s[i])
  {
    assert s[..i + 1][..i] == s[..i];
  }

  lemma CleanAllSnoc(fs: seq<string>, f: string)
    ensures CleanAll(fs + [f]) == CleanAll(fs) + [CleanField(f)]
  {
  }

  // ---------------------------------------------------------------------------------------------
  // Properties

  /** There is one field more than there are commas outside quotes. */
  lemma {:induction false} FieldCount(s: string)
    ensures |ParseLine(s)| == 1 + OutsideCommas(s)
  {
    if s != [] {
      var init := s[..|s| - 1];
      FieldCount(init);
      InQuotesParity(init);
      assert s[..|s| - 1] == init;
    }
  }

  /** Joining the raw fields with commas gives the line back with its quotes deleted: the loop
      loses nothing but quotes. */
  lemma {:induction false} JoinRawFields(s: string)
    ensures Join(RawFields(s), ',') == RemoveQuotes(s)
  {
    if s != [] {
      var init, c := s[..|s| - 1], s[|s| - 1];
      var st := ScanLine(init);
      JoinRawFields(init);
      JoinSnoc(st.closed, st.current, ',');
      if c == '"' {
      } else if c == ',' && !st.inQuotes {
        JoinSnoc(st.closed + [st.current], "", ',');
      } else {
        JoinSnoc(st.closed, st.current + [c], ',');
      }
    }
  }

  /** A comma outside quotes separates: the fields of `a` are closed, and the scan of `b` goes on
      as if from the start. */
  lemma {:induction false} ScanAfterComma(a: string, b: string)
    requires QuoteCount(a) % 2 == 0
    ensures ScanLine(a + [','] + b) == ScanLine(b).(closed := RawFields(a) + ScanLine(b).closed)
  {
    InQuotesParity(a);
    var s := a + [','] + b;
    if b == [] {
      assert s[..|s| - 1] == a;
    } else {
      assert s[..|s| - 1] == a + [','] + b[..|b| - 1];
      ScanAfterComma(a, b[..|b| - 1]);
    }
  }

  /** The fields of `a`, a comma outside quotes, then the fields of `b`. */
  lemma SplitAtOutsideComma(a: string, b: string)
    requires QuoteCount(a) % 2 == 0
    ensures RawFields(a + [','] + b) == RawFields(a) + RawFields(b)
  {
    ScanAfterComma(a, b);
  }

  /** Inside quotes every character but a quote, commas included, goes into the current field. */
  lemma {:induction false} QuotedRun(p: string, f: string)
    requires InQuotes(p) && '"' !in f
    ensures ScanLine(p + f) == ScanLine(p).(current := ScanLine(p).current + f)
  {
    if f == [] {
      assert p + f == p;
    } else {
      var f' := f[..|f| - 1];
      assert (p + f)[..|p + f| - 1] == p + f';
      assert '"' !in f' by {
        assert forall k :: 0 <= k < |f'| ==> f'[k] == f[k];
      }
      QuotedRun(p, f');
      assert ScanLine(p).current + f' + [f[|f| - 1]] == ScanLine(p).current + f;
    }
  }

  /** A line with no comma is a single field: the line without its quotes. */
  lemma {:induction false} NoCommaField(s: string)
    requires ',' !in s
    ensures ScanLine(s).closed == [] && ScanLine(s).current == RemoveQuotes(s)
    ensures RawFields(s) == [RemoveQuotes(s)]
  {
    if s != [] {
      var init := s[..|s| - 1];
      assert ',' !in init by {
        assert forall k :: 0 <= k < |init| ==> init[k] == s[k];
      }
      NoCommaField(init);
    }
  }

  lemma {:induction false} RemoveQuotesOfQuoteFree(s: string)
    requires '"' !in s
    ensures RemoveQuotes(s) == s
  {
    if s != [] {
      var init := s[..|s| - 1];
      assert '"' !in init by {
        assert forall k :: 0 <= k < |init| ==> init[k] == s[k];
      }
      RemoveQuotesOfQuoteFree(init);
      assert init + [s[|s| - 1]] == s;
    }
  }

  lemma {:induction false} RemoveQuotesConcat(x: string, y: string)
    ensures RemoveQuotes(x + y) == RemoveQuotes(x) + RemoveQuotes(y)
  {
    if y != [] {
      assert (x + y)[..|x + y| - 1] == x + y[..|y| - 1];
      RemoveQuotesConcat(x, y[..|y| - 1]);
    } else {
      assert x + y == x;
    }
  }

  /** A field written without quotes or commas reads back as itself. */
  lemma PlainField(f: string)
    requires '"' !in f && ',' !in f
    ensures RawFields(f) == [f]
  {
    NoCommaField(f);
    RemoveQuotesOfQuoteFree(f);
  }

  /** Round trip: fields that are trimmed and hold no quote or comma, joined with commas, parse back
      to themselves. */
  lemma ParseJoin(fs: seq<string>)
    requires fs != []
    requires forall k :: 0 <= k < |fs| ==> IsTrimmed(fs[k]) && '"' !in fs[k] && ',' !in fs[k]
    ensures ParseLine(Join(fs, ',')) == fs
  {
    RawJoin(fs);
  }

  lemma {:induction false} RawJoin(fs: seq<string>)
    requires fs != []
    requires forall k :: 0 <= k < |fs| ==> '"' !in fs[k] && ',' !in fs[k]
    ensures RawFields(Join(fs, ',')) == fs
  {
    PlainField(fs[0]);
    if |fs| > 1 {
      RawJoin(fs[1..]);
      assert QuoteCount(fs[0]) == 0 by {
        assert '"' !in multiset(fs[0]);
      }
      SplitAtOutsideComma(fs[0], Join(fs[1..], ','));
      assert [fs[0]] + fs[1..] == fs;
    }
  }

  // ---------------------------------------------------------------------------------------------
  // Examples

  /** A line whose raw fields are already trimmed parses to those fields. */
  lemma ParseTrimmed(s: string, fs: seq<string>)
    requires RawFields(s) == fs
    requires forall k :: 0 <= k < |fs| ==> IsTrimmed(fs[k])
    ensures ParseLine(s) == fs
  {
  }

  /** A field wrapped in quotes is read whole, and the scan ends outside quotes. */
  lemma QuotedField(f: string)
    requires '"' !in f
    ensures ScanLine("\"" + f + "\"") == Scan([], f, false)
  {
    var q := "\"";
    assert ScanLine(q) == Scan([], "", true) by {
      assert q[..0] == [];
    }
    QuotedRun(q, f);
    var a := q + f + q;
    assert a[..|a| - 1] == q + f && a[|a| - 1] == '"';
  }

  /** A quoted field with commas inside, a comma, then a plain field. */
  lemma QuotedThenPlain(f: string, g: string)
    requires '"' !in f && IsTrimmed(f)
    requires '"' !in g && ',' !in g && IsTrimmed(g)
    ensures ParseLine("\"" + f + "\"," + g) == [f, g]
  {
    var a := "\"" + f + "\"";
    QuotedField(f);
    assert QuoteCount(a) == 2 by {
      assert multiset(a) == multiset("\"") + multiset(f) + multiset("\"");
      assert '"' !in multiset(f);
    }
    SplitAtOutsideComma(a, g);
    PlainField(g);
    assert a + [','] + g == "\"" + f + "\"," + g;
    ParseTrimmed(a + [','] + g, [f, g]);
  }

  /** A quoted comma stays in its field. */
  lemma QuotedCommaExample()
    ensures ParseLine("\"Seoul, Gangnam\",x") == ["Seoul, Gangnam", "x"]
  {
    QuotedThenPlain("Seoul, Gangnam", "x");
    assert "\"" + "Seoul, Gangnam" + "\"," + "x" == "\"Seoul, Gangnam\",x";
  }

  /** A line without commas whose quotes, once deleted, leave a trimmed text parses to that text. */
  lemma NoCommaLine(s: string)
    requires ',' !in s && IsTrimmed(RemoveQuotes(s))
    ensures ParseLine(s) == [RemoveQuotes(s)]
  {
    NoCommaField(s);
    ParseTrimmed(s, [RemoveQuotes(s)]);
  }

  lemma {:induction false} RemoveQuotesOfQuotes(s: string)
    requires forall k :: 0 <= k < |s| ==> s[k] == '"'
    ensures RemoveQuotes(s) == []
  {
    if s != [] {
      RemoveQuotesOfQuotes(s[..|s| - 1]);
    }
  }

  /** Quote runs around two quote-free pieces leave just the pieces. */
  lemma RemoveQuoteRuns(q1: string, x: string, q2: string, y: string, q3: string)
    requires forall k :: 0 <= k < |q1| ==> q1[k] == '"'
    requires forall k :: 0 <= k < |q2| ==> q2[k] == '"'
    requires forall k :: 0 <= k < |q3| ==> q3[k] == '"'
    requires '"' !in x && '"' !in y
    ensures RemoveQuotes(q1 + x + q2 + y + q3) == x + y
  {
    var a := q1 + x;
    var b := a + q2;
    var c := b + y;
    RemoveQuotesOfQuotes(q1);
    RemoveQuotesOfQuoteFree(x);
    RemoveQuotesConcat(q1, x);
    assert RemoveQuotes(a) == x;
    RemoveQuotesOfQuotes(q2);
    RemoveQuotesConcat(a, q2);
    assert RemoveQuotes(b) == x;
    RemoveQuotesOfQuoteFree(y);
    RemoveQuotesConcat(b, y);
    assert RemoveQuotes(c) == x + y;
    RemoveQuotesOfQuotes(q3);
    RemoveQuotesConcat(c, q3);
  }

  lemma RemoveQuotesExample()
    ensures RemoveQuotes("\"Say \"\"hi\"\"\"") == "Say hi"
  {
    assert "\"Say \"\"hi\"\"\"" == "\"" + "Say " + "\"\"" + "hi" + "\"\"\"";
    RemoveQuoteRuns("\"", "Say ", "\"\"", "hi", "\"\"\"");
  }

  /** Doubled quotes do not give a quote: every `"` only toggles the flag. */
  lemma EscapedQuoteExample()
    ensures ParseLine("\"Say \"\"hi\"\"\"") == ["Say hi"]
  {
    RemoveQuotesExample();
    assert IsTrimmed("Say hi");
    NoCommaLine("\"Say \"\"hi\"\"\"");
  }
}
