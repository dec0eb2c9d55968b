/** The JavaScript built-ins the listing and booking code relies on, over `string` as a sequence of
    code points: whitespace trimming, `split`/`join`, `startsWith`/`includes`, `parseInt`, the
    `Number` coercion that `a - b` applies to strings, `toFixed(1)`, and record identifiers. */
module Js {

  /** A value that may be missing (`undefined` or `null` in the source). */
  datatype Option<T> = None | Some(value: T)

  // ---------------------------------------------------------------------------------------------
  // Whitespace and String.prototype.trim

  /** The code points JavaScript counts as WhiteSpace or LineTerminator: what `trim` removes and
      what `parseInt` skips. */
  predicate IsWhitespace(c: char) {
    c == '\t' || c == '\n' || c == '\U{000B}' || c == '\U{000C}' || c == '\r' || c == ' '
    || c == '\U{00A0}' || c == '\U{1680}' || ('\U{2000}' <= c <= '\U{200A}')
    || c == '\U{2028}' || c == '\U{2029}' || c == '\U{202F}' || c == '\U{205F}'
    || c == '\U{3000}' || c == '\U{FEFF}'
  }

  /** `s.trimStart()`: the suffix left once the leading whitespace is gone. */
  function TrimStart(s: string): (r: string)
    ensures |r| <= |s| && r == s[|s| - |r|..]
    ensures r == [] || !IsWhitespace(r[0])
    ensures forall k :: 0 <= k < |s| - |r| ==> IsWhitespace(s[k])
  {
    if s != [] && IsWhitespace(s[0]) then TrimStart(s[1..]) else s
  }

  predicate AllWhitespace(s: string) {
    forall k :: 0 <= k < |s| ==> IsWhitespace(s[k])
  }

  /** Neither end of `s` is whitespace. */
  predicate IsTrimmed(s: string) {
    s == [] || (!IsWhitespace(s[0]) && !IsWhitespace(s[|s| - 1]))
  }

  /** `s.trim()`: a slice of `s` with only whitespace cut from either end, and no whitespace left
      at either end; it is `s` itself when `s` had none, and empty exactly when `s` was all
      whitespace. */
  function Trim(s: string): (r: string)
    ensures IsTrimmed(r)
    ensures IsTrimmed(s) ==> r == s
    ensures r == [] <==> AllWhitespace(s)
    ensures forall k :: 0 <= k < |r| ==> r[k] in s
    ensures exists i, j :: TrimmedAt(s, r, i, j)
    decreases |s|
  {
    if s != [] && IsWhitespace(s[0]) then
      var r := Trim(s[1..]);
      TrimFront(s, s[1..], r);
      r
    else if s != [] && IsWhitespace(s[|s| - 1]) then
      var r := Trim(s[..|s| - 1]);
      TrimBack(s, s[..|s| - 1], r);
      r
    else
      assert TrimmedAt(s, s, 0, |s|);
      s
  }

  /** Cutting a leading whitespace character before trimming the rest. */
  lemma TrimFront(s: string, rest: string, r: string)
    requires s != [] && IsWhitespace(s[0]) && rest == s[1..]
    requires r == [] <==> AllWhitespace(rest)
    requires exists i, j :: TrimmedAt(rest, r, i, j)
    ensures r == [] <==> AllWhitespace(s)
    ensures forall k :: 0 <= k < |r| ==> r[k] in s
    ensures exists i, j :: TrimmedAt(s, r, i, j)
  {
    assert forall k :: 0 <= k < |s| - 1 ==> s[1..][k] == s[k + 1];
    var i, j :| TrimmedAt(rest, r, i, j);
    assert s[1..][i..j] == s[i + 1..j + 1];
    assert TrimmedAt(s, r, i + 1, j + 1);
  }

  /** Cutting a trailing whitespace character before trimming the rest. */
  lemma TrimBack(s: string, init: string, r: string)
    requires s != [] && IsWhitespace(s[|s| - 1]) && init == s[..|s| - 1]
    requires r == [] <==> AllWhitespace(init)
    requires exists i, j :: TrimmedAt(init, r, i, j)
    ensures r == [] <==> AllWhitespace(s)
    ensures forall k :: 0 <= k < |r| ==> r[k] in s
    ensures exists i, j :: TrimmedAt(s, r, i, j)
  {
    assert forall k :: 0 <= k < |s| - 1 ==> s[..|s| - 1][k] == s[k];
    var i, j :| TrimmedAt(init, r, i, j);
    assert s[..|s| - 1][i..j] == s[i..j];
    assert TrimmedAt(s, r, i, j);
  }

  /** `r` is `s[i..j]`, and everything of `s` before `i` and from `j` on is whitespace. */
  predicate TrimmedAt(s: string, r: string, i: int, j: int) {
    0 <= i <= j <= |s| && r == s[i..j]
    && (forall k :: 0 <= k < i ==> IsWhitespace(s[k]))
    && (forall k :: j <= k < |s| ==> IsWhitespace(s[k]))
  }

  // ---------------------------------------------------------------------------------------------
  // startsWith, includes, split, join

  /** `s.startsWith(p)`. */
  predicate StartsWith(s: string, p: string): (b: bool)
    ensures p == [] ==> b
    ensures b ==> |p| <= |s|
    ensures b && |p| == |s| ==> s == p
  {
    |p| <= |s| && s[..|p|] == p
  }

  /** `s.includes(p)`: `p` occurs in `s` at some position. */
  predicate Includes(s: string, p: string): (b: bool)
    ensures StartsWith(s, p) ==> b
    ensures b ==> |p| <= |s|
  {
    StartsWith(s, p) || (s != [] && Includes(s[1..], p))
  }

  /** An occurrence of `p` at position `i` makes `s.includes(p)` true. */
  lemma {:induction false} IncludesAt(s: string, p: string, i: nat)
    requires i + |p| <= |s| && s[i..i + |p|] == p
    ensures Includes(s, p)
  {
    if i > 0 {
      assert s[1..][i - 1..i - 1 + |p|] == s[i..i + |p|];
      IncludesAt(s[1..], p, i - 1);
    } else {
      assert s[..|p|] == p;
    }
  }

  /** A `s.includes(p)` hit is an occurrence of `p` at some position `i`. */
  lemma {:induction false} IncludesOccurs(s: string, p: string) returns (i: nat)
    requires Includes(s, p)
    ensures i + |p| <= |s| && s[i..i + |p|] == p
  {
    if StartsWith(s, p) {
      i := 0;
    } else {
      var j := IncludesOccurs(s[1..], p);
      assert s[j + 1..j + 1 + |p|] == s[1..][j..j + |p|];
      i := j + 1;
    }
  }

  /** `s.split(sep)` for a one-character separator: the maximal separator-free pieces, in order. */
  function Split(s: string, sep: char): (parts: seq<string>)
    ensures |parts| >= 1
    ensures forall k :: 0 <= k < |parts| ==> sep !in parts[k]
  {
    if s == [] then [""]
    else
      var rest := Split(s[1..], sep);
      if s[0] == sep then [""] + rest else [[s[0]] + rest[0]] + rest[1..]
  }

  /** `parts.join(sep)` for a one-character separator. */
  function Join(parts: seq<string>, sep: char): string {
    if parts == [] then ""
    else if |parts| == 1 then parts[0]
    else parts[0] + [sep] + Join(parts[1..], sep)
  }

  /** Joining a split string with its separator gives the string back. */
  lemma {:induction false} JoinSplit(s: string, sep: char)
    ensures Join(Split(s, sep), sep) == s
  {
    if s != [] {
      var rest := Split(s[1..], sep);
      JoinSplit(s[1..], sep);
      if s[0] == sep {
        assert Join([""] + rest, sep) == "" + [sep] + Join(rest, sep);
      } else if |rest| == 1 {
        assert Split(s, sep) == [[s[0]] + rest[0]];
      } else {
        var parts := [[s[0]] + rest[0]] + rest[1..];
        assert parts[1..] == rest[1..];
        assert Join(parts, sep) == [s[0]] + rest[0] + [sep] + Join(rest[1..], sep);
      }
    }
  }

  /** A string without the separator splits into itself alone. */
  lemma {:induction false} SplitWithout(s: string, sep: char)
    requires sep !in s
    ensures Split(s, sep) == [s]
  {
    if s != [] {
      SplitWithout(s[1..], sep);
      assert [s[0]] + s[1..] == s;
    }
  }

  /** How `split` treats the first character. */
  lemma SplitCons(c: char, s: string, sep: char)
    ensures Split([c] + s, sep) ==
      if c == sep then [""] + Split(s, sep) else [[c] + Split(s, sep)[0]] + Split(s, sep)[1..]
  {
    assert ([c] + s)[1..] == s;
  }

  /** A separator after a separator-free `a` ends the first piece, which is `a`. */
  lemma {:induction false} SplitAt(a: string, b: string, sep: char)
    requires sep !in a
    ensures Split(a + [sep] + b, sep) == [a] + Split(b, sep)
  {
    if a == [] {
      SplitCons(sep, b, sep);
      assert a + [sep] + b == [sep] + b;
    } else {
      var c, a' := a[0], a[1..];
      assert sep !in a' by {
        assert forall k :: 0 <= k < |a'| ==> a'[k] == a[k + 1];
      }
      SplitAt(a', b, sep);
      var s' := a' + [sep] + b;
      assert a + [sep] + b == [c] + s';
      SplitCons(c, s', sep);
      assert [c] + a' == a;
    }
  }

  /** Splitting the join of separator-free pieces gives the pieces back. */
  lemma {:induction false} SplitJoin(parts: seq<string>, sep: char)
    requires parts != []
    requires forall k :: 0 <= k < |parts| ==> sep !in parts[k]
    ensures Split(Join(parts, sep), sep) == parts
  {
    if |parts| == 1 {
      SplitWithout(parts[0], sep);
    } else {
      SplitJoin(parts[1..], sep);
      SplitAt(parts[0], Join(parts[1..], sep), sep);
      assert [parts[0]] + parts[1..] == parts;
    }
  }

  /** Joining one more piece puts a separator before it. */
  lemma {:induction false} JoinSnoc(parts: seq<string>, p: string, sep: char)
    ensures Join(parts + [p], sep) == if parts == [] then p else Join(parts, sep) + [sep] + p
  {
    if |parts| > 1 {
      assert (parts + [p])[1..] == parts[1..] + [p];
      JoinSnoc(parts[1..], p, sep);
    }
  }

  // ---------------------------------------------------------------------------------------------
  // Digits, String(n), parseInt, Number, toFixed(1)

  predicate IsDigit(c: char) {
    '0' <= c <= '9'
  }

  /** The decimal digit character for `d`. */
  function DigitChar(d: nat): (c: char)
    requires d < 10
    ensures IsDigit(c) && DigitValue(c) == d
  {
    (('0' as int) + d) as char
  }

  /** The value of a digit of any base up to 16 (`0-9`, `a-f`, `A-F`); 16 for any other character. */
  function DigitValue(c: char): nat {
    if '0' <= c <= '9' then c as nat - '0' as nat
    else if 'a' <= c <= 'f' then c as nat - 'a' as nat + 10
    else if 'A' <= c <= 'F' then c as nat - 'A' as nat + 10
    else 16
  }

  predicate IsDigitIn(c: char, base: nat) {
    DigitValue(c) < base
  }

  /** The number that the digits `ds` denote in `base`, most significant first. */
  function ValueOf(ds: string, base: nat): nat {
    if ds == [] then 0 else ValueOf(ds[..|ds| - 1], base) * base + DigitValue(ds[|ds| - 1])
  }

  /** The longest prefix of `s` made only of digits of `base`. */
  function DigitRun(s: string, base: nat): (r: string)
    ensures |r| <= |s| && r == s[..|r|]
    ensures forall k :: 0 <= k < |r| ==> IsDigitIn(r[k], base)
    ensures |r| < |s| ==> !IsDigitIn(s[|r|], base)
  {
    if s != [] && IsDigitIn(s[0], base) then [s[0]] + DigitRun(s[1..], base) else []
  }

  /** `String(n)` for a natural number: decimal digits without a leading zero. */
  function NatToString(n: nat): (r: string)
    ensures r != [] && forall k :: 0 <= k < |r| ==> IsDigit(r[k])
    ensures r[0] == '0' ==> n == 0
  {
    if n < 10 then [DigitChar(n)] else NatToString(n / 10) + [DigitChar(n % 10)]
  }

  /** `String(i)` for any integer. */
  function IntToString(i: int): string {
    if i < 0 then "-" + NatToString(-i) else NatToString(i)
  }

  /** Reading back the decimal digits of `n` gives `n`. */
  lemma {:induction false} ValueOfNatToString(n: nat)
    ensures ValueOf(NatToString(n), 10) == n
  {
    if n >= 10 {
      var s := NatToString(n);
      assert s[..|s| - 1] == NatToString(n / 10);
      ValueOfNatToString(n / 10);
    }
  }

  /** Distinct numbers print differently. */
  lemma NatToStringInjective(a: nat, b: nat)
    ensures NatToString(a) == NatToString(b) ==> a == b
  {
    ValueOfNatToString(a);
    ValueOfNatToString(b);
  }

  /** A string of digits is its own longest digit run. */
  lemma {:induction false} DigitRunOfDigits(s: string, base: nat)
    requires forall k :: 0 <= k < |s| ==> IsDigitIn(s[k], base)
    ensures DigitRun(s, base) == s
  {
    if s != [] {
      DigitRunOfDigits(s[1..], base);
    }
  }

  /** `parseInt(s)` with no radix: leading whitespace is skipped, then an optional sign, then a
      `0x`/`0X` prefix switches to base 16, then the longest run of digits is read. `None` is `NaN`
      (no digit where one was needed). */
  function ParseInt(s: string): (r: Option<int>)
    ensures r.None? <==> ParseIntDigits(s) == []
  {
    var ds := ParseIntDigits(s);
    if ds == [] then None
    else
      var t := TrimStart(s);
      Some(Signed(t[0] == '-', ValueOf(ds, ParseIntBase(s))))
  }

  /** The text after the skipped whitespace and the optional sign, as `parseInt` sees it. */
  function ParseIntBody(s: string): string {
    AfterSign(TrimStart(s))
  }

  /** `t` without a leading `-` or `+`. */
  function AfterSign(t: string): string {
    if t != [] && (t[0] == '-' || t[0] == '+') then t[1..] else t
  }

  /** 16 after a `0x`/`0X` prefix, else 10. */
  function ParseIntBase(s: string): nat {
    var u := ParseIntBody(s);
    if |u| >= 2 && u[0] == '0' && (u[1] == 'x' || u[1] == 'X') then 16 else 10
  }

  /** The digits `parseInt` reads. */
  function ParseIntDigits(s: string): string {
    var u := ParseIntBody(s);
    var base := ParseIntBase(s);
    DigitRun(if base == 16 then u[2..] else u, base)
  }

  /** `parseInt` reads back what `String(n)` prints. */
  lemma ParseIntNatToString(n: nat)
    ensures ParseInt(NatToString(n)) == Some(n)
  {
    ParseIntOfDigits(NatToString(n));
    ValueOfNatToString(n);
  }

  /** `parseInt` reads a string of decimal digits as the number they denote. */
  lemma ParseIntOfDigits(s: string)
    requires s != [] && AllDigits(s)
    ensures ParseInt(s) == Some(ValueOf(s, 10))
  {
    assert !IsWhitespace(s[0]);
    assert TrimStart(s) == s;
    assert ParseIntBody(s) == s;
    assert |s| >= 2 ==> s[1] != 'x' && s[1] != 'X';
    assert ParseIntBase(s) == 10;
    assert forall k :: 0 <= k < |s| ==> IsDigitIn(s[k], 10);
    DigitRunOfDigits(s, 10);
  }

  /** `parseInt` finds no digit in the empty string. */
  lemma ParseIntEmpty()
    ensures ParseInt("") == None
  {
    assert ParseIntBody("") == "";
  }

  /** Leading whitespace before a non-blank start is all that `trimStart` removes. */
  lemma {:induction false} TrimStartAfter(w: string, u: string)
    requires AllWhitespace(w)
    requires u == [] || !IsWhitespace(u[0])
    ensures TrimStart(w + u) == u
  {
    if w == [] {
      assert w + u == u;
    } else {
      assert (w + u)[1..] == w[1..] + u;
      assert AllWhitespace(w[1..]) by {
        assert forall k :: 0 <= k < |w| - 1 ==> w[1..][k] == w[k + 1];
      }
      TrimStartAfter(w[1..], u);
    }
  }

  /** The digit run of `ds + t` is `ds` when `t` does not go on with a digit of the base. */
  lemma DigitRunThen(ds: string, t: string, base: nat)
    requires forall k :: 0 <= k < |ds| ==> IsDigitIn(ds[k], base)
    requires t == [] || !IsDigitIn(t[0], base)
    ensures DigitRun(ds + t, base) == ds
  {
    if t == [] {
      assert ds + t == ds;
      DigitRunOfDigits(ds, base);
    } else {
      DigitRunPrefix(ds, t, base);
    }
  }

  /** The body `parseInt` reads after whitespace and an optional sign. */
  lemma ParseIntBodyOf(w: string, sign: string, u: string)
    requires AllWhitespace(w)
    requires sign == "" || sign == "+" || sign == "-"
    requires u != [] && IsDigit(u[0])
    ensures ParseIntBody(w + sign + u) == u
    ensures TrimStart(w + sign + u)[0] == (if sign == "" then u[0] else sign[0])
  {
    Regroup(w, sign, u);
    TrimStartAfter(w, sign + u);
    SignThenBody(w + sign + u, sign, u);
  }

  /** What `parseInt` reads once the whitespace is gone: the sign, if any, then the body. */
  lemma SignThenBody(s: string, sign: string, u: string)
    requires sign == "" || sign == "+" || sign == "-"
    requires u != [] && IsDigit(u[0])
    requires TrimStart(s) == sign + u
    ensures ParseIntBody(s) == u
    ensures TrimStart(s)[0] == (if sign == "" then u[0] else sign[0])
  {
    SignOf(sign, u);
  }

  lemma SignOf(sign: string, u: string)
    requires sign == "" || sign == "+" || sign == "-"
    requires u != [] && IsDigit(u[0])
    ensures AfterSign(sign + u) == u
    ensures (sign + u)[0] == (if sign == "" then u[0] else sign[0])
  {
    var t := sign + u;
    if sign == "" {
      assert t == u && u[0] != '-' && u[0] != '+';
    } else {
      assert t[0] == sign[0] && t[1..] == u;
    }
  }

  /** `parseInt` of whitespace, an optional sign, a run of decimal digits and any text that does
      not go on with a digit (nor turn a lone `0` into a `0x` prefix) is the signed value of the
      run: the price cell `200,000` reads as 200. */
  lemma ParseIntDecimal(w: string, sign: string, ds: string, t: string)
    requires AllWhitespace(w)
    requires sign == "" || sign == "+" || sign == "-"
    requires ds != [] && AllDigits(ds)
    requires t == [] || !IsDigit(t[0])
    requires ds == "0" && t != [] ==> t[0] != 'x' && t[0] != 'X'
    ensures ParseInt(w + sign + ds + t) == Some(Signed(sign == "-", ValueOf(ds, 10)))
  {
    var s := w + sign + ds + t;
    DecimalBody(w, sign, ds, t);
    assert forall k :: 0 <= k < |ds| ==> IsDigitIn(ds[k], 10);
    DigitRunThen(ds, t, 10);
    assert ParseIntDigits(s) == ds;
    ParseIntOf(s, ds, 10, sign == "-");
  }

  /** What `parseInt` reads of a decimal text: its body after the sign, in base 10. */
  lemma DecimalBody(w: string, sign: string, ds: string, t: string)
    requires AllWhitespace(w)
    requires sign == "" || sign == "+" || sign == "-"
    requires ds != [] && AllDigits(ds)
    requires t == [] || !IsDigit(t[0])
    requires ds == "0" && t != [] ==> t[0] != 'x' && t[0] != 'X'
    ensures var s := w + sign + ds + t;
      ParseIntBody(s) == ds + t && ParseIntBase(s) == 10
      && TrimStart(s) != [] && (TrimStart(s)[0] == '-') == (sign == "-")
  {
    var u := ds + t;
    Regroup(w + sign, ds, t);
    ParseIntBodyOf(w, sign, u);
    NoHexPrefix(ds, t);
  }

  /** Decimal digits then a non-digit never spell the `0x` prefix. */
  lemma NoHexPrefix(ds: string, t: string)
    requires ds != [] && AllDigits(ds)
    requires t == [] || !IsDigit(t[0])
    requires ds == "0" && t != [] ==> t[0] != 'x' && t[0] != 'X'
    ensures var u := ds + t; !(|u| >= 2 && u[0] == '0' && (u[1] == 'x' || u[1] == 'X'))
  {
    var u := ds + t;
    if |ds| >= 2 {
      assert u[1] == ds[1];
    } else if |u| >= 2 {
      assert u[1] == t[0];
    }
  }

  /** `parseInt` of whitespace, an optional sign, `0x` or `0X`, a run of hexadecimal digits and any
      text that does not go on with one is the signed value of the run in base 16. */
  lemma ParseIntHex(w: string, sign: string, x: char, hs: string, t: string)
    requires AllWhitespace(w)
    requires sign == "" || sign == "+" || sign == "-"
    requires x == 'x' || x == 'X'
    requires hs != [] && forall k :: 0 <= k < |hs| ==> IsDigitIn(hs[k], 16)
    requires t == [] || !IsDigitIn(t[0], 16)
    ensures ParseInt(w + sign + ['0', x] + hs + t) == Some(Signed(sign == "-", ValueOf(hs, 16)))
  {
    var s := w + sign + ['0', x] + hs + t;
    HexParts(w + sign, ['0', x], hs, t);
    HexBody(w, sign, x, hs, t);
    DigitRunThen(hs, t, 16);
    assert ParseIntDigits(s) == hs;
    ParseIntOf(s, hs, 16, sign == "-");
  }

  /** What `parseInt` reads of a hexadecimal text: its body after the sign, in base 16, with the
      digits after the prefix. */
  lemma HexBody(w: string, sign: string, x: char, hs: string, t: string)
    requires AllWhitespace(w)
    requires sign == "" || sign == "+" || sign == "-"
    requires x == 'x' || x == 'X'
    ensures var s := w + sign + ['0', x] + hs + t;
      ParseIntBody(s) == ['0', x] + hs + t && ParseIntBase(s) == 16
      && TrimStart(s) != [] && (TrimStart(s)[0] == '-') == (sign == "-")
  {
    var s, u := w + sign + ['0', x] + hs + t, ['0', x] + hs + t;
    HexParts(w + sign, ['0', x], hs, t);
    ParseIntBodyOf(w, sign, u);
    assert ParseIntBody(s) == u;
  }

  lemma Regroup(a: string, b: string, c: string)
    ensures a + b + c == a + (b + c)
  {
  }

  lemma HexParts(a: string, p: string, b: string, c: string)
    requires |p| == 2
    ensures a + p + b + c == a + (p + b + c) && (p + b + c)[2..] == b + c
  {
  }

  /** `parseInt` from the digits it reads, their base and the sign it sees. */
  lemma ParseIntOf(s: string, ds: string, base: nat, negative: bool)
    requires ParseIntBase(s) == base && ParseIntDigits(s) == ds && ds != []
    requires TrimStart(s) != [] && (TrimStart(s)[0] == '-') == negative
    ensures ParseInt(s) == Some(Signed(negative, ValueOf(ds, base)))
  {
  }

  /** `-m` when `negative`, else `m`. */
  function Signed(negative: bool, m: nat): int {
    if negative then -(m as int) else m
  }

  predicate AllDigits(s: string) {
    forall k :: 0 <= k < |s| ==> IsDigit(s[k])
  }

  /** `Number(s)`, the coercion `a - b` applies to a string, for the plain decimal spellings: an
      optional sign and digits with an optional fractional part (`12`, `4.5`, `.5`, `3.`), with
      surrounding whitespace ignored; the empty or blank string is 0. `None` is `NaN`. */
  function ToNumber(s: string): (r: Option<real>)
    ensures AllWhitespace(s) ==> r == Some(0.0)
  {
    var t := Trim(s);
    if t == [] then Some(0.0)
    else
      var v := UnsignedDecimal(if t[0] == '-' || t[0] == '+' then t[1..] else t);
      if t[0] == '-' then Negated(v) else v
  }

  /** Digits with an optional fractional part, and at least one digit in all. */
  function UnsignedDecimal(u: string): Option<real> {
    var whole := DigitRun(u, 10);
    var rest := u[|whole|..];
    if rest == [] then
      if whole == [] then None else Some(ValueOf(whole, 10) as real)
    else if rest[0] != '.' || !AllDigits(rest[1..]) || (whole == [] && rest == ".") then None
    else Some(DecimalValue(whole, rest[1..]))
  }

  /** The value of the decimal `whole.frac`. */
  function DecimalValue(whole: string, frac: string): real {
    ValueOf(whole, 10) as real + FractionValue(frac)
  }

  /** The value of the digits after a decimal point: `0.d1d2...`. */
  function FractionValue(frac: string): real {
    if frac == [] then 0.0 else (DigitValue(frac[0]) as real + FractionValue(frac[1..])) / 10.0
  }

  function Negated(x: Option<real>): Option<real> {
    if x.Some? then Some(-x.value) else None
  }

  /** `(t / 10).toFixed(1)` for a non-negative number of tenths `t`: whole part, a point, one digit. */
  function ToFixed1(t: nat): string {
    NatToString(t / 10) + "." + [DigitChar(t % 10)]
  }

  /** `Number` reads back what `toFixed(1)` prints. */
  lemma ToNumberToFixed1(t: nat)
    ensures ToNumber(ToFixed1(t)) == Some(t as real / 10.0)
  {
    ToNumberOfTenths(ToFixed1(t), t);
  }

  /** `Number` of the whole part of `t / 10`, a point and its tenths digit. */
  lemma ToNumberOfTenths(x: string, t: nat)
    requires x == NatToString(t / 10) + "." + [DigitChar(t % 10)]
    ensures ToNumber(x) == Some(t as real / 10.0)
  {
    TenthsValue(t);
    ToNumberDecimalValue(NatToString(t / 10), [DigitChar(t % 10)], t as real / 10.0);
  }

  /** `Number` of digits, a point and digits, for a known decimal value. */
  lemma ToNumberDecimalValue(w: string, f: string, v: real)
    requires w != [] && AllDigits(w) && f != [] && AllDigits(f)
    requires DecimalValue(w, f) == v
    ensures ToNumber(w + "." + f) == Some(v)
  {
    ToNumberDecimal(w, f);
  }

  /** The decimal printed for `t` tenths is `t / 10`. */
  lemma TenthsValue(t: nat)
    ensures DecimalValue(NatToString(t / 10), [DigitChar(t % 10)]) == t as real / 10.0
  {
    var q, r := t / 10, t % 10;
    assert FractionValue([DigitChar(r)]) == r as real / 10.0 by {
      assert [DigitChar(r)][1..] == [];
    }
    ValueOfNatToString(q);
    assert t as real == 10.0 * (q as real) + r as real;
  }

  /** `Number` reads a digit string, a point and a digit string as the decimal number they spell. */
  lemma ToNumberDecimal(w: string, f: string)
    requires w != [] && AllDigits(w) && f != [] && AllDigits(f)
    ensures ToNumber(w + "." + f) == Some(DecimalValue(w, f))
  {
    var s := w + "." + f;
    assert s[0] == w[0] && s[|s| - 1] == f[|f| - 1];
    ToNumberOfUnsigned(s);
    UnsignedDecimalPoint(w, f);
  }

  /** A trimmed string that starts with a digit has no sign for `Number` to read. */
  lemma ToNumberOfUnsigned(s: string)
    requires s != [] && IsTrimmed(s) && IsDigit(s[0])
    ensures ToNumber(s) == UnsignedDecimal(s)
  {
  }

  lemma UnsignedDecimalPoint(w: string, f: string)
    requires w != [] && AllDigits(w) && f != [] && AllDigits(f)
    ensures UnsignedDecimal(w + "." + f) == Some(DecimalValue(w, f))
  {
    var s := w + "." + f;
    assert forall k :: 0 <= k < |w| ==> IsDigitIn(w[k], 10);
    assert DigitRun(s, 10) == w by {
      assert s == w + ("." + f);
      DigitRunPrefix(w, "." + f, 10);
    }
    assert s[|w|..] == "." + f;
    assert ("." + f)[1..] == f;
  }

  /** The digit run of digits followed by a non-digit stops at the non-digit. */
  lemma {:induction false} DigitRunPrefix(w: string, rest: string, base: nat)
    requires forall k :: 0 <= k < |w| ==> IsDigitIn(w[k], base)
    requires rest != [] && !IsDigitIn(rest[0], base)
    ensures DigitRun(w + rest, base) == w
  {
    if w != [] {
      assert (w + rest)[1..] == w[1..] + rest;
      DigitRunPrefix(w[1..], rest, base);
    }
  }

  // ---------------------------------------------------------------------------------------------
  // Identifiers

  /** A record identifier. The source mixes string ids (`csv-3`, `mock-…`) with the numeric ids of
      database rows, and compares them with `===`. */
  datatype Id = StrId(s: string) | NumId(n: int)

  /** `id.toString()`. */
  function IdToString(id: Id): string {
    match id
    case StrId(s) => s
    case NumId(n) => IntToString(n)
  }
}
