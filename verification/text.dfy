/** The JavaScript string operations the routes and the browser rely on:
    decimal rendering of integers, `parseInt`, `parseFloat`, `trim`, `toLowerCase`,
    `split(",")` and `includes`, each written out over `seq<char>`. */
module Text {
  import opened Wrappers

  // ---------------------------------------------------------------------
  // Digits in radix 10 and 16

  /** Value of `c` as a digit of `radix` (10 or 16), if it is one. */
  function DigitIn(c: char, radix: nat): Option<nat>
  {
    if '0' <= c <= '9' then Some(c as int - '0' as int)
    else if radix == 16 && 'a' <= c <= 'f' then Some(c as int - 'a' as int + 10)
    else if radix == 16 && 'A' <= c <= 'F' then Some(c as int - 'A' as int + 10)
    else None
  }

  predicate AllIn(s: string, radix: nat)
  {
    forall i :: 0 <= i < |s| ==> DigitIn(s[i], radix).Some?
  }

  /** Positional value of a digit string, most significant digit first. */
  function ValueIn(s: string, radix: nat): nat
    requires AllIn(s, radix)
  {
    if |s| == 0 then 0
    else ValueIn(s[..|s| - 1], radix) * radix + DigitIn(s[|s| - 1], radix).value
  }

  predicate IsDigit(c: char) { '0' <= c <= '9' }

  predicate AllDigits(s: string) { AllIn(s, 10) }

  /** A digit appended to a digit string leaves a digit string. */
  lemma AllDigitsSnoc(s: string, c: char)
    requires AllDigits(s) && IsDigit(c)
    ensures AllDigits(s + [c])
  {
    assert forall i :: 0 <= i < |s| ==> (s + [c])[i] == s[i];
  }

  function DigitsValue(s: string): nat
    requires AllDigits(s)
  {
    ValueIn(s, 10)
  }

  function DigitChar(d: nat): (c: char)
    requires d < 10
    ensures IsDigit(c) && DigitIn(c, 10) == Some(d)
  {
    ('0' as int + d) as char
  }

  /** Decimal rendering of a natural number (JavaScript `String(n)` for a
      non-negative integer): digits only, no leading zero, and reading it
      back gives `n`. */
  function NatToString(n: nat): (s: string)
    ensures |s| > 0 && AllDigits(s)
    ensures DigitsValue(s) == n
    ensures s[0] != '0' || s == "0"
  {
    if n < 10 then
      var s := [DigitChar(n)];
      assert s[..0] == [];
      assert DigitsValue(s) == ValueIn(s[..0], 10) * 10 + DigitIn(s[0], 10).value == n;
      s
    else
      var prefix := NatToString(n / 10);
      var s := prefix + [DigitChar(n % 10)];
      assert s[..|s| - 1] == prefix;
      s
  }

  /** Decimal rendering of an integer (`Number.prototype.toString`). */
  function IntToString(i: int): (s: string)
    ensures |s| > 0
    ensures i >= 0 ==> AllDigits(s) && DigitsValue(s) == i
    ensures i < 0 ==> s[0] == '-' && AllDigits(s[1..]) && DigitsValue(s[1..]) == -i
  {
    if i < 0 then "-" + NatToString(-i) else NatToString(i)
  }

  /** The decimal rendering is one-to-one. */
  lemma NatToStringInjective(a: nat, b: nat)
    requires NatToString(a) == NatToString(b)
    ensures a == b
  {
  }

  // ---------------------------------------------------------------------
  // Whitespace and trimming

  /** ECMAScript WhiteSpace and LineTerminator code points (what `trim`
      removes and `parseInt` skips). */
  predicate IsJsSpace(c: char)
  {
    c == '\t' || c == '\n' || c == '\U{B}' || c == '\U{C}' || c == '\r' || c == ' '
    || c == '\U{A0}' || c == '\U{1680}' || ('\U{2000}' <= c <= '\U{200A}')
    || c == '\U{2028}' || c == '\U{2029}' || c == '\U{202F}' || c == '\U{205F}'
    || c == '\U{3000}' || c == '\U{FEFF}'
  }

  /** `trimStart`: drops the leading white space and nothing else. */
  function TrimStart(s: string): (r: string)
    ensures |r| <= |s| && r == s[|s| - |r|..]
    ensures forall i {:trigger IsJsSpace(s[i])} :: 0 <= i < |s| - |r| ==> IsJsSpace(s[i])
    ensures |r| == 0 || !IsJsSpace(r[0])
  {
    if |s| > 0 && IsJsSpace(s[0]) then TrimStart(s[1..]) else s
  }

  /** `trimEnd`: drops the trailing white space and nothing else. */
  function TrimEnd(s: string): (r: string)
    ensures |r| <= |s| && r == s[..|r|]
    ensures forall i {:trigger IsJsSpace(s[i])} :: |r| <= i < |s| ==> IsJsSpace(s[i])
    ensures |r| == 0 || !IsJsSpace(r[|r| - 1])
  {
    if |s| > 0 && IsJsSpace(s[|s| - 1]) then TrimEnd(s[..|s| - 1]) else s
  }

  /** `trim`: the slice of `s` between its leading and trailing white space,
      starting where `trimStart` stops. */
  function Trim(s: string): (r: string)
    ensures OccursAt(s, r, |s| - |TrimStart(s)|)
    ensures |r| == 0 || (!IsJsSpace(r[0]) && !IsJsSpace(r[|r| - 1]))
  {
    var t := TrimStart(s);
    var r := TrimEnd(t);
    TrimSlice(s, t, r);
    r
  }

  /** A prefix `r` of a suffix `t` of `s` occurs in `s`, and keeps the
      ends that `trimStart` and `trimEnd` left free of white space. */
  lemma TrimSlice(s: string, t: string, r: string)
    requires |t| <= |s| && t == s[|s| - |t|..] && (|t| == 0 || !IsJsSpace(t[0]))
    requires |r| <= |t| && r == t[..|r|] && (|r| == 0 || !IsJsSpace(r[|r| - 1]))
    ensures OccursAt(s, r, |s| - |t|)
    ensures |r| == 0 || (!IsJsSpace(r[0]) && !IsJsSpace(r[|r| - 1]))
  {
    var a := |s| - |t|;
    assert s[a..][..|r|] == s[a..a + |r|];
    assert |r| > 0 ==> r[0] == t[0];
  }

  /** A string without surrounding white space is its own trim. */
  lemma TrimUntouched(s: string)
    requires |s| == 0 || (!IsJsSpace(s[0]) && !IsJsSpace(s[|s| - 1]))
    ensures Trim(s) == s
  {
  }

  // ---------------------------------------------------------------------
  // Case folding

  /** `toLowerCase` on one character, restricted to ASCII letters. */
  function LowerChar(c: char): char
  {
    if 'A' <= c <= 'Z' then (c as int + 32) as char else c
  }

  function Lower(s: string): (r: string)
    ensures |r| == |s|
    ensures forall i :: 0 <= i < |s| ==> r[i] == LowerChar(s[i])
  {
    seq(|s|, i requires 0 <= i < |s| => LowerChar(s[i]))
  }

  /** Lower-casing twice is lower-casing once. */
  lemma LowerIdempotent(s: string)
    ensures Lower(Lower(s)) == Lower(s)
  {
  }

  // ---------------------------------------------------------------------
  // Splitting on a separator

  /** Inverse of `split`: the parts glued back with `sep` between them. */
  function Join(parts: seq<string>, sep: char): string
    requires |parts| >= 1
  {
    if |parts| == 1 then parts[0] else parts[0] + [sep] + Join(parts[1..], sep)
  }

  /** `String.prototype.split` with a one-character separator: one more part
      than there are separators, no part holds the separator, and joining
      the parts gives the input back. */
  function Split(s: string, sep: char): (parts: seq<string>)
    ensures |parts| >= 1
    ensures forall i :: 0 <= i < |parts| ==> sep !in parts[i]
    ensures Join(parts, sep) == s
  {
    if |s| == 0 then [""]
    else
      var rest := Split(s[1..], sep);
      if s[0] == sep then
        assert [s[0]] + s[1..] == s;
        [""] + rest
      else
        var parts := [[s[0]] + rest[0]] + rest[1..];
        assert parts[1..] == rest[1..];
        assert [s[0]] + s[1..] == s;
        parts
  }

  lemma {:induction false} SplitNoSeparator(p: string, sep: char)
    requires sep !in p
    ensures Split(p, sep) == [p]
  {
    if |p| > 0 {
      SplitNoSeparator(p[1..], sep);
      assert [p[0]] + p[1..] == p;
    }
  }

  lemma {:induction false} SplitAfterFirstPart(p: string, t: string, sep: char)
    requires sep !in p
    ensures Split(p + [sep] + t, sep) == [p] + Split(t, sep)
  {
    if |p| == 0 {
      assert p + [sep] + t == [sep] + t;
      assert ([sep] + t)[1..] == t;
    } else {
      SplitAfterFirstPart(p[1..], t, sep);
      assert (p + [sep] + t)[1..] == p[1..] + [sep] + t;
      assert [p[0]] + p[1..] == p;
    }
  }

  /** Round trip: splitting what was joined from separator-free parts gives the parts. */
  lemma {:induction false} SplitJoin(parts: seq<string>, sep: char)
    requires |parts| >= 1
    requires forall i :: 0 <= i < |parts| ==> sep !in parts[i]
    ensures Split(Join(parts, sep), sep) == parts
  {
    if |parts| == 1 {
      SplitNoSeparator(parts[0], sep);
    } else {
      SplitJoin(parts[1..], sep);
      SplitAfterFirstPart(parts[0], Join(parts[1..], sep), sep);
      assert [parts[0]] + parts[1..] == parts;
    }
  }

  lemma {:induction false} JoinAppend(parts: seq<string>, e: string, sep: char)
    requires |parts| >= 1
    ensures Join(parts + [e], sep) == Join(parts, sep) + [sep] + e
  {
    if |parts| > 1 {
      JoinAppend(parts[1..], e, sep);
      assert (parts + [e])[1..] == parts[1..] + [e];
    }
  }

  /** Appending `sep` and a separator-free entry adds exactly one part. */
  lemma SplitAppend(s: string, e: string, sep: char)
    requires sep !in e
    ensures Split(s + [sep] + e, sep) == Split(s, sep) + [e]
  {
    var ps := Split(s, sep);
    JoinAppend(ps, e, sep);
    var all := ps + [e];
    assert forall i :: 0 <= i < |all| ==> sep !in all[i] by {
      forall i | 0 <= i < |all| ensures sep !in all[i] {
        if i < |ps| { assert all[i] == ps[i]; }
      }
    }
    SplitJoin(all, sep);
  }

  // ---------------------------------------------------------------------
  // Substring search

  predicate OccursAt(s: string, sub: string, i: int)
  {
    0 <= i && i + |sub| <= |s| && s[i..i + |sub|] == sub
  }

  /** `String.prototype.includes`. */
  function Contains(s: string, sub: string): (r: bool)
    ensures r <==> exists i :: OccursAt(s, sub, i)
    decreases |s|
  {
    if |sub| > |s| then false
    else if s[..|sub|] == sub then
      assert OccursAt(s, sub, 0);
      true
    else
      var r := Contains(s[1..], sub);
      ContainsShift(s, sub);
      r
  }

  lemma ContainsShift(s: string, sub: string)
    requires |sub| <= |s| && s[..|sub|] != sub
    ensures (exists i :: OccursAt(s, sub, i)) <==> (exists i :: OccursAt(s[1..], sub, i))
  {
    if exists i :: OccursAt(s, sub, i) {
      var i :| OccursAt(s, sub, i);
      assert i != 0;
      assert s[1..][i - 1..i - 1 + |sub|] == s[i..i + |sub|];
      assert OccursAt(s[1..], sub, i - 1);
    }
    if exists i :: OccursAt(s[1..], sub, i) {
      var i :| OccursAt(s[1..], sub, i);
      assert s[1..][i..i + |sub|] == s[i + 1..i + 1 + |sub|];
      assert OccursAt(s, sub, i + 1);
    }
  }

  // ---------------------------------------------------------------------
  // parseInt

  /** Number of leading characters of `s` that are digits of `radix`. */
  function LeadingDigits(s: string, radix: nat): (k: nat)
    ensures k <= |s| && AllIn(s[..k], radix)
    ensures k < |s| ==> DigitIn(s[k], radix).None?
  {
    if |s| == 0 || DigitIn(s[0], radix).None? then 0
    else
      var k := 1 + LeadingDigits(s[1..], radix);
      assert forall i :: 1 <= i < k ==> s[..k][i] == s[1..][..k - 1][i - 1];
      k
  }

  predicate HexPrefix(s: string)
  {
    |s| >= 2 && s[0] == '0' && (s[1] == 'x' || s[1] == 'X')
  }

  /** `parseInt(s)` with no radix: skips leading white space, takes an
      optional sign, switches to radix 16 after `0x`/`0X`, then reads the
      longest run of digits; `None` stands for `NaN` (no digit read). */
  function ParseInt(s: string): Option<int>
  {
    var t := TrimStart(s);
    var negative := |t| > 0 && t[0] == '-';
    var u := if |t| > 0 && (t[0] == '-' || t[0] == '+') then t[1..] else t;
    var radix := if HexPrefix(u) then 16 else 10;
    var body := if HexPrefix(u) then u[2..] else u;
    var k := LeadingDigits(body, radix);
    if k == 0 then None
    else
      var v := ValueIn(body[..k], radix);
      var n: int := if negative then -(v as int) else v;
      Some(n)
  }

  lemma ValueInPrefix(s: string, k: nat, radix: nat)
    requires k <= |s| && AllIn(s, radix)
    ensures AllIn(s[..k], radix)
  {
    assert forall i :: 0 <= i < k ==> s[..k][i] == s[i];
  }

  /** A run of decimal digits followed by a non-digit (and not forming a
      `0x` prefix) parses to the run's value: `parseInt("7x") == 7`. */
  lemma ParseIntDigitsThenRest(d: string, t: string)
    requires |d| > 0 && AllDigits(d)
    requires |t| == 0 || !IsDigit(t[0])
    requires !(d == "0" && |t| > 0 && (t[0] == 'x' || t[0] == 'X'))
    ensures ParseInt(d + t) == Some(DigitsValue(d))
  {
    var s := d + t;
    assert s[0] == d[0];
    assert TrimStart(s) == s;
    assert !HexPrefix(s) by {
      if |d| >= 2 { assert s[1] == d[1]; }
    }
    var k := LeadingDigits(s, 10);
    assert forall i :: 0 <= i < |d| ==> s[i] == d[i];
    LeadingDigitsOfRun(s, |d|);
    assert s[..k] == d;
  }

  lemma {:induction false} LeadingDigitsOfRun(s: string, n: nat)
    requires n <= |s|
    requires forall i :: 0 <= i < n ==> DigitIn(s[i], 10).Some?
    requires n == |s| || !IsDigit(s[n])
    ensures LeadingDigits(s, 10) == n
  {
    if n > 0 {
      LeadingDigitsOfRun(s[1..], n - 1);
    }
  }

  /** A pure digit string parses to its decimal value. */
  lemma ParseIntDigits(d: string)
    requires |d| > 0 && AllDigits(d)
    ensures ParseInt(d) == Some(DigitsValue(d))
  {
    ParseIntDigitsThenRest(d, "");
    assert d + "" == d;
  }

  /** A leading zero does not change the value of a digit string. */
  lemma {:induction false} LeadingZeroValue(d: string)
    requires AllDigits(d)
    ensures AllDigits("0" + d) && DigitsValue("0" + d) == DigitsValue(d)
  {
    var z := "0" + d;
    assert forall i :: 1 <= i < |z| ==> z[i] == d[i - 1];
    assert AllDigits(z) by {
      forall i | 0 <= i < |z| ensures DigitIn(z[i], 10).Some? {
        if i > 0 { assert DigitIn(d[i - 1], 10).Some?; }
      }
    }
    if |d| == 0 {
      assert z[..0] == [];
    } else {
      var p := d[..|d| - 1];
      assert z[..|z| - 1] == "0" + p;
      assert z[|z| - 1] == d[|d| - 1];
      LeadingZeroValue(p);
    }
  }

  /** Round trip: `parseInt(String(n)) == n`. */
  lemma ParseIntOfNatToString(n: nat)
    ensures ParseInt(NatToString(n)) == Some(n)
  {
    ParseIntDigits(NatToString(n));
  }

  // ---------------------------------------------------------------------
  // parseFloat

  function Pow10(n: nat): (p: nat)
    ensures p >= 1
  {
    if n == 0 then 1 else 10 * Pow10(n - 1)
  }

  /** Value of the digits `f` read after a decimal point. */
  function FractionValue(f: string): real
    requires AllDigits(f)
  {
    DigitsValue(f) as real / Pow10(|f|) as real
  }

  /** `parseFloat(s)` on decimal text: skips leading white space, takes an
      optional sign, then reads the longest `digits.digits` prefix, either
      side of the point possibly empty; `None` stands for `NaN` (no digit
      read). */
  function ParseFloat(s: string): Option<real>
  {
    var t := TrimStart(s);
    var negative := |t| > 0 && t[0] == '-';
    var u := if |t| > 0 && (t[0] == '-' || t[0] == '+') then t[1..] else t;
    var k := LeadingDigits(u, 10);
    var rest := u[k..];
    var f := if |rest| > 0 && rest[0] == '.' then LeadingDigits(rest[1..], 10) else 0;
    var frac := if f > 0 then rest[1..][..f] else "";
    if k == 0 && f == 0 then None
    else
      var v := DigitsValue(u[..k]) as real + FractionValue(frac);
      Some(if negative then -v else v)
  }

  /** Decimal text with its point at `k` reads as the digits before the
      point plus those after it read as a fraction: `parseFloat("0.7") == 0.7`. */
  lemma ParseFloatDecimal(t: string, k: nat)
    requires k < |t| && t[k] == '.' && |t| > 1
    requires AllDigits(t[..k]) && AllDigits(t[k + 1..])
    ensures ParseFloat(t) == Some(DigitsValue(t[..k]) as real + FractionValue(t[k + 1..]))
  {
    PointPieces(t, k);
    var f := t[k + 1..];
    LeadingDigitsOfRun(f, |f|);
    var frac := if |f| > 0 then t[k..][1..][..|f|] else "";
    assert frac == f;
  }

  /** How `w.f` falls apart: no white space or sign to skip, the digits
      before the point, then the point and the rest. */
  lemma PointPieces(t: string, k: nat)
    requires k < |t| && t[k] == '.'
    requires AllDigits(t[..k])
    ensures TrimStart(t) == t && t[0] != '-' && t[0] != '+'
    ensures LeadingDigits(t, 10) == k
    ensures t[k..][0] == '.' && t[k..][1..] == t[k + 1..]
  {
    assert forall i :: 0 <= i < k ==> t[..k][i] == t[i];
    assert !IsJsSpace(t[0]) && t[0] != '-' && t[0] != '+' by {
      if k > 0 { assert DigitIn(t[..k][0], 10).Some?; }
    }
    LeadingDigitsOfRun(t, k);
  }

  /** Text whose first character can start no number reads as `NaN`. */
  lemma ParseFloatNaN(s: string)
    requires |s| > 0 && DigitIn(s[0], 10).None? && !IsJsSpace(s[0])
    requires s[0] != '-' && s[0] != '+' && s[0] != '.'
    ensures ParseFloat(s).None?
  {
    assert TrimStart(s) == s;
  }

  // ---------------------------------------------------------------------
  // UTF-8 size

  /** Bytes UTF-8 spends on one code point. */
  function Utf8Width(c: char): (w: nat)
    ensures 1 <= w <= 4
  {
    if c < '\U{80}' then 1 else if c < '\U{800}' then 2 else if c < '\U{10000}' then 3 else 4
  }

  /** `Buffer.byteLength(s, "utf8")`: the UTF-8 size of `s`, at least one
      byte per character and at most four. */
  function Utf8Length(s: string): (n: nat)
    ensures |s| <= n <= 4 * |s|
  {
    if |s| == 0 then 0 else Utf8Width(s[0]) + Utf8Length(s[1..])
  }
}
