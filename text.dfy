// String operations the source relies on: Python's str.strip(), str.replace(),
// float() on decimal text, and SQLite's ASCII-case-insensitive LIKE '%q%'.
module Text {
  import opened Options

  /** Python's str.isspace() for one character: the characters str.strip() and float() skip. */
  predicate IsSpace(c: char) {
    || ('\t' <= c <= '\r')
    || ('\U{1C}' <= c <= ' ')
    || c == '\U{85}' || c == '\U{A0}' || c == '\U{1680}'
    || ('\U{2000}' <= c <= '\U{200A}')
    || c == '\U{2028}' || c == '\U{2029}' || c == '\U{202F}' || c == '\U{205F}' || c == '\U{3000}'
  }

  /** Neither starts nor ends with whitespace. */
  predicate Trimmed(s: string) {
    s == [] || (!IsSpace(s[0]) && !IsSpace(s[|s| - 1]))
  }

  predicate AllSpace(s: string) {
    forall k :: 0 <= k < |s| ==> IsSpace(s[k])
  }

  /** str.strip(): `s` without its leading and trailing whitespace. */
  function Strip(s: string): (r: string)
    ensures |r| <= |s|
    ensures Trimmed(r)
    ensures forall c :: c in r ==> c in s
    decreases |s|
  {
    if s != [] && IsSpace(s[0]) then Strip(s[1..])
    else if s != [] && IsSpace(s[|s| - 1]) then Strip(s[..|s| - 1])
    else s
  }

  /** A text that has no surrounding whitespace is its own strip, so stripping twice is stripping once. */
  lemma StripTrimmed(s: string)
    requires Trimmed(s)
    ensures Strip(s) == s
  {
  }

  lemma StripIdempotent(s: string)
    ensures Strip(Strip(s)) == Strip(s)
  {
    StripTrimmed(Strip(s));
  }

  /** str.replace(c, ''): every occurrence of `c` removed, the rest kept in order. */
  function RemoveChar(s: string, c: char): (r: string)
    ensures |r| <= |s|
    ensures forall d :: d in r <==> d in s && d != c
  {
    if s == [] then [] else (if s[0] == c then [] else [s[0]]) + RemoveChar(s[1..], c)
  }

  lemma {:induction false} RemoveCharConcat(a: string, b: string, c: char)
    ensures RemoveChar(a + b, c) == RemoveChar(a, c) + RemoveChar(b, c)
  {
    if a != [] {
      assert (a + b)[1..] == a[1..] + b;
      RemoveCharConcat(a[1..], b, c);
    } else {
      assert a + b == b;
    }
  }

  /** Leading whitespace does not change the strip. */
  lemma {:induction false} StripSpacesLeft(lead: string, z: string)
    requires AllSpace(lead)
    ensures Strip(lead + z) == Strip(z)
    decreases |lead|
  {
    if lead != [] {
      assert (lead + z)[1..] == lead[1..] + z;
      StripSpacesLeft(lead[1..], z);
    } else {
      assert lead + z == z;
    }
  }

  /** Trailing whitespace does not change the strip. */
  lemma {:induction false} StripSpacesRight(z: string, trail: string)
    requires AllSpace(trail)
    ensures Strip(z + trail) == Strip(z)
    decreases |z| + |trail|
  {
    var x := z + trail;
    if trail == [] {
      assert x == z;
    } else if z == [] {
      assert x == trail + [];
      StripSpacesLeft(trail, []);
    } else if IsSpace(x[0]) {
      assert x[1..] == z[1..] + trail;
      StripSpacesRight(z[1..], trail);
    } else {
      var init := trail[..|trail| - 1];
      assert IsSpace(x[|x| - 1]);
      assert x[..|x| - 1] == z + init;
      StripSpacesRight(z, init);
    }
  }

  /** Whitespace around a text does not change its strip. */
  lemma StripPadded(lead: string, y: string, trail: string)
    requires AllSpace(lead) && AllSpace(trail)
    ensures Strip(lead + y + trail) == Strip(y)
  {
    assert lead + y + trail == lead + (y + trail);
    StripSpacesLeft(lead, y + trail);
    StripSpacesRight(y, trail);
  }

  /** A text is its leading whitespace, its strip and its trailing whitespace. */
  lemma {:induction false} StripSplit(x: string) returns (lead: string, trail: string)
    ensures AllSpace(lead) && AllSpace(trail) && x == lead + Strip(x) + trail
    decreases |x|
  {
    if x != [] && IsSpace(x[0]) {
      var l, t := StripSplit(x[1..]);
      lead, trail := [x[0]] + l, t;
      SpaceConcat([x[0]], l);
      Regroup([x[0]], x[1..], l, Strip(x), t);
    } else if x != [] && IsSpace(x[|x| - 1]) {
      var l, t := StripSplit(x[..|x| - 1]);
      lead, trail := l, t + [x[|x| - 1]];
      SpaceConcat(t, [x[|x| - 1]]);
      assert x == x[..|x| - 1] + [x[|x| - 1]];
      assert Strip(x) == Strip(x[..|x| - 1]);
      assert l + Strip(x) + (t + [x[|x| - 1]]) == (l + Strip(x) + t) + [x[|x| - 1]];
    } else {
      lead, trail := [], [];
      assert [] + Strip(x) + [] == Strip(x);
    }
  }

  lemma SpaceConcat(a: string, b: string)
    requires AllSpace(a) && AllSpace(b)
    ensures AllSpace(a + b)
  {
    forall k | 0 <= k < |a + b| ensures IsSpace((a + b)[k]) {
      if k < |a| {
        assert (a + b)[k] == a[k];
      } else {
        assert (a + b)[k] == b[k - |a|];
      }
    }
  }

  /** x == h + rest and rest == l + m + t give x == (h + l) + m + t. */
  lemma Regroup(h: string, rest: string, l: string, m: string, t: string)
    requires rest == l + m + t
    ensures h + rest == (h + l) + m + t
  {
  }

  lemma {:induction false} RemoveCharAbsent(s: string, c: char)
    requires c !in s
    ensures RemoveChar(s, c) == s
  {
    if s != [] {
      assert c !in s[1..];
      RemoveCharAbsent(s[1..], c);
      assert s == [s[0]] + s[1..];
    }
  }

  /** Removing a non-blank character leaves whitespace as it is. */
  lemma {:induction false} RemoveCharFromSpaces(s: string, c: char)
    requires AllSpace(s) && !IsSpace(c)
    ensures RemoveChar(s, c) == s
  {
    if s != [] {
      RemoveCharFromSpaces(s[1..], c);
      assert s == [s[0]] + s[1..];
    }
  }

  /**
   * Removing a non-blank character before or after stripping gives the same text once the
   * result is stripped again.
   */
  lemma StripRemoveStrip(x: string, c: char)
    requires !IsSpace(c)
    ensures Strip(RemoveChar(Strip(x), c)) == Strip(RemoveChar(x, c))
  {
    var lead, trail := StripSplit(x);
    var removed := RemoveChar(Strip(x), c);
    RemoveCharPadded(lead, Strip(x), trail, c);
    StripPadded(lead, removed, trail);
  }

  /** Removing a non-blank character leaves the whitespace around a text in place. */
  lemma RemoveCharPadded(lead: string, y: string, trail: string, c: char)
    requires AllSpace(lead) && AllSpace(trail) && !IsSpace(c)
    ensures RemoveChar(lead + y + trail, c) == lead + RemoveChar(y, c) + trail
  {
    assert lead + y + trail == lead + (y + trail);
    RemoveCharConcat(lead, y + trail, c);
    RemoveCharConcat(y, trail, c);
    RemoveCharFromSpaces(lead, c);
    RemoveCharFromSpaces(trail, c);
  }

  /** SQLite's case folding for LIKE: only the ASCII letters A-Z are folded. */
  function LowerAscii(c: char): (d: char)
    ensures 'A' <= c <= 'Z' ==> 'a' <= d <= 'z' && d as int == c as int + 32
    ensures !('A' <= c <= 'Z') ==> d == c
  {
    if 'A' <= c <= 'Z' then (c as int + 32) as char else c
  }

  function Lower(s: string): (r: string)
    ensures |r| == |s| && forall i :: 0 <= i < |s| ==> r[i] == LowerAscii(s[i])
  {
    seq(|s|, i requires 0 <= i < |s| => LowerAscii(s[i]))
  }

  /** `q` occurs in `s` as a contiguous substring. */
  predicate Contains(s: string, q: string)
    decreases |s|
  {
    q <= s || (s != [] && Contains(s[1..], q))
  }

  /** `q` occurs in `s` starting at position `i`. */
  predicate OccursAt(s: string, q: string, i: int) {
    0 <= i <= |s| - |q| && s[i..i + |q|] == q
  }

  /** Contains agrees with the positional definition of a substring, in both directions. */
  lemma ContainsIff(s: string, q: string)
    ensures Contains(s, q) <==> exists i :: OccursAt(s, q, i)
  {
    if exists i :: OccursAt(s, q, i) {
      var i :| OccursAt(s, q, i);
      OccursContains(s, q, i);
    }
    if Contains(s, q) {
      var i := ContainsOccurs(s, q);
    }
  }

  lemma {:induction false} OccursContains(s: string, q: string, i: int)
    requires OccursAt(s, q, i)
    ensures Contains(s, q)
    decreases i
  {
    if i == 0 {
      assert q <= s;
    } else {
      assert OccursAt(s[1..], q, i - 1);
      OccursContains(s[1..], q, i - 1);
    }
  }

  lemma {:induction false} ContainsOccurs(s: string, q: string) returns (i: int)
    requires Contains(s, q)
    ensures OccursAt(s, q, i)
    decreases |s|
  {
    if q <= s {
      i := 0;
      assert s[..|q|] == q;
    } else {
      var j := ContainsOccurs(s[1..], q);
      i := j + 1;
      assert s[i..i + |q|] == s[1..][j..j + |q|];
    }
  }

  lemma ContainsEmpty(s: string)
    ensures Contains(s, [])
  {
  }

  // ---- float() on decimal text ----

  predicate IsDigit(c: char) { '0' <= c <= '9' }

  predicate AllDigits(s: string) { forall k :: 0 <= k < |s| ==> IsDigit(s[k]) }

  function DigitValue(c: char): (v: nat)
    requires IsDigit(c)
    ensures v < 10
  {
    c as int - '0' as int
  }

  /** The natural number a string of decimal digits denotes. */
  function DigitsValue(ds: string): nat
    requires AllDigits(ds)
  {
    if ds == [] then 0 else DigitsValue(ds[..|ds| - 1]) * 10 + DigitValue(ds[|ds| - 1])
  }

  /** The length of the run of digits `s` starts with. */
  function LeadingDigits(s: string): (n: nat)
    ensures n <= |s| && AllDigits(s[..n])
    ensures n < |s| ==> !IsDigit(s[n])
  {
    if s != [] && IsDigit(s[0]) then
      var n := 1 + LeadingDigits(s[1..]);
      assert s[..n] == [s[0]] + s[1..][..n - 1];
      n
    else 0
  }

  function Pow10(n: nat): (r: nat)
    ensures r >= 1
  {
    if n == 0 then 1 else 10 * Pow10(n - 1)
  }

  /** k digits denote less than 10^k. */
  lemma {:induction false} DigitsValueBound(ds: string)
    requires AllDigits(ds)
    ensures DigitsValue(ds) < Pow10(|ds|)
  {
    if ds != [] {
      var init := ds[..|ds| - 1];
      DigitsValueBound(init);
      assert DigitsValue(init) + 1 <= Pow10(|init|);
      assert DigitsValue(ds) < (DigitsValue(init) + 1) * 10;
      assert (DigitsValue(init) + 1) * 10 <= Pow10(|init|) * 10;
    }
  }

  /** The value of the digits after a decimal point: 0.d1d2...dk. */
  function DecimalFraction(ds: string): (r: real)
    requires AllDigits(ds)
    ensures 0.0 <= r < 1.0
  {
    DigitsValueBound(ds);
    QuotientBelowOne(DigitsValue(ds) as real, Pow10(|ds|) as real);
    DigitsValue(ds) as real / Pow10(|ds|) as real
  }

  lemma QuotientBelowOne(a: real, b: real)
    requires 0.0 <= a < b
    ensures 0.0 <= a / b < 1.0
  {
    assert (a / b) * b == a;
  }

  /** An unsigned decimal numeral: digits, optionally a point and more digits, at least one digit in all. */
  function ParseUnsigned(s: string): Option<real>
  {
    var n := LeadingDigits(s);
    var whole := DigitsValue(s[..n]) as real;
    if n == |s| then
      if n > 0 then Some(whole) else None
    else if s[n] == '.' && LeadingDigits(s[n + 1..]) == |s| - n - 1 && (n > 0 || |s| > n + 1) then
      var fraction := s[n + 1..];
      Some(whole + DecimalFraction(fraction))
    else None
  }

  /** A numeral holds at least one digit. */
  lemma ParseUnsignedDigit(s: string)
    ensures ParseUnsigned(s).Some? ==> exists c :: c in s && IsDigit(c)
  {
    var n := LeadingDigits(s);
    if ParseUnsigned(s).Some? {
      if n > 0 {
        assert s[..n][0] == s[0];
      } else {
        assert LeadingDigits(s[n + 1..]) == |s| - n - 1 > 0;
        assert s[n + 1..][..|s| - n - 1][0] == s[1];
      }
    }
  }

  /** float() strips its argument first, so padding never changes the parse. */
  lemma ParseFloatPadding(s: string)
    ensures ParseFloat(Strip(s)) == ParseFloat(s)
  {
    StripIdempotent(s);
  }

  /** Python's float(text) for plain decimal numerals with an optional sign and surrounding whitespace. */
  function ParseFloat(s: string): (r: Option<real>)
    ensures r.Some? ==> exists c :: c in s && IsDigit(c)
  {
    var t := Strip(s);
    ParseUnsignedDigit(t);
    if t != [] && (t[0] == '+' || t[0] == '-') then
      ParseUnsignedDigit(t[1..]);
      assert forall c :: c in t[1..] ==> c in t;
      match ParseUnsigned(t[1..])
      case None => None
      case Some(v) => Some(if t[0] == '-' then -v else v)
    else ParseUnsigned(t)
  }

  /** A run of digits followed by anything but a digit: the leading run is exactly those digits. */
  lemma {:induction false} LeadingDigitsConcat(ds: string, rest: string)
    requires AllDigits(ds)
    requires rest == [] || !IsDigit(rest[0])
    ensures LeadingDigits(ds + rest) == |ds|
    decreases |ds|
  {
    if ds != [] {
      assert (ds + rest)[1..] == ds[1..] + rest;
      LeadingDigitsConcat(ds[1..], rest);
    }
  }

  /** Text whose leading digits `whole` stop at a point followed by the digits `fraction` reads as a decimal. */
  lemma ParseUnsignedAtPoint(s: string, whole: string, fraction: string)
    requires |s| == |whole| + 1 + |fraction| && s[..|whole|] == whole && s[|whole|] == '.' && s[|whole| + 1..] == fraction
    requires LeadingDigits(s) == |whole| && LeadingDigits(fraction) == |fraction|
    requires whole != [] || fraction != []
    ensures AllDigits(fraction)
    ensures ParseUnsigned(s) == Some(DigitsValue(whole) as real + DecimalFraction(fraction))
  {
    assert fraction[..|fraction|] == fraction;
  }

  /** The unsigned numeral "<whole>.<fraction>" is the whole part plus the fraction's digits over a power of ten. */
  lemma ParseUnsignedDecimal(whole: string, fraction: string)
    requires AllDigits(whole) && AllDigits(fraction)
    requires whole != [] || fraction != []
    ensures ParseUnsigned(whole + "." + fraction)
      == Some(DigitsValue(whole) as real + DecimalFraction(fraction))
  {
    var s := whole + "." + fraction;
    assert LeadingDigits(s) == |whole| by {
      LeadingDigitsConcat(whole, "." + fraction);
      assert s == whole + ("." + fraction);
    }
    assert LeadingDigits(fraction) == |fraction| by {
      LeadingDigitsConcat(fraction, []);
      assert fraction + [] == fraction;
    }
    assert s[..|whole|] == whole && s[|whole|] == '.' && s[|whole| + 1..] == fraction;
    ParseUnsignedAtPoint(s, whole, fraction);
  }

  /** Every non-empty run of digits is an unsigned numeral, read as its value. */
  lemma ParseUnsignedWhole(w: string)
    requires AllDigits(w) && w != []
    ensures ParseUnsigned(w) == Some(DigitsValue(w) as real)
  {
    LeadingDigitsConcat(w, []);
    assert w + [] == w;
    assert w[..|w|] == w;
  }

  /**
   * Only numerals are accepted: text ParseUnsigned reads is digits, optionally followed by a
   * point and more digits, with a digit somewhere, and its value is the one those digits denote.
   */
  lemma ParseUnsignedShape(s: string) returns (w: string, f: string)
    requires ParseUnsigned(s).Some?
    ensures AllDigits(w) && AllDigits(f) && (w != [] || f != [])
    ensures s == w || s == w + "." + f
    ensures ParseUnsigned(s).value == DigitsValue(w) as real + DecimalFraction(f)
  {
    var n := LeadingDigits(s);
    w := s[..n];
    if n == |s| {
      f := [];
      assert s == w;
    } else {
      f := s[n + 1..];
      assert LeadingDigits(f) == |f|;
      assert f[..|f|] == f;
      assert s == w + "." + f;
    }
  }

  /**
   * Only signed numerals are accepted: text float() reads is, after stripping, an optional sign
   * and an unsigned numeral, and its value is that numeral's, negated after a '-'.
   */
  lemma ParseFloatShape(s: string) returns (sign: string, w: string, f: string)
    requires ParseFloat(s).Some?
    ensures sign == "" || sign == "+" || sign == "-"
    ensures AllDigits(w) && AllDigits(f) && (w != [] || f != [])
    ensures Strip(s) == sign + w || Strip(s) == sign + (w + "." + f)
    ensures ParseFloat(s).value
      == if sign == "-" then -(DigitsValue(w) as real + DecimalFraction(f)) else DigitsValue(w) as real + DecimalFraction(f)
  {
    var t := Strip(s);
    var u := t;
    if t != [] && (t[0] == '+' || t[0] == '-') {
      sign := [t[0]];
      u := t[1..];
      assert t == sign + u;
      assert ParseUnsigned(u).Some? && ParseFloat(s).value
        == if sign == "-" then -ParseUnsigned(u).value else ParseUnsigned(u).value;
    } else {
      sign := "";
      assert t == sign + u;
    }
    w, f := ParseUnsignedShape(u);
  }

  /** A numeral with no surrounding whitespace and no sign is read by float() as an unsigned numeral. */
  lemma ParseFloatUnsigned(s: string)
    requires Trimmed(s) && (s == [] || (s[0] != '+' && s[0] != '-'))
    ensures ParseFloat(s) == ParseUnsigned(s)
  {
    StripTrimmed(s);
  }

  /** float("<whole>.<fraction>") is the whole part plus the fraction's digits over a power of ten. */
  lemma ParseDecimal(whole: string, fraction: string)
    requires AllDigits(whole) && AllDigits(fraction)
    requires whole != [] || fraction != []
    ensures ParseFloat(whole + "." + fraction)
      == Some(DigitsValue(whole) as real + DecimalFraction(fraction))
  {
    var s := whole + "." + fraction;
    assert s[0] == if whole != [] then whole[0] else '.';
    assert s[|s| - 1] == if fraction != [] then fraction[|fraction| - 1] else '.';
    ParseFloatUnsigned(s);
    ParseUnsignedDecimal(whole, fraction);
  }

  /** float("-" + u) is the negation of the numeral u; text that is no numeral stays unreadable. */
  lemma MinusNumeral(u: string)
    requires Trimmed(u) && u != []
    ensures ParseFloat("-" + u) == if ParseUnsigned(u).Some? then Some(-ParseUnsigned(u).value) else None
  {
    StripTrimmed("-" + u);
    assert ("-" + u)[1..] == u;
  }

  /** A leading '+' changes nothing: float("+" + u) reads u as an unsigned numeral. */
  lemma PlusNumeral(u: string)
    requires Trimmed(u) && u != []
    ensures ParseFloat("+" + u) == ParseUnsigned(u)
  {
    StripTrimmed("+" + u);
    assert ("+" + u)[1..] == u;
  }

  function DigitChar(d: nat): (c: char)
    requires d < 10
    ensures IsDigit(c) && DigitValue(c) == d
  {
    ('0' as int + d) as char
  }

  /** The decimal numeral of `n`, as str(n) writes it. */
  function NatDigits(n: nat): (s: string)
    ensures s != [] && AllDigits(s)
  {
    if n < 10 then [DigitChar(n)] else NatDigits(n / 10) + [DigitChar(n % 10)]
  }

  lemma {:induction false} NatDigitsValue(n: nat)
    ensures DigitsValue(NatDigits(n)) == n
  {
    var s := NatDigits(n);
    if n >= 10 {
      NatDigitsValue(n / 10);
      assert s[..|s| - 1] == NatDigits(n / 10);
    }
  }

  /** float(str(n)) == n: parsing the numeral of a natural number gives it back. */
  lemma ParseNatDigits(n: nat)
    ensures ParseFloat(NatDigits(n)) == Some(n as real)
  {
    var s := NatDigits(n);
    StripTrimmed(s);
    assert LeadingDigits(s) == |s|;
    assert s[..|s|] == s;
    NatDigitsValue(n);
  }
}
