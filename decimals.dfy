/** Exact decimal magnitudes: the numbers `float()` reads out of a field and
    `str()` writes back, kept as digit text so that the thousandfold tier
    shifts are exact digit moves instead of float arithmetic. */
module Decimals {
  import opened Wrappers
  import opened Text

  /** The number `whole.frac` in base ten; either part may be empty. */
  datatype Decimal = Decimal(whole: string, frac: string)

  predicate WellFormed(d: Decimal) {
    AllDigits(d.whole) && AllDigits(d.frac)
  }

  /** The characters `re.sub(r"[^\d.+]", "", s)` keeps. */
  predicate IsNumericChar(c: char) {
    IsDigit(c) || c == '.' || c == '+'
  }

  /** `re.sub(r"[^\d.+]", "", s)`: drop every other character. */
  function KeepNumeric(s: string): (r: string)
    ensures |r| <= |s|
    ensures forall i :: 0 <= i < |r| ==> IsNumericChar(r[i])
    ensures (forall i :: 0 <= i < |s| ==> IsNumericChar(s[i])) ==> r == s
  {
    if s == [] then []
    else
      assert s == [s[0]] + s[1..];
      (if IsNumericChar(s[0]) then [s[0]] else []) + KeepNumeric(s[1..])
  }

  /** The filter works character by character: it distributes over
      concatenation ... */
  lemma {:induction false} KeepNumericAppend(a: string, b: string)
    ensures KeepNumeric(a + b) == KeepNumeric(a) + KeepNumeric(b)
    decreases |a|
  {
    if a == [] {
      assert a + b == b;
    } else {
      assert (a + b)[0] == a[0] && (a + b)[1..] == a[1..] + b;
      KeepNumericAppend(a[1..], b);
      var head := if IsNumericChar(a[0]) then [a[0]] else [];
      assert KeepNumeric(a + b) == head + (KeepNumeric(a[1..]) + KeepNumeric(b));
      assert KeepNumeric(a) == head + KeepNumeric(a[1..]);
    }
  }

  /** ... and keeps a single character exactly when it is numeric. */
  lemma KeepNumericChar(c: char)
    ensures KeepNumeric([c]) == if IsNumericChar(c) then [c] else []
  {
    assert [c][1..] == [];
  }

  function Pow10(n: nat): (r: nat)
    ensures r >= 1
  {
    if n == 0 then 1 else 10 * Pow10(n - 1)
  }

  lemma {:induction false} Pow10Add(a: nat, b: nat)
    ensures Pow10(a + b) == Pow10(a) * Pow10(b)
    decreases b
  {
    if b > 0 {
      Pow10Add(a, b - 1);
      calc {
        Pow10(a + b);
        10 * Pow10(a + b - 1);
        10 * (Pow10(a) * Pow10(b - 1));
        Pow10(a) * (10 * Pow10(b - 1));
      }
    }
  }

  function DigitValue(c: char): (v: nat)
    ensures v < 10
  {
    if IsDigit(c) then c as int - '0' as int else 0
  }

  /** The integer a digit string denotes; leading zeros are allowed. */
  function DigitsValue(s: string): nat
  {
    if s == [] then 0 else 10 * DigitsValue(s[..|s| - 1]) + DigitValue(s[|s| - 1])
  }

  lemma {:induction false} DigitsValueAppend(a: string, b: string)
    ensures DigitsValue(a + b) == DigitsValue(a) * Pow10(|b|) + DigitsValue(b)
    decreases |b|
  {
    if b == [] {
      assert a + b == a;
    } else {
      var ab := a + b;
      var b' := b[..|b| - 1];
      var last := DigitValue(b[|b| - 1]);
      assert ab[..|ab| - 1] == a + b';
      assert ab[|ab| - 1] == b[|b| - 1];
      assert DigitsValue(ab) == 10 * DigitsValue(a + b') + last;
      assert DigitsValue(b) == 10 * DigitsValue(b') + last;
      DigitsValueAppend(a, b');
      ShiftDigit(DigitsValue(a), Pow10(|b'|), DigitsValue(b'), last);
    }
  }

  lemma ShiftDigit(x: nat, y: nat, z: nat, last: nat)
    ensures 10 * (x * y + z) + last == x * (10 * y) + (10 * z + last)
  {
  }

  /** A string of zeros denotes zero, whatever its length. */
  lemma {:induction false} ZerosValue(z: string)
    requires forall i :: 0 <= i < |z| ==> z[i] == '0'
    ensures DigitsValue(z) == 0
    decreases |z|
  {
    if z != [] {
      ZerosValue(z[..|z| - 1]);
    }
  }

  /** The number's digits with the point removed: the value is
      `Mantissa(d) / 10^Scale(d)`. */
  function Mantissa(d: Decimal): nat {
    DigitsValue(d.whole + d.frac)
  }

  function Scale(d: Decimal): nat {
    |d.frac|
  }

  /** `value < 1.0`. */
  predicate BelowOne(d: Decimal) {
    Mantissa(d) < Pow10(Scale(d))
  }

  /** `value >= 1000.0`. */
  predicate AtLeastThousand(d: Decimal) {
    Mantissa(d) >= 1000 * Pow10(Scale(d))
  }

  /** `value *= 1000`: the point moves three digits right. */
  function Times1000(d: Decimal): (r: Decimal)
    ensures WellFormed(d) ==> WellFormed(r)
    ensures Mantissa(r) == 1000 * Mantissa(d) && Scale(r) == Scale(d)
  {
    var f := d.frac + "000";
    var r := Decimal(d.whole + f[..3], f[3..]);
    assert r.whole + r.frac == (d.whole + d.frac) + "000";
    DigitsValueAppend(d.whole + d.frac, "000");
    ZerosValue("000");
    r
  }

  /** `value /= 1000`: the point moves three digits left. */
  function Div1000(d: Decimal): (r: Decimal)
    ensures WellFormed(d) ==> WellFormed(r)
    ensures Mantissa(r) == Mantissa(d) && Scale(r) == Scale(d) + 3
  {
    var w := "000" + d.whole;
    var r := Decimal(w[..|w| - 3], w[|w| - 3..] + d.frac);
    assert r.whole + r.frac == "000" + (d.whole + d.frac);
    DigitsValueAppend("000", d.whole + d.frac);
    ZerosValue("000");
    r
  }

  /** The digits `str(float)` shows: no leading zeros before the point, no
      trailing zeros after it, and at least one digit on each side. */
  function Canon(d: Decimal): (r: Decimal)
  {
    var w := StripLeft(d.whole, {'0'});
    var f := StripRight(d.frac, {'0'});
    Decimal(if w == [] then "0" else w, if f == [] then "0" else f)
  }

  predicate IsCanonical(d: Decimal) {
    && WellFormed(d)
    && d.whole != [] && d.frac != []
    && (d.whole == "0" || d.whole[0] != '0')
    && (d.frac == "0" || d.frac[|d.frac| - 1] != '0')
  }

  /** `str(value)`: a well-formed magnitude renders as `whole.frac`. */
  function Render(d: Decimal): string {
    Canon(d).whole + "." + Canon(d).frac
  }

  /** `float(s)` on text that holds only digits, `.` and `+`: an optional
      leading `+`, digits with at most one point, and at least one digit. */
  function ParseNumber(s: string): (r: Option<Decimal>)
    ensures r.Some? ==> WellFormed(r.value) && |r.value.whole| + |r.value.frac| >= 1
  {
    if s != [] && s[0] == '+' then ParseUnsigned(s[1..]) else ParseUnsigned(s)
  }

  /** The text after the optional sign: digits, at most one point. */
  function ParseUnsigned(body: string): (r: Option<Decimal>)
    ensures r.Some? ==> WellFormed(r.value) && |r.value.whole| + |r.value.frac| >= 1
  {
    var w := FirstToken(body, '.');
    var f := if |w| < |body| then body[|w| + 1..] else [];
    if AllDigits(w) && AllDigits(f) && |w| + |f| >= 1 then Some(Decimal(w, f)) else None
  }

  /** A number as `float()` reads it: an optional `+`, the whole digits,
      an optional point and the fraction digits. */
  function Spelling(signed: bool, w: string, point: bool, f: string): (r: string)
    ensures |r| == (if signed then 1 else 0) + |w| + (if point then 1 else 0) + |f|
  {
    (if signed then "+" else "") + w + (if point then "." else "") + f
  }

  /** What `float()` accepted is spelled by the parts it read; without a
      point the fraction is empty. */
  lemma ParseNumberSpells(s: string)
    requires ParseNumber(s).Some?
    ensures var d := ParseNumber(s).value;
      && s == Spelling(s != [] && s[0] == '+', d.whole, '.' in s, d.frac)
      && ('.' !in s ==> d.frac == [])
  {
    if s != [] && s[0] == '+' {
      var body := s[1..];
      assert ParseNumber(s) == ParseUnsigned(body);
      UnsignedSpells(body);
      var d := ParseUnsigned(body).value;
      var point := '.' in body;
      SignedSpelling(d.whole, point, d.frac);
      assert s == [s[0]] + body;
      assert '.' in s <==> point;
    } else {
      assert ParseNumber(s) == ParseUnsigned(s);
      UnsignedSpells(s);
    }
  }

  lemma SignedSpelling(w: string, point: bool, f: string)
    ensures Spelling(true, w, point, f) == "+" + Spelling(false, w, point, f)
  {
  }

  lemma UnsignedSpells(body: string)
    requires ParseUnsigned(body).Some?
    ensures var d := ParseUnsigned(body).value;
      '.' in body ==> body == Spelling(false, d.whole, true, d.frac)
    ensures var d := ParseUnsigned(body).value;
      '.' !in body ==> body == Spelling(false, d.whole, false, d.frac) && d.frac == []
  {
    var w := FirstToken(body, '.');
    if |w| < |body| {
      FirstTokenSplits(body, '.');
      PointSpelling(w, body[|w| + 1..]);
    } else {
      assert body == w;
      NoPointSpelling(w);
    }
  }

  lemma PointSpelling(w: string, f: string)
    ensures w + ['.'] + f == Spelling(false, w, true, f)
    ensures '.' in w + ['.'] + f
  {
    assert (w + ['.'] + f)[|w|] == '.';
  }

  lemma NoPointSpelling(w: string)
    ensures w == Spelling(false, w, false, [])
  {
    assert "" + w + "" + [] == w;
  }

  /** Conversely, every such spelling is accepted with exactly those
      parts: `100`, `+5`, `4.7`, `.5` and `1.` all parse. */
  lemma ParseSpelled(signed: bool, w: string, point: bool, f: string)
    requires AllDigits(w) && AllDigits(f) && |w| + |f| >= 1
    requires !point ==> f == []
    ensures ParseNumber(Spelling(signed, w, point, f)) == Some(Decimal(w, f))
  {
    var body := Spelling(false, w, point, f);
    UnsignedSpelled(w, point, f);
    var s := Spelling(signed, w, point, f);
    if signed {
      SignedSpelling(w, point, f);
      assert s[1..] == body;
    } else {
      assert s == body;
      assert body[0] == '.' || IsDigit(body[0]) by {
        if w != [] { assert body[0] == w[0]; }
      }
    }
  }

  lemma UnsignedSpelled(w: string, point: bool, f: string)
    requires AllDigits(w) && AllDigits(f) && |w| + |f| >= 1
    requires !point ==> f == []
    ensures ParseUnsigned(Spelling(false, w, point, f)) == Some(Decimal(w, f))
  {
    var body := Spelling(false, w, point, f);
    assert '.' !in w by {
      forall i | 0 <= i < |w| ensures w[i] != '.' { assert IsDigit(w[i]); }
    }
    if point {
      assert body == w + ['.'] + f;
      FirstTokenBeforeSep(w, '.', f);
      assert body[|w| + 1..] == f;
    } else {
      assert body == w;
      assert FirstToken(w, '.') == w;
    }
  }

  /** The characters of a spelling: `+` only in front, `.` only between
      the whole and the fraction digits. */
  lemma SpelledChars(signed: bool, w: string, point: bool, f: string, i: nat)
    requires AllDigits(w) && AllDigits(f)
    requires i < |Spelling(signed, w, point, f)|
    ensures var s := Spelling(signed, w, point, f);
      && (s[i] == '+' ==> signed && i == 0)
      && (s[i] == '.' ==> point && i == (if signed then 1 else 0) + |w|)
      && (IsDigit(s[i]) <== (i >= (if signed then 1 else 0) && (!point || i != (if signed then 1 else 0) + |w|)))
  {
    var n := if signed then 1 else 0;
    var s := Spelling(signed, w, point, f);
    var p := if point then 1 else 0;
    if i < n {
      assert s[i] == '+';
    } else if i < n + |w| {
      assert s[i] == w[i - n];
    } else if i < n + |w| + p {
      assert s[i] == '.';
    } else {
      assert s[i] == f[i - n - |w| - p];
    }
  }

  /** `float()` raises ValueError on text with no digit, ... */
  lemma ParseNumberNeedsDigit(s: string)
    requires forall i :: 0 <= i < |s| ==> !IsDigit(s[i])
    ensures ParseNumber(s).None?
  {
    if ParseNumber(s).Some? {
      var d := ParseNumber(s).value;
      var signed, point := s != [] && s[0] == '+', '.' in s;
      ParseNumberSpells(s);
      var n := if signed then 1 else 0;
      var i := if d.whole != [] then n else |s| - 1;
      SpelledChars(signed, d.whole, point, d.frac, i);
    }
  }

  /** ... on text with two points ... */
  lemma ParseNumberOnePoint(s: string, i: nat, j: nat)
    requires i < j < |s| && s[i] == '.' && s[j] == '.'
    ensures ParseNumber(s).None?
  {
    if ParseNumber(s).Some? {
      var d := ParseNumber(s).value;
      ParseNumberSpells(s);
      SpelledChars(s != [] && s[0] == '+', d.whole, '.' in s, d.frac, i);
      SpelledChars(s != [] && s[0] == '+', d.whole, '.' in s, d.frac, j);
    }
  }

  /** ... and on text with a `+` anywhere but in front. */
  lemma ParseNumberSignFirst(s: string, i: nat)
    requires 0 < i < |s| && s[i] == '+'
    ensures ParseNumber(s).None?
  {
    if ParseNumber(s).Some? {
      var d := ParseNumber(s).value;
      ParseNumberSpells(s);
      SpelledChars(s != [] && s[0] == '+', d.whole, '.' in s, d.frac, i);
    }
  }

  /** Canonical digits are well formed, and canonicalising them again
      changes nothing. */
  lemma CanonIsCanonical(d: Decimal)
    requires WellFormed(d)
    ensures IsCanonical(Canon(d))
    ensures Canon(Canon(d)) == Canon(d)
  {
    var c := Canon(d);
    var w := StripLeft(d.whole, {'0'});
    var f := StripRight(d.frac, {'0'});
    StripLeftSpec(d.whole, {'0'});
    StripRightSpec(d.frac, {'0'});
    assert AllDigits(w) by {
      forall i | 0 <= i < |w| ensures IsDigit(w[i]) {
        assert w[i] == d.whole[|d.whole| - |w| + i];
      }
    }
    assert AllDigits(f) by {
      forall i | 0 <= i < |f| ensures IsDigit(f[i]) {
        assert f[i] == d.frac[i];
      }
    }
    CanonOfCanonical(c);
  }

  lemma CanonOfCanonical(c: Decimal)
    requires IsCanonical(c)
    ensures Canon(c) == c
  {
    if c.whole == "0" {
      assert StripLeft(c.whole, {'0'}) == [];
    } else {
      assert StripLeft(c.whole, {'0'}) == c.whole;
    }
    if c.frac == "0" {
      assert StripRight(c.frac, {'0'}) == [];
    } else {
      assert StripRight(c.frac, {'0'}) == c.frac;
    }
  }

  /** Every `w.f` with digit parts and at least one digit parses back to
      exactly those parts. */
  lemma ParseDigits(w: string, f: string)
    requires AllDigits(w) && AllDigits(f) && |w| + |f| >= 1
    ensures ParseNumber(w + "." + f) == Some(Decimal(w, f))
  {
    var s := w + "." + f;
    assert forall i :: 0 <= i < |w| ==> w[i] != '.';
    FirstTokenBeforeSep(w, '.', f);
    assert s[0] != '+' by {
      if w != [] { assert s[0] == w[0] && IsDigit(w[0]); } else { assert s[0] == '.'; }
    }
    assert s[|w| + 1..] == f;
  }

  /** `float(str(x))` gives back `x`: rendering a magnitude and parsing the
      text yields its canonical digits. */
  lemma RenderRoundTrip(d: Decimal)
    requires WellFormed(d)
    ensures ParseNumber(Render(d)) == Some(Canon(d))
  {
    CanonIsCanonical(d);
    ParseDigits(Canon(d).whole, Canon(d).frac);
  }

  /** Canonicalising keeps the number: `Canon(d)` and `d` denote the same
      value (cross-multiplied by their scales). */
  lemma CanonSameValue(d: Decimal)
    requires WellFormed(d)
    ensures Mantissa(Canon(d)) * Pow10(Scale(d)) == Mantissa(d) * Pow10(Scale(Canon(d)))
  {
    if StripRight(d.frac, {'0'}) == [] {
      CanonSameValueZeroFraction(d);
    } else {
      CanonSameValueFraction(d);
    }
  }

  lemma CanonSameValueZeroFraction(d: Decimal)
    requires WellFormed(d) && StripRight(d.frac, {'0'}) == []
    ensures Mantissa(Canon(d)) * Pow10(Scale(d)) == Mantissa(d) * Pow10(Scale(Canon(d)))
  {
    var c := Canon(d);
    CanonWholeValue(d.whole);
    CanonFracValue(d.frac);
    DigitsValueAppend(d.whole, d.frac);
    DigitsValueAppend(c.whole, c.frac);
    ZerosValue("0");
    WholeOnlyArith(Mantissa(c), Mantissa(d), DigitsValue(c.whole), Pow10(|c.frac|),
                   DigitsValue(c.frac), DigitsValue(d.whole), Pow10(|d.frac|), DigitsValue(d.frac));
  }

  lemma CanonSameValueFraction(d: Decimal)
    requires WellFormed(d) && StripRight(d.frac, {'0'}) != []
    ensures Mantissa(Canon(d)) * Pow10(Scale(d)) == Mantissa(d) * Pow10(Scale(Canon(d)))
  {
    var c := Canon(d);
    var f' := StripRight(d.frac, {'0'});
    var j := |d.frac| - |f'|;
    CanonWholeValue(d.whole);
    CanonFracValue(d.frac);
    DigitsValueAppend(d.whole, d.frac);
    DigitsValueAppend(c.whole, c.frac);
    Pow10Add(|f'|, j);
    ScaledArith(Mantissa(c), Mantissa(d), DigitsValue(c.whole), Pow10(|c.frac|),
                DigitsValue(c.frac), DigitsValue(d.whole), Pow10(|d.frac|), DigitsValue(d.frac), Pow10(j));
  }

  lemma ScaledArith(mc: nat, md: nat, a: nat, b: nat, e: nat, a2: nat, b2: nat, e2: nat, q: nat)
    requires mc == a * b + e && md == a2 * b2 + e2
    requires a == a2 && b2 == b * q && e2 == e * q
    ensures mc * b2 == md * b
  {
    calc {
      mc * b2;
      (a * b + e) * (b * q);
      (a * (b * q) + e * q) * b;
    }
  }

  lemma WholeOnlyArith(mc: nat, md: nat, a: nat, b: nat, e: nat, a2: nat, b2: nat, e2: nat)
    requires mc == a * b + e && md == a2 * b2 + e2
    requires a == a2 && e == 0 && e2 == 0
    ensures mc * b2 == md * b
  {
  }

  /** Dropping leading zeros keeps an integer's value. */
  lemma CanonWholeValue(w: string)
    ensures DigitsValue(Canon(Decimal(w, [])).whole) == DigitsValue(w)
  {
    var w' := StripLeft(w, {'0'});
    StripLeftSpec(w, {'0'});
    var lead := w[..|w| - |w'|];
    assert w == lead + w';
    ZerosValue(lead);
    DigitsValueAppend(lead, w');
    if w' == [] {
      ZerosValue("0");
    }
  }

  /** Dropping trailing zeros divides a fraction's digits by a power of ten. */
  lemma CanonFracValue(f: string)
    ensures var f' := StripRight(f, {'0'});
      DigitsValue(f) == DigitsValue(f') * Pow10(|f| - |f'|)
  {
    var f' := StripRight(f, {'0'});
    StripRightSpec(f, {'0'});
    var trail := f[|f'|..];
    assert f == f' + trail;
    ZerosValue(trail);
    DigitsValueAppend(f', trail);
  }
}
