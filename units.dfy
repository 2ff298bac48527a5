/** The unit normaliser: the SI-prefix character read at a fixed offset of a
    raw field, the magnitude parsed from the field's numeric characters,
    one thousandfold rescale step, and the display string that replaces the
    decimal point with the prefix letter (kicadLibPop.py, makeFixedAttrs and
    getSiUnit). */
module Units {
  import opened Wrappers
  import opened Text
  import opened Decimals

  /** `siUnitToValDict` in its iteration order: each SI prefix with the
      power of ten it multiplies by (`"k"` with 3, `"n"` with -9, ...).
      The table itself lives in kicadLibPopConst, which is not part of this
      model, so every operation takes it as a parameter. */
  type PrefixTable = seq<(string, int)>

  /** A dictionary has each key once. */
  predicate DistinctPrefixes(t: PrefixTable) {
    forall i, j :: 0 <= i < j < |t| ==> t[i].0 != t[j].0
  }

  /** No two prefixes stand for the same multiplier. */
  predicate DistinctExponents(t: PrefixTable) {
    forall i, j :: 0 <= i < j < |t| ==> t[i].1 != t[j].1
  }

  /** Position of the first entry whose key is `p`, or `|t|`. */
  function PrefixIndex(t: PrefixTable, p: string): (i: nat)
    ensures i <= |t|
    ensures i < |t| ==> t[i].0 == p
    ensures forall j :: 0 <= j < i ==> t[j].0 != p
  {
    if t == [] then 0 else if t[0].0 == p then 0 else 1 + PrefixIndex(t[1..], p)
  }

  /** Position of the first entry whose multiplier is `10^e`, or `|t|`. */
  function ExponentIndex(t: PrefixTable, e: int): (i: nat)
    ensures i <= |t|
    ensures i < |t| ==> t[i].1 == e
    ensures forall j :: 0 <= j < i ==> t[j].1 != e
  {
    if t == [] then 0 else if t[0].1 == e then 0 else 1 + ExponentIndex(t[1..], e)
  }

  /** `siUnitToValDict[p]`: `None` where Python raises KeyError. */
  function Exponent(t: PrefixTable, p: string): Option<int> {
    var i := PrefixIndex(t, p);
    if i < |t| then Some(t[i].1) else None
  }

  predicate HasExponent(t: PrefixTable, e: int) {
    ExponentIndex(t, e) < |t|
  }

  /** What `getSiUnit(10^e)` returns: the first prefix of the table with
      that multiplier, or `""` when there is none. */
  function SiUnitFor(t: PrefixTable, e: int): (unit: string)
    ensures HasExponent(t, e) ==> exists i :: 0 <= i < |t| && t[i] == (unit, e)
    ensures !HasExponent(t, e) ==> unit == "" && forall i :: 0 <= i < |t| ==> t[i].1 != e
  {
    var i := ExponentIndex(t, e);
    if i < |t| then t[i].0 else ""
  }

  /** getSiUnit: scan the table in order and return the first prefix whose
      multiplier is the one searched for; report and return `""` when none
      is. */
  method GetSiUnit(t: PrefixTable, e: int) returns (unit: string)
    ensures HasExponent(t, e) ==> exists i :: 0 <= i < |t| && t[i] == (unit, e) && forall j :: 0 <= j < i ==> t[j].1 != e
    ensures !HasExponent(t, e) ==> unit == ""
    ensures unit == SiUnitFor(t, e)
  {
    var k := 0;
    while k < |t|
      invariant 0 <= k <= |t|
      invariant forall j :: 0 <= j < k ==> t[j].1 != e
    {
      if t[k].1 == e {
        assert ExponentIndex(t, e) == k;
        return t[k].0;
      }
      k := k + 1;
    }
    return "";
  }

  /** With one prefix per multiplier, looking a prefix's multiplier back up
      finds that very prefix. */
  lemma PrefixRoundTrip(t: PrefixTable, p: string)
    requires DistinctExponents(t) && Exponent(t, p).Some?
    ensures SiUnitFor(t, Exponent(t, p).value) == p
  {
    var i := PrefixIndex(t, p);
    var j := ExponentIndex(t, t[i].1);
    assert j == i;
  }

  /** With one entry per prefix, the prefix found for a multiplier has that
      multiplier. */
  lemma ExponentRoundTrip(t: PrefixTable, e: int)
    requires DistinctPrefixes(t) && HasExponent(t, e)
    ensures Exponent(t, SiUnitFor(t, e)) == Some(e)
  {
    var j := ExponentIndex(t, e);
    var i := PrefixIndex(t, t[j].0);
    assert i == j;
  }

  const Micro: char := 'µ'

  /** The prefix as makeFixedAttrs reads it: the character `offset` places
      from the end of the raw field (`raw[-offset]`); a digit or a space
      means the field carries no prefix and becomes `default`; the micro
      sign becomes `"u"`. `None` where Python raises IndexError. */
  function PrefixAt(raw: string, offset: nat, default: string): (r: Option<string>)
    requires offset >= 1
    ensures r.None? <==> |raw| < offset
    ensures |raw| >= offset && (IsDigit(raw[|raw| - offset]) || raw[|raw| - offset] == ' ') ==> r == Some(default)
    ensures |raw| >= offset && raw[|raw| - offset] == Micro ==> r == Some("u")
    ensures |raw| >= offset && !IsDigit(raw[|raw| - offset]) && raw[|raw| - offset] != ' ' && raw[|raw| - offset] != Micro ==>
              r == Some([raw[|raw| - offset]])
  {
    if |raw| < offset then None
    else
      var c := raw[|raw| - offset];
      if IsDigit(c) || c == ' ' then Some(default)
      else if c == Micro then Some("u")
      else Some([c])
  }

  /** A magnitude with the prefix letter that goes with it. */
  datatype Canonical = Canonical(magnitude: Decimal, prefix: string)

  /** `1.0 <= value < 1000.0`. */
  predicate InRange(d: Decimal) {
    !BelowOne(d) && !AtLeastThousand(d)
  }

  /** `0.001 <= value < 1000000.0`: the magnitudes one tier shift can bring
      into range. */
  predicate WithinOneTier(d: Decimal) {
    Pow10(Scale(d)) <= 1000 * Mantissa(d) && Mantissa(d) < 1000000 * Pow10(Scale(d))
  }

  /** `m1 * 10^x1 == m2 * 10^x2`. */
  predicate SameQuantity(m1: nat, x1: int, m2: nat, x2: int) {
    if x1 <= x2 then m1 == m2 * Pow10(x2 - x1) else m1 * Pow10(x1 - x2) == m2
  }

  /** The rescale step: a magnitude below 1 is multiplied by 1000 and takes
      the prefix one tier down; one of 1000 or more is divided by 1000 and
      takes the prefix one tier up; anything else is left alone. The step is
      taken at most once. */
  function Rescale(t: PrefixTable, d: Decimal, unit: string): (r: Result<Canonical, Error>)
    ensures r.Err? <==> !InRange(d) && Exponent(t, unit).None?
    ensures r.Err? ==> r.error == UnknownPrefix(unit)
    ensures r.Ok? && InRange(d) ==> r.value == Canonical(d, unit)
    ensures r.Ok? && WellFormed(d) ==> WellFormed(r.value.magnitude)
    ensures r.Ok? ==> (InRange(r.value.magnitude) <==> WithinOneTier(d))
  {
    if BelowOne(d) then
      match Exponent(t, unit)
      case None => Err(UnknownPrefix(unit))
      case Some(e) => Ok(Canonical(Times1000(d), SiUnitFor(t, e - 3)))
    else if AtLeastThousand(d) then
      match Exponent(t, unit)
      case None => Err(UnknownPrefix(unit))
      case Some(e) =>
        Pow10Add(Scale(d), 3);
        Ok(Canonical(Div1000(d), SiUnitFor(t, e + 3)))
    else
      Ok(Canonical(d, unit))
  }

  /** A rescale whose target tier exists keeps the physical quantity:
      magnitude times multiplier is what it was. */
  lemma RescaleKeepsQuantity(t: PrefixTable, d: Decimal, unit: string, e: int)
    requires DistinctPrefixes(t) && Exponent(t, unit) == Some(e)
    requires BelowOne(d) ==> HasExponent(t, e - 3)
    requires AtLeastThousand(d) ==> HasExponent(t, e + 3)
    ensures Rescale(t, d, unit).Ok?
    ensures var c := Rescale(t, d, unit).value;
      && Exponent(t, c.prefix).Some?
      && SameQuantity(Mantissa(c.magnitude), Exponent(t, c.prefix).value - Scale(c.magnitude),
                      Mantissa(d), e - Scale(d))
  {
    var c := Rescale(t, d, unit).value;
    if BelowOne(d) {
      ExponentRoundTrip(t, e - 3);
      assert Pow10(3) == 1000;
    } else if AtLeastThousand(d) {
      ExponentRoundTrip(t, e + 3);
    }
  }

  /** When no prefix has the target multiplier, the magnitude is still
      rescaled and the prefix silently becomes `""`. */
  lemma RescaleMissingTier(t: PrefixTable, d: Decimal, unit: string, e: int)
    requires Exponent(t, unit) == Some(e)
    requires (BelowOne(d) && !HasExponent(t, e - 3)) || (AtLeastThousand(d) && !HasExponent(t, e + 3))
    ensures Rescale(t, d, unit).Ok? && Rescale(t, d, unit).value.prefix == ""
    ensures BelowOne(d) ==> Rescale(t, d, unit).value.magnitude == Times1000(d)
    ensures AtLeastThousand(d) ==> Rescale(t, d, unit).value.magnitude == Div1000(d)
  {
  }

  /** Normalise a raw field: prefix at `raw[-offset]`, magnitude from
      `float(re.sub(r"[^\d.+]", "", raw))`, then one rescale step. Errors
      come in the order Python raises them. */
  function Normalize(t: PrefixTable, name: string, raw: string, offset: nat, default: string): (r: Result<Canonical, Error>)
    requires offset >= 1
    ensures |raw| < offset ==> r == Err(FieldTooShort(name))
    ensures |raw| >= offset && ParseNumber(KeepNumeric(raw)).None? ==> r == Err(NotANumber(name))
    ensures |raw| >= offset && ParseNumber(KeepNumeric(raw)).Some? ==>
              r == Rescale(t, ParseNumber(KeepNumeric(raw)).value, PrefixAt(raw, offset, default).value)
    ensures r.Ok? ==> WellFormed(r.value.magnitude)
    ensures r.Ok? ==> (InRange(r.value.magnitude) <==> WithinOneTier(ParseNumber(KeepNumeric(raw)).value))
  {
    match PrefixAt(raw, offset, default)
    case None => Err(FieldTooShort(name))
    case Some(unit) =>
      match ParseNumber(KeepNumeric(raw))
      case None => Err(NotANumber(name))
      case Some(d) => Rescale(t, d, unit)
  }

  /** A field whose number is already in range keeps it, with the prefix
      read from the field. */
  lemma NormalizeInRange(t: PrefixTable, name: string, raw: string, offset: nat, default: string, d: Decimal, unit: string)
    requires offset >= 1
    requires PrefixAt(raw, offset, default) == Some(unit)
    requires ParseNumber(KeepNumeric(raw)) == Some(d) && InRange(d)
    ensures Normalize(t, name, raw, offset, default) == Ok(Canonical(d, unit))
  {
  }

  /** A capacitance as Digi-Key writes it: `4.7µF` reads the prefix `u`
      two characters from the end and the number 4.7, which is in range. */
  lemma NormalizeExample(t: PrefixTable)
    ensures Normalize(t, "Capacitance", "4.7µF", 2, "") == Ok(Canonical(Decimal("4", "7"), "u"))
  {
    var raw := "4.7µF";
    assert PrefixAt(raw, 2, "") == Some("u") by {
      assert raw[|raw| - 2] == Micro;
    }
    assert ParseNumber(KeepNumeric(raw)) == Some(Decimal("4", "7")) by {
      ExampleDigits();
      ParseDigits("4", "7");
      assert "4" + "." + "7" == "4.7";
    }
    ExampleInRange();
    NormalizeInRange(t, "Capacitance", raw, 2, "", Decimal("4", "7"), "u");
  }

  /** 4.7 lies in `[1, 1000)`. */
  lemma ExampleInRange()
    ensures InRange(Decimal("4", "7"))
  {
    assert "4" + "7" == "47";
    assert "47"[..1] == "4";
  }

  /** The filter keeps `4.7` of `4.7µF`. */
  lemma ExampleDigits()
    ensures KeepNumeric("4.7µF") == "4.7"
  {
    KeepNumericAppend("4.7", "µF");
    KeepNumericAppend("µ", "F");
    KeepNumericChar('µ');
    KeepNumericChar('F');
    assert KeepNumeric("4.7") == "4.7";
    assert "4.7" + "µF" == "4.7µF";
    assert "µ" + "F" == "µF";
  }

  /** `str(value).replace(".", unit)`. */
  function Display(c: Canonical): string {
    ReplaceChar(Render(c.magnitude), '.', c.prefix)
  }

  lemma {:induction false} ReplaceCharAppend(a: string, b: string, c: char, t: string)
    ensures ReplaceChar(a + b, c, t) == ReplaceChar(a, c, t) + ReplaceChar(b, c, t)
    decreases |a|
  {
    if a != [] {
      var head := if a[0] == c then t else [a[0]];
      ReplaceCharCons(a, b, c, t);
      ReplaceCharAppend(a[1..], b, c, t);
      ConcatAssoc(head, ReplaceChar(a[1..], c, t), ReplaceChar(b, c, t));
    } else {
      assert a + b == b;
    }
  }

  /** Unfolding the replacement once, on `a` and on `a + b`. */
  lemma ReplaceCharCons(a: string, b: string, c: char, t: string)
    requires a != []
    ensures var head := if a[0] == c then t else [a[0]];
      && ReplaceChar(a + b, c, t) == head + ReplaceChar(a[1..] + b, c, t)
      && ReplaceChar(a, c, t) == head + ReplaceChar(a[1..], c, t)
  {
    assert (a + b)[0] == a[0] && (a + b)[1..] == a[1..] + b;
  }

  /** Replacing the only occurrence of `c`, which sits between `w` and `f`. */
  lemma ReplaceSeparator(w: string, f: string, c: char, t: string)
    requires c !in w && c !in f
    ensures ReplaceChar(w + [c] + f, c, t) == w + t + f
  {
    ReplaceCharAppend(w + [c], f, c, t);
    ReplaceCharAppend(w, [c], c, t);
    assert ReplaceChar([c], c, t) == t + ReplaceChar([], c, t);
  }

  lemma DigitsHaveNoPoint(s: string)
    requires AllDigits(s)
    ensures '.' !in s
  {
    assert forall i :: 0 <= i < |s| ==> s[i] != '.';
  }

  /** The display string is the canonical whole digits, the prefix, and the
      canonical fraction digits: `4.7` with `"u"` shows as `4u7`. */
  lemma DisplayShape(c: Canonical)
    requires WellFormed(c.magnitude)
    ensures Display(c) == Canon(c.magnitude).whole + c.prefix + Canon(c.magnitude).frac
  {
    var k := Canon(c.magnitude);
    CanonIsCanonical(c.magnitude);
    DigitsHaveNoPoint(k.whole);
    DigitsHaveNoPoint(k.frac);
    assert Render(c.magnitude) == k.whole + ['.'] + k.frac;
    ReplaceSeparator(k.whole, k.frac, '.', c.prefix);
  }

  /** A one-letter prefix that is neither a digit nor a point can be turned
      back into the point: parsing the result gives back the canonical
      magnitude, so normalising the display string again changes nothing. */
  lemma DisplayRoundTrip(c: Canonical, u: char)
    requires WellFormed(c.magnitude) && c.prefix == [u] && !IsDigit(u) && u != '.'
    ensures ParseNumber(ReplaceChar(Display(c), u, ".")) == Some(Canon(c.magnitude))
  {
    var k := Canon(c.magnitude);
    DisplayShape(c);
    CanonIsCanonical(c.magnitude);
    assert u !in k.whole && u !in k.frac by {
      assert forall i :: 0 <= i < |k.whole| ==> k.whole[i] != u;
      assert forall i :: 0 <= i < |k.frac| ==> k.frac[i] != u;
    }
    ReplaceSeparator(k.whole, k.frac, u, ".");
    assert ReplaceChar(Display(c), u, ".") == Render(c.magnitude);
    RenderRoundTrip(c.magnitude);
  }
}
