/** Attribute clean-up (kicadLibPop.py, getProdDetails, getProdAttrs,
    removeAttrs, makeProdAttrs): the scraped table rows become the part's
    attribute dictionary. The HTML itself is not modelled: a page is given
    as the rows the scraper would find. */
module Attributes {
  import opened Wrappers
  import opened Text
  import opened Symbols

  /** A row of the product-details table: header text and cell text. */
  datatype DetailRow = DetailRow(header: string, value: string)

  /** A row of the product-attributes table. `header` is None when the row
      has no header cell: it continues the field of the row above. */
  datatype AttrRow = AttrRow(isTitle: bool, header: Option<string>, value: string)

  // ---------------------------------------------------------------------
  // Quote escaping
  // ---------------------------------------------------------------------

  /** `value.replace('"', '\\"')`: a quote becomes backslash-quote, so the
      value can sit between the quotes of a field line. */
  function EscapeQuotes(s: string): string {
    ReplaceChar(s, '"', "\\\"")
  }

  /** Every quote is preceded by a backslash. */
  predicate QuoteSafe(s: string) {
    forall i :: 0 <= i < |s| && s[i] == '"' ==> i > 0 && s[i - 1] == '\\'
  }

  /** Reverses the escape: backslash-quote back to a quote, left to right. */
  function Unescape(s: string): string {
    if |s| >= 2 && s[0] == '\\' && s[1] == '"' then "\"" + Unescape(s[2..])
    else if s == [] then []
    else [s[0]] + Unescape(s[1..])
  }

  lemma QuoteSafeAppend(a: string, b: string)
    requires QuoteSafe(a) && QuoteSafe(b)
    ensures QuoteSafe(a + b)
  {
    forall i | 0 <= i < |a + b| && (a + b)[i] == '"'
      ensures i > 0 && (a + b)[i - 1] == '\\'
    {
      if i >= |a| {
        assert b[i - |a|] == '"';
        assert (a + b)[i - 1] == b[i - |a| - 1];
      }
    }
  }

  lemma {:induction false} EscapeQuotesSafe(s: string)
    ensures QuoteSafe(EscapeQuotes(s))
    decreases |s|
  {
    if s != [] {
      var head := if s[0] == '"' then "\\\"" else [s[0]];
      assert EscapeQuotes(s) == head + EscapeQuotes(s[1..]);
      EscapeQuotesSafe(s[1..]);
      QuoteSafeAppend(head, EscapeQuotes(s[1..]));
    }
  }

  /** Unescaping an escaped value gives the value back, whatever it held. */
  lemma {:induction false} EscapeRoundTrip(s: string)
    ensures Unescape(EscapeQuotes(s)) == s
    decreases |s|
  {
    if s != [] {
      var rest := EscapeQuotes(s[1..]);
      EscapeQuotesSafe(s[1..]);
      EscapeRoundTrip(s[1..]);
      if s[0] == '"' {
        var e := "\\\"" + rest;
        assert EscapeQuotes(s) == e;
        assert e[2..] == rest;
        assert Unescape(e) == "\"" + Unescape(rest);
      } else {
        var e := [s[0]] + rest;
        assert EscapeQuotes(s) == e;
        assert rest == [] || rest[0] != '"';
        assert e[1..] == rest;
        assert Unescape(e) == [s[0]] + Unescape(rest);
      }
      assert s == [s[0]] + s[1..];
    }
  }

  // ---------------------------------------------------------------------
  // getProdDetails
  // ---------------------------------------------------------------------

  /** One detail row sets its trimmed header to its trimmed cell. */
  function DetailStep(attrs: Attrs, row: DetailRow): Attrs {
    attrs[Trim(row.header) := Trim(row.value)]
  }

  /** The dictionary after the first `|rows|` detail rows, a later row
      overwriting an earlier one. */
  function Details(attrs: Attrs, rows: seq<DetailRow>): Attrs
    decreases |rows|
  {
    if rows == [] then attrs
    else DetailStep(Details(attrs, rows[..|rows| - 1]), rows[|rows| - 1])
  }

  /** getProdDetails. */
  method GetProdDetails(attrs: Attrs, rows: seq<DetailRow>) returns (r: Attrs)
    ensures r == Details(attrs, rows)
  {
    r := attrs;
    var i := 0;
    while i < |rows|
      invariant 0 <= i <= |rows|
      invariant r == Details(attrs, rows[..i])
    {
      var field := Trim(rows[i].header);
      var value := Trim(rows[i].value);
      DetailsStep(attrs, rows, i);
      r := r[field := value];
      i := i + 1;
    }
    assert rows[..i] == rows;
  }

  lemma DetailsStep(attrs: Attrs, rows: seq<DetailRow>, i: nat)
    requires i < |rows|
    ensures Details(attrs, rows[..i + 1]) == DetailStep(Details(attrs, rows[..i]), rows[i])
  {
    assert rows[..i + 1][..i] == rows[..i];
  }

  /** The keys are the old keys and the trimmed headers. */
  lemma {:induction false} DetailsKeys(attrs: Attrs, rows: seq<DetailRow>)
    ensures Details(attrs, rows).Keys == attrs.Keys + (set i | 0 <= i < |rows| :: Trim(rows[i].header))
    decreases |rows|
  {
    if rows != [] {
      var n := |rows| - 1;
      var p := rows[..n];
      DetailsKeys(attrs, p);
      assert forall i :: 0 <= i < n ==> p[i] == rows[i];
      assert (set i | 0 <= i < |rows| :: Trim(rows[i].header))
          == (set i | 0 <= i < |p| :: Trim(p[i].header)) + {Trim(rows[n].header)};
    }
  }

  /** A key that no row names keeps its value. */
  lemma {:induction false} DetailsUntouched(attrs: Attrs, rows: seq<DetailRow>, k: string)
    requires k in attrs
    requires forall i :: 0 <= i < |rows| ==> Trim(rows[i].header) != k
    ensures k in Details(attrs, rows) && Details(attrs, rows)[k] == attrs[k]
    decreases |rows|
  {
    if rows != [] {
      var n := |rows| - 1;
      var p := rows[..n];
      assert forall i :: 0 <= i < n ==> p[i] == rows[i];
      DetailsUntouched(attrs, p, k);
    }
  }

  /** A named key holds the trimmed cell of the last row that names it. */
  lemma {:induction false} DetailsLastWins(attrs: Attrs, rows: seq<DetailRow>, i: nat)
    requires i < |rows|
    requires forall j :: i < j < |rows| ==> Trim(rows[j].header) != Trim(rows[i].header)
    ensures Trim(rows[i].header) in Details(attrs, rows)
    ensures Details(attrs, rows)[Trim(rows[i].header)] == Trim(rows[i].value)
    decreases |rows|
  {
    var n := |rows| - 1;
    var p := rows[..n];
    if i < n {
      assert forall j :: 0 <= j < n ==> p[j] == rows[j];
      DetailsLastWins(attrs, p, i);
    }
  }

  // ---------------------------------------------------------------------
  // getProdAttrs
  // ---------------------------------------------------------------------

  /** What the scraping loop carries from row to row: the dictionary and
      the field last read from a header cell. */
  datatype Scan = Scan(attrs: Attrs, field: Option<string>)

  predicate ScanValid(s: Scan) {
    s.field.Some? ==> s.field.value in s.attrs
  }

  /** One row: a title row is skipped; a row with a header sets that field
      to its escaped cell text; a row without one appends ` - <text>` to the
      field of the row before, and fails when there was none. */
  function AttrStep(s: Scan, row: AttrRow): (r: Result<Scan, Error>)
    requires ScanValid(s)
    ensures r.Ok? ==> ScanValid(r.value)
    ensures r.Err? <==> !row.isTitle && row.header.None? && s.field.None?
    ensures r.Err? ==> r.error == ContinuationWithoutField
  {
    if row.isTitle then Ok(s)
    else
      var value := EscapeQuotes(Trim(row.value));
      match row.header
      case Some(l) =>
        var field := Trim(l);
        Ok(Scan(s.attrs[field := value], Some(field)))
      case None =>
        match s.field
        case None => Err(ContinuationWithoutField)
        case Some(field) => Ok(Scan(s.attrs[field := s.attrs[field] + " - " + value], s.field))
  }

  /** The scan after the first `|rows|` rows. */
  function AttrScan(attrs: Attrs, rows: seq<AttrRow>): (r: Result<Scan, Error>)
    ensures r.Ok? ==> ScanValid(r.value)
    ensures r.Err? ==> r.error == ContinuationWithoutField
    decreases |rows|
  {
    if rows == [] then Ok(Scan(attrs, None))
    else
      var s :- AttrScan(attrs, rows[..|rows| - 1]);
      AttrStep(s, rows[|rows| - 1])
  }

  /** The dictionary getProdAttrs returns. */
  function ProdAttrs(attrs: Attrs, rows: seq<AttrRow>): Result<Attrs, Error> {
    var s :- AttrScan(attrs, rows);
    Ok(s.attrs)
  }

  /** Once a row fails, the scan of any longer table fails the same way. */
  lemma {:induction false} AttrScanErrStays(attrs: Attrs, rows: seq<AttrRow>, i: nat)
    requires i <= |rows| && AttrScan(attrs, rows[..i]).Err?
    ensures AttrScan(attrs, rows) == AttrScan(attrs, rows[..i])
    decreases |rows| - i
  {
    if i < |rows| {
      assert rows[..i + 1][..i] == rows[..i];
      AttrScanErrStays(attrs, rows, i + 1);
    } else {
      assert rows[..i] == rows;
    }
  }

  /** getProdAttrs. */
  method GetProdAttrs(attrs: Attrs, rows: seq<AttrRow>) returns (r: Result<Attrs, Error>)
    ensures r == ProdAttrs(attrs, rows)
  {
    var dict := attrs;
    var field: Option<string> := None;
    var i := 0;
    while i < |rows|
      invariant 0 <= i <= |rows|
      invariant AttrScan(attrs, rows[..i]) == Ok(Scan(dict, field))
    {
      assert rows[..i + 1][..i] == rows[..i];
      var row := rows[i];
      if !row.isTitle {
        var value := EscapeQuotes(Trim(row.value));
        if row.header.Some? {
          field := Some(Trim(row.header.value));
          dict := dict[field.value := value];
        } else if field.None? {
          AttrScanErrStays(attrs, rows, i + 1);
          return Err(ContinuationWithoutField);
        } else {
          dict := dict[field.value := dict[field.value] + " - " + value];
        }
      }
      i := i + 1;
    }
    assert rows[..i] == rows;
    return Ok(dict);
  }

  /** The first row that is not a title row has no header cell. */
  predicate StartsWithContinuation(rows: seq<AttrRow>) {
    exists i :: 0 <= i < |rows| && !rows[i].isTitle && rows[i].header.None? &&
      forall j :: 0 <= j < i ==> rows[j].isTitle
  }

  /** The trimmed headers of the rows that have one. */
  function Headers(rows: seq<AttrRow>): set<string> {
    set i | 0 <= i < |rows| && !rows[i].isTitle && rows[i].header.Some? :: Trim(rows[i].header.value)
  }

  /** The scan fails exactly when the table starts with a continuation
      row; otherwise the field carried is None only while every row so far
      was a title row. */
  lemma {:induction false} AttrScanOutcome(attrs: Attrs, rows: seq<AttrRow>)
    ensures AttrScan(attrs, rows).Err? <==> StartsWithContinuation(rows)
    ensures AttrScan(attrs, rows).Ok? ==>
              (AttrScan(attrs, rows).value.field.None? <==> forall j :: 0 <= j < |rows| ==> rows[j].isTitle)
    decreases |rows|
  {
    if rows != [] {
      var n := |rows| - 1;
      var p := rows[..n];
      AttrScanOutcome(attrs, p);
      assert forall i :: 0 <= i < n ==> p[i] == rows[i];
      var prev := AttrScan(attrs, p);
      assert AttrScan(attrs, rows) == (if prev.Err? then Err(prev.error) else AttrStep(prev.value, rows[n]));
      if StartsWithContinuation(p) {
        var i :| 0 <= i < |p| && !p[i].isTitle && p[i].header.None? && forall j :: 0 <= j < i ==> p[j].isTitle;
        assert !rows[i].isTitle && rows[i].header.None? && forall j :: 0 <= j < i ==> rows[j].isTitle;
      } else {
        if StartsWithContinuation(rows) {
          var i :| 0 <= i < |rows| && !rows[i].isTitle && rows[i].header.None? && forall j :: 0 <= j < i ==> rows[j].isTitle;
          assert i == n;
        }
        if AttrStep(prev.value, rows[n]).Err? {
          assert !rows[n].isTitle && rows[n].header.None? && forall j :: 0 <= j < n ==> rows[j].isTitle;
        }
      }
    }
  }

  /** The keys after the scan are the old keys and the rows' headers. */
  lemma {:induction false} AttrScanKeys(attrs: Attrs, rows: seq<AttrRow>)
    ensures AttrScan(attrs, rows).Ok? ==> AttrScan(attrs, rows).value.attrs.Keys == attrs.Keys + Headers(rows)
    decreases |rows|
  {
    if rows != [] {
      var n := |rows| - 1;
      var p := rows[..n];
      var x := rows[n];
      AttrScanKeys(attrs, p);
      assert forall i :: 0 <= i < n ==> p[i] == rows[i];
      if x.isTitle || x.header.None? {
        assert Headers(rows) == Headers(p);
      } else {
        assert Headers(rows) == Headers(p) + {Trim(x.header.value)};
      }
    }
  }

  /** When every value in the dictionary is quote-safe, so is every value
      after the scan: each cell is escaped, and a continuation joins two
      safe texts with ` - `. */
  lemma {:induction false} AttrScanQuoteSafe(attrs: Attrs, rows: seq<AttrRow>)
    requires forall k :: k in attrs ==> QuoteSafe(attrs[k])
    ensures AttrScan(attrs, rows).Ok? ==>
              forall k :: k in AttrScan(attrs, rows).value.attrs ==> QuoteSafe(AttrScan(attrs, rows).value.attrs[k])
    decreases |rows|
  {
    if rows != [] {
      var n := |rows| - 1;
      AttrScanQuoteSafe(attrs, rows[..n]);
      var x := rows[n];
      var s := AttrScan(attrs, rows[..n]);
      if s.Ok? && !x.isTitle {
        var value := EscapeQuotes(Trim(x.value));
        EscapeQuotesSafe(Trim(x.value));
        if x.header.None? && s.value.field.Some? {
          var f := s.value.field.value;
          assert QuoteSafe(" - ");
          QuoteSafeAppend(s.value.attrs[f], " - ");
          QuoteSafeAppend(s.value.attrs[f] + " - ", value);
        }
      }
    }
  }

  // ---------------------------------------------------------------------

  /** A header row followed by a continuation row (as a category that
      spans two rows) leaves `<first> - <second>` under the header. */
  lemma ContinuationMerges(attrs: Attrs, rows: seq<AttrRow>, header: string, first: string, second: string)
    requires AttrScan(attrs, rows).Ok?
    ensures var all := rows + [AttrRow(false, Some(header), first), AttrRow(false, None, second)];
      && AttrScan(attrs, all).Ok?
      && Trim(header) in AttrScan(attrs, all).value.attrs
      && AttrScan(attrs, all).value.attrs[Trim(header)] ==
           EscapeQuotes(Trim(first)) + " - " + EscapeQuotes(Trim(second))
  {
    var one := rows + [AttrRow(false, Some(header), first)];
    var all := one + [AttrRow(false, None, second)];
    assert one[..|one| - 1] == rows;
    assert all[..|all| - 1] == one;
    var s1 := AttrScan(attrs, one);
    assert s1 == AttrStep(AttrScan(attrs, rows).value, AttrRow(false, Some(header), first));
    assert AttrScan(attrs, all) == AttrStep(s1.value, AttrRow(false, None, second));
    assert rows + [AttrRow(false, Some(header), first), AttrRow(false, None, second)] == all;
  }

  // ---------------------------------------------------------------------
  // removeAttrs and makeProdAttrs
  // ---------------------------------------------------------------------

  /** Fields that are never written to the library. */
  const FieldsToIgnore: seq<string> :=
    ["Detailed Description", "Moisture Sensitivity Level (MSL)", "Quantity Available", "Packaging"]

  /** removeAttrs: delete each ignored field that is present. */
  method RemoveAttrs(attrs: Attrs) returns (r: Attrs)
    ensures r.Keys == attrs.Keys - set f | f in FieldsToIgnore
    ensures forall k :: k in r ==> r[k] == attrs[k]
  {
    r := attrs;
    var i := 0;
    while i < |FieldsToIgnore|
      invariant 0 <= i <= |FieldsToIgnore|
      invariant r.Keys == attrs.Keys - set f | f in FieldsToIgnore[..i]
      invariant forall k :: k in r ==> r[k] == attrs[k]
    {
      var field := FieldsToIgnore[i];
      assert FieldsToIgnore[..i + 1] == FieldsToIgnore[..i] + [field];
      if field in r {
        r := r - {field};
      }
      i := i + 1;
    }
    assert FieldsToIgnore[..i] == FieldsToIgnore;
  }

  /** The attribute dictionary of a part page: details, then attributes,
      then the ignored fields removed. */
  function PartAttrs(details: seq<DetailRow>, rows: seq<AttrRow>): (r: Result<Attrs, Error>)
    ensures r.Err? <==> StartsWithContinuation(rows)
    ensures r.Err? ==> r.error == ContinuationWithoutField
    ensures r.Ok? ==> forall f :: f in FieldsToIgnore ==> f !in r.value
    ensures r.Ok? ==>
              var scanned := ProdAttrs(Details(map[], details), rows);
              && scanned.Ok?
              && (forall k :: k in r.value <==> k in scanned.value && k !in FieldsToIgnore)
              && (forall k :: k in r.value ==> r.value[k] == scanned.value[k])
  {
    AttrScanOutcome(Details(map[], details), rows);
    var attrs :- ProdAttrs(Details(map[], details), rows);
    Ok(attrs - set f | f in FieldsToIgnore)
  }

  /** makeProdAttrs, starting from the empty dictionary as the main loop does. */
  method MakeProdAttrs(details: seq<DetailRow>, rows: seq<AttrRow>) returns (r: Result<Attrs, Error>)
    ensures r == PartAttrs(details, rows)
  {
    var attrs := GetProdDetails(map[], details);
    var scanned := GetProdAttrs(attrs, rows);
    if scanned.Err? {
      return Err(scanned.error);
    }
    var kept := RemoveAttrs(scanned.value);
    assert kept == scanned.value - set f | f in FieldsToIgnore;
    return Ok(kept);
  }
}
