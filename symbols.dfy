/** The category classifier and symbol builder (kicadLibPop.py,
    makeFixedAttrs): pick the component family from the "Categories" field,
    derive the family's fields, build the symbol name, the reference
    designator and the footprint. */
module Symbols {
  import opened Wrappers
  import opened Text
  import opened Decimals
  import opened Units

  /** The three families the script supports, in the order they are tried. */
  datatype Family = Capacitor | Inductor | Resistor

  /** One value per family, like the script's cap/ind/res variables. */
  datatype PerFamily<T> = PerFamily(cap: T, ind: T, res: T) {
    function Get(f: Family): T {
      match f
      case Capacitor => cap
      case Inductor => ind
      case Resistor => res
    }

    function Set(f: Family, v: T): (r: PerFamily<T>)
      ensures r.Get(f) == v
      ensures forall g :: g != f ==> r.Get(g) == Get(g)
    {
      match f
      case Capacitor => this.(cap := v)
      case Inductor => this.(ind := v)
      case Resistor => this.(res := v)
    }
  }

  /** A part's attribute dictionary: field name to field text. */
  type Attrs = map<string, string>

  /** `attrs[key]`, failing as Python's KeyError does. */
  function Field(attrs: Attrs, key: string): (r: Result<string, Error>)
    ensures r.Ok? <==> key in attrs
    ensures r.Ok? ==> r.value == attrs[key]
    ensures r.Err? ==> r.error == MissingField(key)
  {
    if key in attrs then Ok(attrs[key]) else Err(MissingField(key))
  }

  /** The family is chosen by substring tests on the categories text, in
      the fixed order Capacitor, Inductor, Resistor; the first hit wins. */
  function Classify(categories: string): (r: Option<Family>)
    ensures r == Some(Capacitor) <==> Contains(categories, "Capacitor")
    ensures r == Some(Inductor) <==> !Contains(categories, "Capacitor") && Contains(categories, "Inductor")
    ensures r == Some(Resistor) <==>
              !Contains(categories, "Capacitor") && !Contains(categories, "Inductor") && Contains(categories, "Resistor")
    ensures r.None? <==>
              !Contains(categories, "Capacitor") && !Contains(categories, "Inductor") && !Contains(categories, "Resistor")
  {
    if Contains(categories, "Capacitor") then Some(Capacitor)
    else if Contains(categories, "Inductor") then Some(Inductor)
    else if Contains(categories, "Resistor") then Some(Resistor)
    else None
  }

  /** The reference designator, also the first letter of every symbol name. */
  function Letter(f: Family): string {
    match f
    case Capacitor => "C"
    case Inductor => "L"
    case Resistor => "R"
  }

  /** The field holding the family's value. */
  function ValueField(f: Family): string {
    match f
    case Capacitor => "Capacitance"
    case Inductor => "Inductance"
    case Resistor => "Resistance"
  }

  /** Where the prefix character sits, counted from the end of the value
      field: the unit is one character ("F", "H"), or four ("Ohms"). */
  function PrefixOffset(f: Family): nat {
    match f
    case Capacitor => 2
    case Inductor => 2
    case Resistor => 5
  }

  /** The prefix a value without one gets: none, or "R" for plain ohms. */
  function DefaultPrefix(f: Family): string {
    match f
    case Capacitor => ""
    case Inductor => ""
    case Resistor => "R"
  }

  /** The footprint library of the family, also its footprint directory. */
  function FootprintLibrary(f: Family): string {
    match f
    case Capacitor => "SFUSat-cap"
    case Inductor => "SFUSat-ind"
    case Resistor => "SFUSat-res"
  }

  /** The value as it appears in the symbol name, e.g. `4u7`. */
  function ValueText(t: PrefixTable, f: Family, attrs: Attrs): (r: Result<string, Error>)
    ensures ValueField(f) !in attrs ==> r == Err(MissingField(ValueField(f)))
    ensures ValueField(f) in attrs ==>
              var n := Normalize(t, ValueField(f), attrs[ValueField(f)], PrefixOffset(f), DefaultPrefix(f));
              && (n.Err? ==> r == Err(n.error))
              && (n.Ok? ==> r == Ok(Display(n.value)))
  {
    var raw :- Field(attrs, ValueField(f));
    var c :- Normalize(t, ValueField(f), raw, PrefixOffset(f), DefaultPrefix(f));
    Ok(Display(c))
  }

  /** The tolerance with every `±` removed. */
  function Tolerance(raw: string): (r: string)
    ensures '±' !in r
    ensures '±' !in raw ==> r == raw
  {
    ReplaceChar(raw, '±', "")
  }

  /** The resistor tolerance: a jumper counts as `0%`. */
  function ResistorTolerance(raw: string): (r: string)
    ensures '±' !in r
    ensures raw == "Jumper" ==> r == "0%"
    ensures raw != "Jumper" ==> r == Tolerance(raw)
  {
    if raw == "Jumper" then "0%" else Tolerance(raw)
  }

  /** The package: the supplier's package name for a "Nonstandard" case,
      otherwise the case text up to its first space. */
  function Package(attrs: Attrs): (r: Result<string, Error>)
    ensures "Package / Case" !in attrs ==> r == Err(MissingField("Package / Case"))
    ensures "Package / Case" in attrs && attrs["Package / Case"] != "Nonstandard" ==> r.Ok?
    ensures r.Ok? && attrs["Package / Case"] != "Nonstandard" ==>
              var pc := attrs["Package / Case"];
              && ' ' !in r.value && r.value <= pc
              && (r.value == pc || pc[|r.value|] == ' ')
    ensures "Package / Case" in attrs && attrs["Package / Case"] == "Nonstandard" && "Supplier Device Package" !in attrs ==>
              r == Err(MissingField("Supplier Device Package"))
    ensures r.Ok? && attrs["Package / Case"] == "Nonstandard" ==>
              "Supplier Device Package" in attrs && r.value == attrs["Supplier Device Package"]
  {
    var pc :- Field(attrs, "Package / Case");
    if pc == "Nonstandard" then Field(attrs, "Supplier Device Package") else Ok(FirstToken(pc, ' '))
  }

  /** The capacitor temperature code: `NP0` for "C0G, NP0", the raw
      coefficient otherwise, and when the field is absent `TANT` for
      tantalum parts or a placeholder for someone to fill in. */
  function TemperatureCode(attrs: Attrs, categories: string): (r: string)
    ensures "Temperature Coefficient" !in attrs ==> (r == "TANT" <==> Contains(categories, "Tantalum"))
    ensures "Temperature Coefficient" !in attrs ==> (r == "[FIX_THIS]" <==> !Contains(categories, "Tantalum"))
    ensures "Temperature Coefficient" in attrs && attrs["Temperature Coefficient"] == "C0G, NP0" ==> r == "NP0"
    ensures "Temperature Coefficient" in attrs && attrs["Temperature Coefficient"] != "C0G, NP0" ==>
              r == attrs["Temperature Coefficient"]
  {
    if "Temperature Coefficient" !in attrs then
      (if Contains(categories, "Tantalum") then "TANT" else "[FIX_THIS]")
    else if attrs["Temperature Coefficient"] == "C0G, NP0" then "NP0"
    else attrs["Temperature Coefficient"]
  }

  /** The resistor power: the text before the first comma. */
  function Power(raw: string): (r: string)
    ensures ',' !in r && r <= raw
    ensures r == raw || raw[|r|] == ','
  {
    FirstToken(raw, ',')
  }

  /** The fields a family's symbol name is made of, after the letter, with
      the package (needed again for the footprint). */
  datatype NameParts = NameParts(fields: seq<string>, package: string)

  /** Derive the family's name fields in the order the script reads them:
      capacitor `value, tolerance, voltage, temperature code, package`;
      inductor `value, tolerance, current, package`; resistor `value,
      tolerance, power, package`. */
  function FamilyParts(t: PrefixTable, f: Family, attrs: Attrs, categories: string): (r: Result<NameParts, Error>)
    ensures ValueText(t, f, attrs).Err? ==> r == Err(ValueText(t, f, attrs).error)
    ensures ValueText(t, f, attrs).Ok? ==> r == BranchParts(f, ValueText(t, f, attrs).value, attrs, categories)
  {
    var value :- ValueText(t, f, attrs);
    BranchParts(f, value, attrs, categories)
  }

  /** The field only one family reads: rated voltage, current rating or
      power. */
  function FamilyField(f: Family): string {
    match f
    case Capacitor => "Voltage - Rated"
    case Inductor => "Current Rating"
    case Resistor => "Power (Watts)"
  }

  /** The family branch after the value: the middle fields are the ones
      the branch reads (capacitor tolerance, rated voltage and temperature
      code; inductor tolerance and current rating; resistor tolerance, a
      jumper as `0%`, and power), and the last is the package. */
  function BranchParts(f: Family, value: string, attrs: Attrs, categories: string): (r: Result<NameParts, Error>)
    ensures r.Ok? ==>
              var fields := r.value.fields;
              && |fields| == (if f == Capacitor then 5 else 4)
              && fields[0] == value
              && fields[|fields| - 1] == r.value.package
              && Package(attrs) == Ok(r.value.package)
              && "Tolerance" in attrs && FamilyField(f) in attrs
              && fields[1] == (if f == Resistor then ResistorTolerance(attrs["Tolerance"]) else Tolerance(attrs["Tolerance"]))
              && fields[2] == (if f == Resistor then Power(attrs["Power (Watts)"]) else attrs[FamilyField(f)])
              && (f == Capacitor ==> fields[3] == TemperatureCode(attrs, categories))
    ensures "Tolerance" in attrs && Package(attrs).Ok? && FamilyField(f) in attrs ==> r.Ok?
    // A failing branch reports the first field it misses, in read order.
    ensures "Tolerance" !in attrs ==> r == Err(MissingField("Tolerance"))
    ensures f != Resistor && "Tolerance" in attrs && Package(attrs).Err? ==> r == Err(Package(attrs).error)
    ensures f != Resistor && "Tolerance" in attrs && Package(attrs).Ok? && FamilyField(f) !in attrs ==>
              r == Err(MissingField(FamilyField(f)))
    ensures f == Resistor && "Tolerance" in attrs && "Power (Watts)" !in attrs ==>
              r == Err(MissingField("Power (Watts)"))
    ensures f == Resistor && "Tolerance" in attrs && "Power (Watts)" in attrs && Package(attrs).Err? ==>
              r == Err(Package(attrs).error)
  {
    match f
    case Capacitor =>
      var tol :- Field(attrs, "Tolerance");
      var pkg :- Package(attrs);
      var temp := TemperatureCode(attrs, categories);
      var volt :- Field(attrs, "Voltage - Rated");
      Ok(NameParts([value, Tolerance(tol), volt, temp, pkg], pkg))
    case Inductor =>
      var tol :- Field(attrs, "Tolerance");
      var pkg :- Package(attrs);
      var cur :- Field(attrs, "Current Rating");
      Ok(NameParts([value, Tolerance(tol), cur, pkg], pkg))
    case Resistor =>
      var tol :- Field(attrs, "Tolerance");
      var pow :- Field(attrs, "Power (Watts)");
      var pkg :- Package(attrs);
      Ok(NameParts([value, ResistorTolerance(tol), Power(pow), pkg], pkg))
  }

  /** `"C_{0}_{1}_{2}_{3}_{4}".format(...)` and its inductor and resistor
      counterparts. */
  function SymbolName(f: Family, fields: seq<string>): string {
    Join([Letter(f)] + fields, '_')
  }

  /** The footprint the script proposes: `SFUSat-cap:C_<package>` etc. */
  function FootprintName(f: Family, package: string): (r: string)
    ensures ':' in r
  {
    assert (FootprintLibrary(f) + ":" + Letter(f) + "_" + package)[|FootprintLibrary(f)|] == ':';
    FootprintLibrary(f) + ":" + Letter(f) + "_" + package
  }

  /** Some file of the footprint directory has the part after `:` in its
      name (`any(footprint.split(":")[1] in file for file in listdir)`). */
  predicate FootprintListed(catalog: seq<string>, footprint: string)
    requires ':' in footprint
  {
    exists i :: 0 <= i < |catalog| && Contains(catalog[i], SecondToken(footprint, ':'))
  }

  /** The proposed footprint, or `""` when the directory has no match. */
  function Footprint(f: Family, package: string, catalog: seq<string>): (r: string)
    ensures r == "" || r == FootprintName(f, package)
    ensures r == "" <==> !FootprintListed(catalog, FootprintName(f, package))
  {
    var fp := FootprintName(f, package);
    assert fp != [];
    if FootprintListed(catalog, fp) then fp else ""
  }

  /** The KiCad fixed fields: F0 reference, F1 value (the symbol name), F2
      footprint, F3 datasheet. */
  datatype FixedAttrs = FixedAttrs(reference: string, value: string, footprint: string, datasheet: string)

  /** makeFixedAttrs: classify the part and build its fixed fields.
      `catalogs` holds each family's footprint directory listing. */
  function MakeFixedAttrs(t: PrefixTable, attrs: Attrs, catalogs: PerFamily<seq<string>>): (r: Result<(Family, FixedAttrs), Error>)
    ensures "Categories" !in attrs ==> r == Err(MissingField("Categories"))
    ensures "Categories" in attrs && Classify(attrs["Categories"]).None? ==> r == Err(UnsupportedCategory)
    ensures r.Ok? ==> "Categories" in attrs && Classify(attrs["Categories"]) == Some(r.value.0)
    ensures "Categories" in attrs && Classify(attrs["Categories"]).Some? ==>
              var parts := FamilyParts(t, Classify(attrs["Categories"]).value, attrs, attrs["Categories"]);
              && (r.Ok? <==> parts.Ok?)
              && (parts.Err? ==> r == Err(parts.error))
    ensures r.Ok? ==> r.value.1.reference == Letter(r.value.0) && r.value.1.datasheet == ""
    ensures r.Ok? ==> Letter(r.value.0) + "_" <= r.value.1.value
    ensures r.Ok? && r.value.1.footprint != "" ==>
              && FootprintLibrary(r.value.0) + ":" + Letter(r.value.0) + "_" <= r.value.1.footprint
              && ':' in r.value.1.footprint
              && FootprintListed(catalogs.Get(r.value.0), r.value.1.footprint)
  {
    var categories :- Field(attrs, "Categories");
    match Classify(categories)
    case None => Err(UnsupportedCategory)
    case Some(f) =>
      var parts :- FamilyParts(t, f, attrs, categories);
      var name := SymbolName(f, parts.fields);
      assert name == Letter(f) + "_" + Join(parts.fields, '_');
      var footprint := Footprint(f, parts.package, catalogs.Get(f));
      Ok((f, FixedAttrs(Letter(f), name, footprint, "")))
  }

  /** The symbol name encodes the family letter and the derived fields, in
      order; when no field holds `_` they can be read back by splitting on
      it. */
  lemma SymbolNameFields(t: PrefixTable, attrs: Attrs, catalogs: PerFamily<seq<string>>)
    requires MakeFixedAttrs(t, attrs, catalogs).Ok?
    ensures var (f, fixed) := MakeFixedAttrs(t, attrs, catalogs).value;
      var parts := FamilyParts(t, f, attrs, attrs["Categories"]);
      && parts.Ok?
      && fixed.value == SymbolName(f, parts.value.fields)
      && fixed.footprint == Footprint(f, parts.value.package, catalogs.Get(f))
      && ((forall i :: 0 <= i < |parts.value.fields| ==> '_' !in parts.value.fields[i]) ==>
            Split(fixed.value, '_') == [Letter(f)] + parts.value.fields)
  {
    var (f, fixed) := MakeFixedAttrs(t, attrs, catalogs).value;
    var parts := FamilyParts(t, f, attrs, attrs["Categories"]).value;
    var pieces := [Letter(f)] + parts.fields;
    if forall i :: 0 <= i < |parts.fields| ==> '_' !in parts.fields[i] {
      assert forall i :: 0 <= i < |pieces| ==> '_' !in pieces[i] by {
        forall i | 0 <= i < |pieces| ensures '_' !in pieces[i] {
          if i > 0 { assert pieces[i] == parts.fields[i - 1]; }
        }
      }
      SplitJoin(pieces, '_');
    }
  }
}
