/** The record formatter (kicadLibPop.py, makeLibPart and makeDesc): the
    lines of one symbol definition in a KiCad `.lib` file and of its entry
    in the `.dcm` description file. */
module Records {
  import opened Wrappers
  import opened Text
  import opened Symbols

  /** Where and how a field's text is drawn on the symbol. */
  datatype TextAttr = TextAttr(
    posx: int,
    posy: int,
    textSize: nat,
    textOrient: string,   // "H" or "V"
    visible: string,      // "V" visible, "I" invisible
    hTextJustify: string, // "L", "R" or "C"
    vTextJustify: string) // "TNN", "BNN" or "CNN"

  /** The drawing settings of the reference, the value and every other field. */
  datatype AttrConfig = AttrConfig(ref: TextAttr, val: TextAttr, other: TextAttr)

  /** The invisible, centred settings shared by every family's other fields. */
  const OtherAttr: TextAttr := TextAttr(0, 0, 50, "H", "I", "C", "CNN")

  /** Capacitors justify their reference and value to the left. */
  const CapAttrConfig: AttrConfig :=
    AttrConfig(TextAttr(0, 50, 50, "H", "V", "L", "BNN"), TextAttr(0, -50, 50, "H", "V", "L", "TNN"), OtherAttr)

  const ResAttrConfig: AttrConfig :=
    AttrConfig(TextAttr(0, 50, 50, "H", "V", "C", "BNN"), TextAttr(0, -50, 50, "H", "V", "C", "TNN"), OtherAttr)

  const IndAttrConfig: AttrConfig :=
    AttrConfig(TextAttr(0, 50, 50, "H", "V", "C", "BNN"), TextAttr(0, -50, 50, "H", "V", "C", "TNN"), OtherAttr)

  /** The drawing of a two-lead chip part of each family, one text block. */
  const CapSymbolShape: string :=
    "DRAW\nP 2 0 1 20 -80 -30 80 -30 N\nP 2 0 1 20 -80 30 80 30 N\nX ~ 1 0 150 110 D 50 50 1 1 P\nX ~ 2 0 -150 110 U 50 50 1 1 P\nENDDRAW"
  const IndSymbolShape: string :=
    "DRAW\nA -75 0 25 1 -1801 0 1 0 N -50 0 -100 0\nA -25 0 25 1 -1801 0 1 0 N 0 0 -50 0\nA 25 0 25 1 -1801 0 1 0 N 50 0 0 0\nA 75 0 25 1 -1801 0 1 0 N 100 0 50 0\nX 1 1 -150 0 50 R 50 50 1 1 P\nX 2 2 150 0 50 L 50 50 1 1 P\nENDDRAW"
  const ResSymbolShape: string :=
    "DRAW\nS 100 -40 -100 40 0 1 10 N\nX ~ 1 -150 0 50 R 50 50 1 1 P\nX ~ 2 150 0 50 L 50 50 1 1 P\nENDDRAW"

  function Config(f: Family): AttrConfig {
    match f
    case Capacitor => CapAttrConfig
    case Inductor => IndAttrConfig
    case Resistor => ResAttrConfig
  }

  function Shape(f: Family): string {
    match f
    case Capacitor => CapSymbolShape
    case Inductor => IndSymbolShape
    case Resistor => ResSymbolShape
  }

  /** The DEF line options. */
  const TextOffset: nat := 10
  const DrawPinNumber: string := "N"
  const DrawPinName: string := "N"
  const UnitCount: nat := 1
  const UnitsLocked: string := "F"
  const OptionFlag: string := "N"

  /** The number of the first optional field: F0..F3 are the fixed ones. */
  const FirstOptionalField: nat := 4

  /** The key whose value goes to the description file, not to a field. */
  const DescriptionKey: string := "Description"

  /** The comment block that opens a definition. */
  function Header(name: string): string {
    "# \n# " + name + "\n#"
  }

  /** The words of the DEF line. */
  function DefWords(name: string, reference: string): seq<string> {
    ["DEF", name, reference, "0", NatToString(TextOffset), DrawPinNumber, DrawPinName,
     NatToString(UnitCount), UnitsLocked, OptionFlag]
  }

  function DefLine(name: string, reference: string): string {
    Join(DefWords(name, reference), ' ')
  }

  /** The seven drawing settings of a field, space separated. */
  function AttrText(a: TextAttr): string {
    Join([IntToString(a.posx), IntToString(a.posy), NatToString(a.textSize),
          a.textOrient, a.visible, a.hTextJustify, a.vTextJustify], ' ')
  }

  /** `F<n> "<text>" <settings>`. */
  function FieldLine(n: nat, text: string, a: TextAttr): string {
    "F" + NatToString(n) + " \"" + text + "\" " + AttrText(a)
  }

  /** An optional field also carries its name: `F<n> "<value>" <settings> "<key>"`. */
  function OptionalLine(n: nat, key: string, value: string, a: TextAttr): string {
    FieldLine(n, value, a) + " \"" + key + "\""
  }

  /** `m` is the least key of `keys` in Python's string order. */
  predicate IsLeast(m: string, keys: set<string>) {
    m in keys && forall k :: k in keys && k != m ==> StrLess(m, k)
  }

  lemma {:induction false} LeastExists(keys: set<string>)
    requires keys != {}
    ensures exists m :: IsLeast(m, keys)
    decreases |keys|
  {
    var x :| x in keys;
    var rest := keys - {x};
    if rest == {} {
      assert keys == {x};
      assert IsLeast(x, keys);
    } else {
      LeastExists(rest);
      var m :| IsLeast(m, rest);
      StrLessTotal(m, x);
      if StrLess(m, x) {
        assert IsLeast(m, keys);
      } else {
        forall k | k in keys && k != x
          ensures StrLess(x, k)
        {
          if k != m {
            StrLessTransitive(x, m, k);
          }
        }
        assert IsLeast(x, keys);
      }
    }
  }

  lemma LeastUnique(keys: set<string>)
    ensures forall a, b :: IsLeast(a, keys) && IsLeast(b, keys) ==> a == b
  {
    forall a, b | IsLeast(a, keys) && IsLeast(b, keys)
      ensures a == b
    {
      StrLessAsymmetric(a, b);
    }
  }

  /** `sorted(d.items())`: the entries in increasing key order (keys are
      distinct, so values are never compared). */
  function SortedItems(attrs: Attrs): seq<(string, string)>
    decreases |attrs.Keys|
  {
    if attrs.Keys == {} then []
    else
      LeastExists(attrs.Keys);
      LeastUnique(attrs.Keys);
      var m :| IsLeast(m, attrs.Keys);
      assert (attrs - {m}).Keys == attrs.Keys - {m};
      [(m, attrs[m])] + SortedItems(attrs - {m})
  }

  /** The first sorted entry is the least key with its value; the rest are
      the sorted entries of the dictionary without it. */
  lemma SortedItemsUnfold(attrs: Attrs)
    requires attrs.Keys != {}
    ensures var r := SortedItems(attrs);
      && r != []
      && IsLeast(r[0].0, attrs.Keys)
      && r[0].1 == attrs[r[0].0]
      && (attrs - {r[0].0}).Keys == attrs.Keys - {r[0].0}
      && r[1..] == SortedItems(attrs - {r[0].0})
  {
    var r := SortedItems(attrs);
    var m := r[0].0;
    assert IsLeast(m, attrs.Keys);
    assert (attrs - {m}).Keys == attrs.Keys - {m};
  }

  /** One sorted entry per key. */
  lemma {:induction false} SortedItemsLength(attrs: Attrs)
    ensures |SortedItems(attrs)| == |attrs|
    decreases |attrs.Keys|
  {
    if attrs.Keys != {} {
      SortedItemsUnfold(attrs);
      var m := SortedItems(attrs)[0].0;
      SortedItemsLength(attrs - {m});
    }
  }

  /** Every sorted entry is an entry of the dictionary. */
  lemma {:induction false} SortedItemsSound(attrs: Attrs)
    ensures var r := SortedItems(attrs);
      forall j :: 0 <= j < |r| ==> r[j].0 in attrs && r[j].1 == attrs[r[j].0]
    decreases |attrs.Keys|
  {
    if attrs.Keys != {} {
      var r := SortedItems(attrs);
      SortedItemsUnfold(attrs);
      var rest := attrs - {r[0].0};
      SortedItemsSound(rest);
      forall j | 0 <= j < |r| ensures r[j].0 in attrs && r[j].1 == attrs[r[j].0] {
        if j > 0 {
          assert r[j] == r[1..][j - 1];
        }
      }
    }
  }

  /** Every key of the dictionary has a sorted entry. */
  lemma {:induction false} SortedItemsComplete(attrs: Attrs)
    ensures var r := SortedItems(attrs);
      forall k :: k in attrs ==> exists j :: 0 <= j < |r| && r[j].0 == k
    decreases |attrs.Keys|
  {
    if attrs.Keys != {} {
      var r := SortedItems(attrs);
      SortedItemsUnfold(attrs);
      var rest := attrs - {r[0].0};
      var tail := r[1..];
      SortedItemsComplete(rest);
      forall k | k in attrs ensures exists j :: 0 <= j < |r| && r[j].0 == k {
        if k != r[0].0 {
          assert k in rest;
          var j :| 0 <= j < |tail| && tail[j].0 == k;
          assert r[j + 1].0 == k;
        }
      }
    }
  }

  /** The entries come out in strictly increasing key order. */
  lemma {:induction false} SortedItemsOrdered(attrs: Attrs)
    ensures var r := SortedItems(attrs);
      forall i, j :: 0 <= i < j < |r| ==> StrLess(r[i].0, r[j].0)
    decreases |attrs.Keys|
  {
    if attrs.Keys != {} {
      var r := SortedItems(attrs);
      SortedItemsUnfold(attrs);
      var rest := attrs - {r[0].0};
      var tail := r[1..];
      SortedItemsOrdered(rest);
      SortedItemsSound(rest);
      forall i, j | 0 <= i < j < |r| ensures StrLess(r[i].0, r[j].0) {
        assert r[j] == tail[j - 1];
        if i > 0 {
          assert r[i] == tail[i - 1];
        } else {
          assert tail[j - 1].0 in rest;
        }
      }
    }
  }

  /** `items` holds `key` at some position. */
  predicate HasKey(items: seq<(string, string)>, key: string) {
    exists i :: 0 <= i < |items| && items[i].0 == key
  }

  /** The line one entry writes at field number `n`: none for the
      description, which goes to the description file instead. */
  function OptionalEntry(item: (string, string), a: TextAttr, n: nat): seq<string> {
    if item.0 == DescriptionKey then [] else [OptionalLine(n, item.0, item.1, a)]
  }

  /** The optional field lines for the entries `items`, numbered from `n`;
      the description takes a number but writes no line. */
  function OptionalLines(items: seq<(string, string)>, a: TextAttr, n: nat): (r: seq<string>)
    ensures |r| <= |items|
  {
    if items == [] then []
    else OptionalEntry(items[0], a, n) + OptionalLines(items[1..], a, n + 1)
  }

  /** The six lines before the optional fields. */
  function FixedLines(fixed: FixedAttrs, config: AttrConfig): seq<string> {
    [Header(fixed.value),
     DefLine(fixed.value, fixed.reference),
     FieldLine(0, fixed.reference, config.ref),
     FieldLine(1, fixed.value, config.val),
     FieldLine(2, fixed.footprint, config.other),
     FieldLine(3, fixed.datasheet, config.other)]
  }

  /** The whole definition makeLibPart returns. */
  function LibRecord(attrs: Attrs, fixed: FixedAttrs, config: AttrConfig, shape: string): seq<string> {
    FixedLines(fixed, config)
    + OptionalLines(SortedItems(attrs), config.other, FirstOptionalField)
    + [shape, "ENDDEF"]
  }

  /** makeLibPart: the header, the DEF line, F0-F3, one line per attribute
      in key order with a running field number, the drawing and ENDDEF. */
  method MakeLibPart(attrs: Attrs, fixed: FixedAttrs, config: AttrConfig, shape: string)
    returns (lines: seq<string>)
    ensures lines == LibRecord(attrs, fixed, config, shape)
  {
    var fields := OptionalFields(SortedItems(attrs), config.other);
    lines := FixedLines(fixed, config) + fields + [shape, "ENDDEF"];
  }

  /** The loop of makeLibPart over the sorted entries: every entry takes
      the next field number, and all but the description write a line. */
  method OptionalFields(items: seq<(string, string)>, a: TextAttr) returns (fields: seq<string>)
    ensures fields == OptionalLines(items, a, FirstOptionalField)
  {
    fields := [];
    var attributeNum := FirstOptionalField;
    var i := 0;
    while i < |items|
      invariant 0 <= i <= |items|
      invariant attributeNum == FirstOptionalField + i
      invariant fields + OptionalLines(items[i..], a, attributeNum)
             == OptionalLines(items, a, FirstOptionalField)
    {
      var (key, value) := items[i];
      OptionalLinesStep(items, a, attributeNum, i);
      ghost var rest := OptionalLines(items[i + 1..], a, attributeNum + 1);
      ghost var entry := OptionalEntry(items[i], a, attributeNum);
      AppendRegroup(fields, entry, rest);
      if key != DescriptionKey {
        fields := fields + [OptionalLine(attributeNum, key, value, a)];
      }
      attributeNum := attributeNum + 1;
      i := i + 1;
    }
    assert items[i..] == [];
  }

  lemma AppendRegroup(a: seq<string>, b: seq<string>, c: seq<string>)
    ensures a + (b + c) == (a + b) + c
  {
  }

  /** One step of the field loop: the entry at `i` takes number `n`. */
  lemma OptionalLinesStep(items: seq<(string, string)>, a: TextAttr, n: nat, i: nat)
    requires i < |items|
    ensures OptionalLines(items[i..], a, n)
         == OptionalEntry(items[i], a, n) + OptionalLines(items[i + 1..], a, n + 1)
  {
    assert items[i..][1..] == items[i + 1..];
  }

  /** Each non-description entry at position `j` has its line, numbered `n + j`. */
  lemma {:induction false} OptionalLinesHave(items: seq<(string, string)>, a: TextAttr, n: nat, j: nat)
    requires j < |items| && items[j].0 != DescriptionKey
    ensures OptionalLine(n + j, items[j].0, items[j].1, a) in OptionalLines(items, a, n)
    decreases j
  {
    if j > 0 {
      OptionalLinesHave(items[1..], a, n + 1, j - 1);
      assert items[1..][j - 1] == items[j];
    }
  }

  /** Every optional line belongs to a non-description entry and carries
      that entry's position as its number. */
  lemma {:induction false} OptionalLinesFrom(items: seq<(string, string)>, a: TextAttr, n: nat, line: string)
    requires line in OptionalLines(items, a, n)
    ensures exists j :: 0 <= j < |items| && items[j].0 != DescriptionKey
                        && line == OptionalLine(n + j, items[j].0, items[j].1, a)
    decreases |items|
  {
    var head := OptionalEntry(items[0], a, n);
    assert OptionalLines(items, a, n) == head + OptionalLines(items[1..], a, n + 1);
    if line in head {
      assert items[0].0 != DescriptionKey && line == OptionalLine(n + 0, items[0].0, items[0].1, a);
    } else {
      OptionalLinesFrom(items[1..], a, n + 1, line);
      var j :| 0 <= j < |items[1..]| && items[1..][j].0 != DescriptionKey
               && line == OptionalLine(n + 1 + j, items[1..][j].0, items[1..][j].1, a);
      assert items[j + 1] == items[1..][j];
    }
  }

  /** With distinct keys, exactly the description entry writes no line. */
  lemma {:induction false} OptionalLinesCount(items: seq<(string, string)>, a: TextAttr, n: nat)
    requires forall i, j :: 0 <= i < j < |items| ==> items[i].0 != items[j].0
    ensures |OptionalLines(items, a, n)| == |items| - (if HasKey(items, DescriptionKey) then 1 else 0)
    decreases |items|
  {
    if items != [] {
      var tail := items[1..];
      assert forall i, j :: 0 <= i < j < |tail| ==> tail[i].0 != tail[j].0 by {
        forall i, j | 0 <= i < j < |tail| ensures tail[i].0 != tail[j].0 {
          assert tail[i] == items[i + 1] && tail[j] == items[j + 1];
        }
      }
      OptionalLinesCount(tail, a, n + 1);
      if items[0].0 == DescriptionKey {
        assert HasKey(items, DescriptionKey) by {
          assert items[0].0 == DescriptionKey;
        }
        assert !HasKey(tail, DescriptionKey) by {
          forall i | 0 <= i < |tail| ensures tail[i].0 != DescriptionKey {
            assert tail[i] == items[i + 1];
          }
        }
      } else {
        assert HasKey(items, DescriptionKey) <==> HasKey(tail, DescriptionKey) by {
          if HasKey(items, DescriptionKey) {
            var i :| 0 <= i < |items| && items[i].0 == DescriptionKey;
            assert tail[i - 1] == items[i];
          }
          if HasKey(tail, DescriptionKey) {
            var i :| 0 <= i < |tail| && tail[i].0 == DescriptionKey;
            assert items[i + 1] == tail[i];
          }
        }
      }
    }
  }

  /** The shape of a definition: header and DEF line first, the value
      field F1 among the fixed fields, then the drawing and ENDDEF last. */
  lemma LibRecordShape(attrs: Attrs, fixed: FixedAttrs, config: AttrConfig, shape: string)
    ensures var r := LibRecord(attrs, fixed, config, shape);
      && |r| >= 8
      && r[0] == Header(fixed.value)
      && r[1] == DefLine(fixed.value, fixed.reference)
      && r[2] == FieldLine(0, fixed.reference, config.ref)
      && r[3] == FieldLine(1, fixed.value, config.val)
      && r[4] == FieldLine(2, fixed.footprint, config.other)
      && r[5] == FieldLine(3, fixed.datasheet, config.other)
      && r[|r| - 2] == shape
      && r[|r| - 1] == "ENDDEF"
  {
  }

  /** One field line per attribute other than the description, besides the
      six fixed lines and the two closing ones. */
  lemma LibRecordLength(attrs: Attrs, fixed: FixedAttrs, config: AttrConfig, shape: string)
    ensures |LibRecord(attrs, fixed, config, shape)| == 8 + |attrs| - (if DescriptionKey in attrs then 1 else 0)
  {
    var items := SortedItems(attrs);
    SortedItemsOrdered(attrs);
    SortedItemsLength(attrs);
    SortedItemsSound(attrs);
    SortedItemsComplete(attrs);
    forall i, j | 0 <= i < j < |items| ensures items[i].0 != items[j].0 {
      StrLessIrreflexive(items[i].0);
    }
    OptionalLinesCount(items, config.other, FirstOptionalField);
    assert HasKey(items, DescriptionKey) <==> DescriptionKey in attrs;
  }

  /** Every attribute except the description becomes a field line with its
      key and value, numbered by its position in key order. */
  lemma LibRecordHasField(attrs: Attrs, fixed: FixedAttrs, config: AttrConfig, shape: string, key: string)
    requires key in attrs && key != DescriptionKey
    ensures var items := SortedItems(attrs);
      exists j :: (0 <= j < |items| && items[j].0 == key
        && OptionalLine(FirstOptionalField + j, key, attrs[key], config.other) in LibRecord(attrs, fixed, config, shape))
  {
    var items := SortedItems(attrs);
    SortedItemsSound(attrs);
    SortedItemsComplete(attrs);
    var j :| 0 <= j < |items| && items[j].0 == key;
    OptionalLinesHave(items, config.other, FirstOptionalField, j);
    OptionalInRecord(attrs, fixed, config, shape, OptionalLine(FirstOptionalField + j, key, attrs[key], config.other));
  }

  /** Every optional field line comes from an attribute other than the
      description, with that attribute's key and value. */
  lemma LibRecordFieldFrom(attrs: Attrs, config: AttrConfig, line: string)
    requires line in OptionalLines(SortedItems(attrs), config.other, FirstOptionalField)
    ensures var items := SortedItems(attrs);
      exists j :: (0 <= j < |items| && items[j].0 in attrs && items[j].0 != DescriptionKey
        && line == OptionalLine(FirstOptionalField + j, items[j].0, attrs[items[j].0], config.other))
  {
    var items := SortedItems(attrs);
    SortedItemsSound(attrs);
    OptionalLinesFrom(items, config.other, FirstOptionalField, line);
  }

  lemma OptionalInRecord(attrs: Attrs, fixed: FixedAttrs, config: AttrConfig, shape: string, x: string)
    requires x in OptionalLines(SortedItems(attrs), config.other, FirstOptionalField)
    ensures x in LibRecord(attrs, fixed, config, shape)
  {
    InMiddle(FixedLines(fixed, config), OptionalLines(SortedItems(attrs), config.other, FirstOptionalField), [shape, "ENDDEF"], x);
  }

  lemma InMiddle(a: seq<string>, b: seq<string>, c: seq<string>, x: string)
    requires x in b
    ensures x in a + b + c
  {
  }

  /** The DEF line splits back into its words when neither the name nor the
      reference holds a space. */
  lemma DefLineWords(name: string, reference: string)
    requires ' ' !in name && ' ' !in reference
    ensures Split(DefLine(name, reference), ' ') == DefWords(name, reference)
    ensures Split(DefLine(name, reference), ' ')[1] == name
  {
    var w := DefWords(name, reference);
    assert ' ' !in NatToString(TextOffset) by {
      assert AllDigits(NatToString(TextOffset));
    }
    assert ' ' !in NatToString(UnitCount) by {
      assert AllDigits(NatToString(UnitCount));
    }
    SplitJoin(w, ' ');
  }

  /** The header carries the name between its fixed comment lines. */
  function HeaderName(header: string): Option<string> {
    if |header| >= 7 && header[..5] == "# \n# " && header[|header| - 2..] == "\n#"
    then Some(header[5..|header| - 2])
    else None
  }

  lemma HeaderRoundTrip(name: string)
    ensures HeaderName(Header(name)) == Some(name)
  {
    var h := Header(name);
    assert h[..5] == "# \n# ";
    assert h[|h| - 2..] == "\n#";
    assert h[5..|h| - 2] == name;
  }

  /** makeDesc: the description file entry of a symbol. */
  function MakeDesc(description: string, name: string): (r: seq<string>)
    ensures |r| == 4 && r[0] == "#" && r[3] == "$ENDCMP"
  {
    ["#", "$CMP " + name, "D " + description, "$ENDCMP"]
  }

  /** Reads a description entry back: `(description, name)`. */
  function ReadDesc(entry: seq<string>): Option<(string, string)> {
    if |entry| == 4 && entry[0] == "#" && entry[3] == "$ENDCMP"
       && |entry[1]| >= 5 && entry[1][..5] == "$CMP "
       && |entry[2]| >= 2 && entry[2][..2] == "D "
    then Some((entry[2][2..], entry[1][5..]))
    else None
  }

  lemma DescRoundTrip(description: string, name: string)
    ensures ReadDesc(MakeDesc(description, name)) == Some((description, name))
  {
    var e := MakeDesc(description, name);
    assert e[1][..5] == "$CMP " && e[1][5..] == name;
    assert e[2][..2] == "D " && e[2][2..] == description;
  }
}
