# kicadLibPop in Dafny

A Dafny model of the core of `kicadLibPop.py`, the KiCad library populator.
For each part number, the script reads the Digi-Key product page. It builds
a dictionary of the part's attributes and classifies the part as a chip
capacitor, inductor or resistor. It normalises the value to an SI prefix
(`4.7 µF` becomes `4u7`) and composes a symbol name such as
`C_4u7_10%_16V_X5R_0603` and a footprint. The part then becomes a `DEF` …
`ENDDEF` record for the family's `.lib` file and a `$CMP` … `$ENDCMP` record
for its `.dcm` file. A part whose number or symbol name is already in the
library file is skipped. At the end, each family's new records are spliced
in front of the file's closing lines.

Modules, in dependency order:

- `Wrappers` (`wrappers.dfy`): `Option`, `Result`, and the `Error` values
  that stand for the exceptions and the `sys.exit()` that stop the script.
- `Text` (`text.dfy`): the Python string operations the script uses:
  - `in` on strings;
  - `replace` with a single character;
  - `split(sep)[0]`;
  - `rstrip`/`lstrip` with a character set;
  - `"_".join`;
  - string ordering;
  - `str(int)`.
- `Decimals` (`decimals.dfy`): magnitudes as exact decimal digit strings. It
  covers `float()` of the field's numeric characters, `str()` of the
  result, and the thousandfold shifts.
- `Units` (`units.dfy`): `getSiUnit`, and the prefix read, parse, rescale
  and display steps that `makeFixedAttrs` repeats for each family.
- `Symbols` (`symbols.dfy`): `makeFixedAttrs`, meaning the category
  classifier, the symbol name, the footprint and the fixed fields.
- `Records` (`records.dfy`): `makeLibPart` and `makeDesc`, the text of
  the library and description records.
- `Attributes` (`attributes.dfy`): `getProdDetails`, `getProdAttrs`,
  `removeAttrs` and `makeProdAttrs`, working on the table rows already
  taken out of the page.
- `Library` (`library.dfy`): `writeFile`, `writeToLibFile` and
  `writeToDescFile`, which compute the text the script writes.
- `Populator` (`populator.dfy`): the main loop. It is a class holding the
  per-family buffers (`capLibContents`/`capParts`/`capDesc` and their
  inductor and resistor counterparts), with one step per part number and
  the final writes.

The model follows what the code does, including in these points:

- Only capacitors, inductors and resistors are handled. Any other category
  (ferrite beads included) ends the run through `sys.exit()`, so the model
  returns `Err(UnsupportedCategory)` and the run writes nothing.
- No attribute row is skipped by name (for example the manufacturer row).
  Only the title row is skipped, and only the four fields of
  `fieldsToIgnore` are removed.
- The description record is the four lines `#`, `$CMP <name>`,
  `D <description>` and `$ENDCMP`.
- A quote in an attribute value is escaped as `\"`.
- A magnitude of zero is below one, so it is still multiplied by 1000 and
  moved one prefix down.

## Model

| member | source | states |
|---|---|---|
| Text.StripRightSpec | kicadLibPop.py:501-502 | `rstrip(chars)` drops exactly the maximal tail of characters from the set: the result is a prefix, its last character is outside the set, and every dropped character is inside |
| Text.StripLeftSpec | kicadLibPop.py:501-502 | `lstrip(chars)` drops exactly the maximal head of characters from the set |
| Text.TrimSpec | kicadLibPop.py:501-502 | the trimmed cell text has no space, CR or LF at either end and is a substring of the cell |
| Text.StripRightSuffix | kicadLibPop.py:564 | stripping a tail made only of set characters from a text whose last character is outside the set gives the text back |
| Text.StripRightIdempotent | kicadLibPop.py:564 | stripping an already stripped text changes nothing |
| Text.SplitJoin | kicadLibPop.py:369-373 | joining fields with `_` and splitting on `_` gives the fields back when none holds `_` |
| Text.StrLessTransitive | kicadLibPop.py:294 | Python's string order is transitive |
| Text.StrLessTotal | kicadLibPop.py:294 | Python's string order is total on distinct strings |
| Text.StrLessAsymmetric | kicadLibPop.py:294 | Python's string order is asymmetric |
| Decimals.KeepNumeric | kicadLibPop.py:140 | `re.sub(r"[^\d.+]", "", s)` keeps only digits, `.` and `+`, is never longer than its input, and leaves text that holds nothing else unchanged |
| Decimals.KeepNumericAppend | kicadLibPop.py:140 | the filter works character by character: filtering a concatenation is concatenating the filtered parts |
| Decimals.KeepNumericChar | kicadLibPop.py:140 | a single character is kept exactly when it is a digit, `.` or `+` |
| Decimals.ParseNumber | kicadLibPop.py:337 | a successful `float()` yields a well-formed decimal with at least one digit |
| Decimals.ParseNumberSpells | kicadLibPop.py:337 | text `float()` accepts is spelled by what it read: an optional leading `+`, the whole digits, the point when the text has one, and the fraction digits; without a point the fraction is empty |
| Decimals.ParseSpelled | kicadLibPop.py:337 | conversely, every such spelling with at least one digit parses to exactly its whole and fraction digits |
| Decimals.ParseNumberNeedsDigit | kicadLibPop.py:337 | text without a digit is the ValueError case |
| Decimals.ParseNumberOnePoint | kicadLibPop.py:337 | text with two points is the ValueError case |
| Decimals.ParseNumberSignFirst | kicadLibPop.py:337 | text with a `+` after its first character is the ValueError case |
| Decimals.Times1000 | kicadLibPop.py:341 | `value *= 1000` multiplies the mantissa by 1000 at the same scale |
| Decimals.Div1000 | kicadLibPop.py:345 | `value /= 1000` keeps the mantissa and raises the scale by three |
| Decimals.RenderRoundTrip | kicadLibPop.py:350 | `float(str(value))` reads back the canonical form of `value` |
| Decimals.CanonSameValue | kicadLibPop.py:350 | the digits `str()` shows denote the same number as the magnitude |
| Decimals.CanonIsCanonical | kicadLibPop.py:350 | `str()` digits have no leading or trailing zeros beyond one, and rendering them again changes nothing |
| Units.GetSiUnit | kicadLibPop.py:238-244 | returns the first prefix in table order whose multiplier is the one searched for, or `""` when none has it, which is `SiUnitFor` of the table and multiplier |
| Units.SiUnitFor | kicadLibPop.py:238-244 | the prefix found carries the multiplier searched for; with none, the result is `""` |
| Units.PrefixRoundTrip | kicadLibPop.py:238-244 | with distinct multipliers, looking up a prefix's multiplier and searching for it gives the prefix back |
| Units.ExponentRoundTrip | kicadLibPop.py:238-244 | with distinct prefixes, the prefix found for a multiplier has that multiplier |
| Units.PrefixAt | kicadLibPop.py:330-335 | a field shorter than the offset is the IndexError case; otherwise, for the character `raw[-offset]`, a digit or space gives the family default, `µ` gives `u`, and any other character is the prefix itself |
| Units.Rescale | kicadLibPop.py:340-347 | fails with a KeyError exactly when the value is out of range and the prefix is unknown; an in-range value is kept; after the step the value is in `[1, 1000)` exactly when it started in `[0.001, 1000000)` |
| Units.RescaleKeepsQuantity | kicadLibPop.py:340-347 | when the target prefix exists, magnitude times multiplier is unchanged by the rescale |
| Units.RescaleMissingTier | kicadLibPop.py:340-347 | when no prefix has the target multiplier, the magnitude is still rescaled and the prefix becomes `""` |
| Units.Normalize | kicadLibPop.py:330-347 | a too-short field is FieldTooShort and unparsable text NotANumber, in Python's order; otherwise the result is the one rescale step of the parsed number with the prefix read from the field, so it is well formed, and in range exactly when the parsed value was within one tier |
| Units.NormalizeInRange | kicadLibPop.py:330-350 | a number already in range is kept as parsed, with the prefix read from the field |
| Units.NormalizeExample | kicadLibPop.py:330-350 | `4.7µF` reads as 4.7 with the prefix `u` |
| Units.ReplaceCharAppend | kicadLibPop.py:350 | `replace` of one character distributes over concatenation |
| Units.DisplayShape | kicadLibPop.py:350 | the displayed value is the whole digits, the prefix, then the fraction digits |
| Units.DisplayRoundTrip | kicadLibPop.py:350 | replacing a one-letter prefix back by `.` and parsing recovers the canonical magnitude |
| Symbols.Field | kicadLibPop.py:330 | a dictionary read succeeds exactly when the key is present and returns its value; otherwise KeyError |
| Symbols.Classify | kicadLibPop.py:327-479 | capacitor if "Capacitor" is in the categories, else inductor if "Inductor" is, else resistor if "Resistor" is, else unsupported (all four as if-and-only-if) |
| Symbols.Tolerance | kicadLibPop.py:352 | the tolerance has no `±`, and text without one is unchanged |
| Symbols.ResistorTolerance | kicadLibPop.py:451-454 | `Jumper` becomes `0%`; any other tolerance is the tolerance with `±` removed |
| Symbols.ValueText | kicadLibPop.py:330-350 | a missing value field is the KeyError; otherwise the result is the normalisation's error, or the displayed normalised value |
| Symbols.Package | kicadLibPop.py:354-357 | a missing package field is the KeyError; Nonstandard packages take the supplier package field, and its absence is the KeyError; other packages always succeed with the package text up to its first space (all of it when it has none) |
| Symbols.TemperatureCode | kicadLibPop.py:359-367 | absent coefficient gives TANT exactly for tantalum parts, else the placeholder; `C0G, NP0` becomes NP0; any other coefficient is used as is |
| Symbols.Power | kicadLibPop.py:455 | the power is the text before the first comma, or all of it when there is no comma |
| Symbols.FamilyParts | kicadLibPop.py:327-475 | the value is read first: its error is the result; otherwise the fields are the family branch's, after the displayed value |
| Symbols.BranchParts | kicadLibPop.py:352-475 | a family's fields are the value, the tolerance without `±` (a resistor jumper as `0%`), then the rated voltage and temperature code (capacitor), the current rating (inductor) or the power (resistor), and the package; the branch succeeds whenever the tolerance, the package and the family's own field are readable, and otherwise fails with the KeyError of the first field it misses in the script's read order (tolerance, package, voltage or current for a capacitor or inductor; tolerance, power, package for a resistor) |
| Symbols.Footprint | kicadLibPop.py:375-379 | the footprint is `<lib>:<letter>_<package>` when some catalogue file name contains its part after the colon, and `""` otherwise |
| Symbols.MakeFixedAttrs | kicadLibPop.py:326-485 | missing Categories is a KeyError and an unsupported category the `sys.exit()`; a classified part succeeds exactly when its family's fields can be derived, and otherwise fails with that error; on success the family is the classified one, the reference is its letter, the name starts with `<letter>_`, the datasheet is empty, and a nonempty footprint is a listed `<lib>:<letter>_` name |
| Symbols.SymbolNameFields | kicadLibPop.py:369-373 | the symbol name is the family letter and the fields joined by `_`, and splitting it on `_` gives them back when no field holds `_` |
| Records.SortedItemsLength | kicadLibPop.py:294 | `sorted(d.items())` has one entry per key |
| Records.SortedItemsSound | kicadLibPop.py:294 | every sorted entry is a key of the dictionary with its value |
| Records.SortedItemsComplete | kicadLibPop.py:294 | every key of the dictionary has a sorted entry |
| Records.SortedItemsOrdered | kicadLibPop.py:294 | the entries come in strictly increasing key order |
| Records.MakeLibPart | kicadLibPop.py:247-312 | the lines are the header, DEF line and F0-F3, then the optional fields in key order, then the drawing and ENDDEF |
| Records.OptionalFields | kicadLibPop.py:294-307 | the loop writes one F line per entry except the description, each numbered from 4 by the entry's position |
| Records.OptionalLinesCount | kicadLibPop.py:294-307 | with distinct keys, every entry except the description writes exactly one line |
| Records.LibRecordShape | kicadLibPop.py:251-310 | a record starts with the header, the DEF line and F0-F3 (reference, value, footprint, datasheet), and ends with the drawing and ENDDEF |
| Records.LibRecordLength | kicadLibPop.py:247-312 | a record has 8 lines plus one per attribute, minus one when a Description is present |
| Records.LibRecordHasField | kicadLibPop.py:294-307 | every attribute other than the description appears as an F line with its key and value, numbered 4 plus its sorted position |
| Records.LibRecordFieldFrom | kicadLibPop.py:294-307 | every optional F line comes from an attribute other than the description, with that attribute's key, value and position |
| Records.DefLineWords | kicadLibPop.py:252-259 | the DEF line splits back into its words, the second being the symbol name, when the name and reference hold no space |
| Records.HeaderRoundTrip | kicadLibPop.py:251 | the name can be read back from the header comment |
| Records.MakeDesc | kicadLibPop.py:315-323 | the description record is four lines, from `#` to `$ENDCMP` |
| Records.DescRoundTrip | kicadLibPop.py:315-323 | name and description can be read back from the record |
| Attributes.EscapeQuotesSafe | kicadLibPop.py:524-525 | after escaping, every quote is preceded by a backslash |
| Attributes.EscapeRoundTrip | kicadLibPop.py:524-525 | unescaping the escaped value gives the original |
| Attributes.GetProdDetails | kicadLibPop.py:497-506 | the loop stores each trimmed header with its trimmed value, a later row overwriting an earlier one |
| Attributes.DetailsKeys | kicadLibPop.py:497-506 | the keys afterwards are the old keys plus every trimmed header |
| Attributes.DetailsUntouched | kicadLibPop.py:497-506 | a key no row names keeps its value |
| Attributes.DetailsLastWins | kicadLibPop.py:497-506 | a header holds the value of its last row |
| Attributes.AttrStep | kicadLibPop.py:513-532 | one row fails exactly when it is a non-title row without a header and no field was seen yet, and that failure is the unbound `field` error |
| Attributes.AttrScanErrStays | kicadLibPop.py:513-532 | once a row fails, the whole table fails the same way |
| Attributes.GetProdAttrs | kicadLibPop.py:509-534 | the loop computes the scan: title rows skipped, headed rows stored escaped, a headerless row appended to the last field with ` - ` |
| Attributes.AttrScanOutcome | kicadLibPop.py:513-532 | the scan fails exactly when the first non-title row has no header; the last field is unset exactly when every row is a title |
| Attributes.AttrScanKeys | kicadLibPop.py:513-532 | the keys afterwards are the old keys plus the trimmed headers of the non-title rows |
| Attributes.AttrScanQuoteSafe | kicadLibPop.py:521-532 | with quote-safe values before, all values after the scan are quote-safe |
| Attributes.ContinuationMerges | kicadLibPop.py:528-532 | a headed row followed by a headerless row stores `first - second` under the header |
| Attributes.RemoveAttrs | kicadLibPop.py:537-542 | the keys are the old keys minus the ignored fields, with every value unchanged |
| Attributes.PartAttrs | kicadLibPop.py:488-494 | the part's attributes fail exactly when the attribute table starts with a continuation row, with the unbound `field` error; on success they are exactly the scanned attributes except the ignored fields, each with its scanned value |
| Attributes.MakeProdAttrs | kicadLibPop.py:488-494 | the method computes details, then attributes, then removal, giving exactly `PartAttrs` |
| Library.WriteFile | kicadLibPop.py:553-560 | the text is every item of every part followed by a newline, in order |
| Library.FileTextAppend | kicadLibPop.py:553-560 | writing two part lists is writing one then the other |
| Library.WriteToLibFile | kicadLibPop.py:563-569 | the parts are the stripped old contents, the new parts and the closing lines; the text is what `writeFile` writes for them |
| Library.WriteToDescFile | kicadLibPop.py:571-577 | the same for the description file and its closing lines |
| Library.SpliceText | kicadLibPop.py:563-577 | the written text is the stripped contents, a newline, the parts' text, and the closing lines once at the end |
| Library.SpliceAccumulates | kicadLibPop.py:563-577 | for any old contents, splicing more parts into a file the splice wrote equals one splice with all the parts: earlier records survive and the closing lines stay single |
| Library.SpliceIgnoresTail | kicadLibPop.py:564 | the splice strips the old contents itself, so contents already stripped splice the same |
| Library.SentinelsHoldNewline | kicadLibPop.py:564-573 | both closing texts contain a newline, so the strip also eats the newline after the last record |
| Populator.Step | kicadLibPop.py:582-641 | an aborted step adds no record to any family; otherwise only the part's own family changes |
| Populator.Admit | kicadLibPop.py:592-608 | the part's family is the only one that changes, and an abort appends nothing |
| Populator.StepKeepsValid | kicadLibPop.py:582-641 | a step keeps every buffer consistent: loaded contents are the disk files, parts and descriptions in lockstep, each record closed |
| Populator.LoadKeepsValid | kicadLibPop.py:593-596 | reading a family's files lazily keeps the buffers consistent |
| Populator.StepAdded | kicadLibPop.py:592-608 | an added part had neither its number nor its symbol name in the library file, and exactly its record and description were appended |
| Populator.StepSkipped | kicadLibPop.py:598-604 | a known part number skips the part, else a known symbol name does, and a skipped part appends nothing |
| Populator.AdmitAddedChecks | kicadLibPop.py:598-606 | an added part had neither its number nor its symbol name in the library file, and had a description |
| Populator.AdmitAdds | kicadLibPop.py:598-608 | a part that passes both checks and has a description is added, with its record appended after the queued ones |
| Populator.StepNew | kicadLibPop.py:592-608 | a classified part whose number and symbol name are both absent from the library file is added when it has a description, and aborts the run when it has none |
| Populator.SameNameNotCaught | kicadLibPop.py:598-608 | the checks read only the file as loaded, so two parts of one run with the same symbol name but different part numbers are both added, under the same header |
| Populator.UnsupportedAborts | kicadLibPop.py:477-479 | an unsupported category ends the run without touching any buffer |
| Populator.StepErrorAborts | kicadLibPop.py:582-589 | an attribute table that cannot be read, or fixed fields that cannot be built, abort the run with that error and leave every buffer as it was |
| Populator.Populator.ProcessPart | kicadLibPop.py:582-641 | one loop iteration: status and new buffers are those of `Step`, and the buffers stay consistent |
| Populator.Populator.FinishFamily | kicadLibPop.py:643-651 | a family with new parts gets its spliced library and description texts; one without gets no write |
| Populator.Populator.Finish | kicadLibPop.py:643-651 | the final writes of all three families |
| Populator.Run | kicadLibPop.py:582-651 | the whole script: the outputs of the fold over all pages, or the error that stopped it |
| Populator.RunErrStays | kicadLibPop.py:582-641 | once a part aborts, the run's result is that error |
| Populator.RunValid | kicadLibPop.py:582-641 | the buffers after any prefix of the run are consistent |
| Populator.OutputText | kicadLibPop.py:643-651 | a family is written exactly when it has new parts, and its texts are the stripped old contents, the new records and the closing lines |
| Populator.RerunKeepsParts | kicadLibPop.py:643-651 | running again on the written library file with more parts gives the file one run with all parts would give |
| Populator.RerunKeepsDescs | kicadLibPop.py:643-651 | the same for the description file |
| Populator.AbortWritesNothing | kicadLibPop.py:582-651 | a part that aborts makes the whole run an error, so no file is written |

## Left out

- Fetching the Digi-Key page (`openUrl`) and parsing its HTML. The model
  starts from the rows of the product-details and attribute tables, each
  as header text, value text and a title-row flag.
- Reading and writing files (`readFile`, `open`/`write`) and
  `os.listdir`. Disk contents and footprint catalogues are parameters, and
  the written texts are results.
- `kicadLibPopConst` is not part of this model. The prefix table
  `siUnitToValDict` and the part-number list are parameters.
- Floating point is left out. Magnitudes are exact decimals, so float
  rounding (`0.0047 * 1000`) and the exponent notation `str()` uses for very
  small or large floats are not modelled.
- `getSiUnit` compares floats with `==` (`unitValue*1e-3`). The model
  compares exact powers of ten, so a float product that misses the table
  entry is not modelled.
- Units.PrefixAt: `isdigit()` is modelled for ASCII digits only.
- Decimals.KeepNumeric: Python 3's `\d` and `float()` also accept
  non-ASCII decimal digits; the model keeps and reads ASCII digits only.
- The duplicate removal `partNums = list(set(partNums))` (line 137): the
  part-number list is a parameter, taken as already free of repeats and in
  whatever order `set()` gives. The order affects which of two parts with
  the same symbol name reaches the library first.
- The `print` diagnostics (missing footprint, unknown SI value, skipped
  parts) are left out. They have no effect on the files.
- Populator.Admit: when the Description attribute is missing, Python has
  already appended the library record before the KeyError. The model
  aborts before appending. An aborted run writes no file, so the outputs
  are the same.
- The `else: continue` branch of the main loop (lines 639-641) cannot be
  reached, because `makeFixedAttrs` has already called `sys.exit()` for
  those parts. It has no counterpart in the model.
