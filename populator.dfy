/** The library merge driver (kicadLibPop.py, the main script): for every
    part page, build the attributes and the symbol, skip the part when its
    family's library already knows it, otherwise queue its definition and
    its description; at the end splice the queued records into the files
    of each family that got new parts. */
module Populator {
  import opened Wrappers
  import opened Text
  import opened Units
  import opened Symbols
  import opened Records
  import opened Attributes
  import opened Library

  /** What the scraper would find on a part's page. */
  datatype PartPage = PartPage(partNum: string, details: seq<DetailRow>, attributes: seq<AttrRow>)

  /** The text of a family's `.lib` file and `.dcm` file. */
  datatype LibraryFiles = LibraryFiles(lib: string, desc: string)

  /** What the script sees of the outside world: the SI prefix table, each
      family's footprint directory listing and each family's files as they
      are on disk when the run starts. */
  datatype Environment = Environment(
    table: PrefixTable,
    catalogs: PerFamily<seq<string>>,
    disk: PerFamily<LibraryFiles>)

  /** Per family: the files once read (read lazily, at most once), and the
      definitions and descriptions queued so far. */
  datatype Buffer = Buffer(loaded: Option<LibraryFiles>, parts: seq<seq<string>>, descs: seq<seq<string>>)

  const EmptyBuffer: Buffer := Buffer(None, [], [])
  const EmptyBuffers: PerFamily<Buffer> := PerFamily(EmptyBuffer, EmptyBuffer, EmptyBuffer)

  /** What happened to one part. */
  datatype Status =
    | Added(family: Family)
    | KnownPartNumber(family: Family)  // the part number occurs in the library text
    | KnownSymbol(family: Family)      // the symbol name occurs in the library text
    | Aborted(error: Error)            // the script stops; nothing is written

  /** A family's buffer agrees with the disk: the snapshot, once read, is
      the file text; records are queued only after it was read, one
      description per definition, each definition ending in ENDDEF and each
      description in $ENDCMP. */
  predicate BufferValid(b: Buffer, files: LibraryFiles) {
    && (b.loaded.Some? ==> b.loaded.value == files)
    && (b.loaded.None? ==> b.parts == [])
    && |b.parts| == |b.descs|
    && (forall i :: 0 <= i < |b.parts| ==> b.parts[i] != [] && b.parts[i][|b.parts[i]| - 1] == "ENDDEF")
    && (forall i :: 0 <= i < |b.descs| ==> b.descs[i] != [] && b.descs[i][|b.descs[i]| - 1] == "$ENDCMP")
  }

  predicate AllValid(env: Environment, buffers: PerFamily<Buffer>) {
    forall f: Family :: BufferValid(buffers.Get(f), env.disk.Get(f))
  }

  /** One pass of the main loop over one part. */
  function Step(env: Environment, buffers: PerFamily<Buffer>, page: PartPage): (r: (Status, PerFamily<Buffer>))
    ensures r.0.Aborted? ==> forall f :: r.1.Get(f).parts == buffers.Get(f).parts
    ensures !r.0.Aborted? ==> forall g :: g != r.0.family ==> r.1.Get(g) == buffers.Get(g)
  {
    match PartAttrs(page.details, page.attributes)
    case Err(e) => (Aborted(e), buffers)
    case Ok(attrs) =>
      match MakeFixedAttrs(env.table, attrs, env.catalogs)
      case Err(e) => (Aborted(e), buffers)
      case Ok((f, fixed)) => Admit(env, buffers, f, page.partNum, attrs, fixed)
  }

  /** The family-specific half of a step: read the family's files if not
      yet read, skip a known part, otherwise queue its records. */
  function Admit(env: Environment, buffers: PerFamily<Buffer>, f: Family, partNum: string, attrs: Attrs, fixed: FixedAttrs): (r: (Status, PerFamily<Buffer>))
    ensures r.0.Aborted? || r.0.family == f
    ensures r.0.Aborted? ==> r.1.Get(f).parts == buffers.Get(f).parts
    ensures forall g :: g != f ==> r.1.Get(g) == buffers.Get(g)
  {
    var b := buffers.Get(f);
    var snapshot := if b.loaded.Some? then b.loaded.value else env.disk.Get(f);
    var read := b.(loaded := Some(snapshot));
    if Contains(snapshot.lib, partNum) then (KnownPartNumber(f), buffers.Set(f, read))
    else if Contains(snapshot.lib, fixed.value) then (KnownSymbol(f), buffers.Set(f, read))
    else if DescriptionKey !in attrs then (Aborted(MissingField(DescriptionKey)), buffers.Set(f, read))
    else
      var part := LibRecord(attrs, fixed, Config(f), Shape(f));
      var desc := MakeDesc(attrs[DescriptionKey], fixed.value);
      (Added(f), buffers.Set(f, read.(parts := b.parts + [part], descs := b.descs + [desc])))
  }

  /** Reading a family's files keeps the buffers valid. */
  lemma LoadKeepsValid(env: Environment, buffers: PerFamily<Buffer>, f: Family)
    requires AllValid(env, buffers)
    ensures AllValid(env, buffers.Set(f, buffers.Get(f).(loaded := Some(env.disk.Get(f)))))
  {
    var next := buffers.Set(f, buffers.Get(f).(loaded := Some(env.disk.Get(f))));
    forall g: Family ensures BufferValid(next.Get(g), env.disk.Get(g)) {
      assert BufferValid(buffers.Get(g), env.disk.Get(g));
    }
  }

  lemma AdmitKeepsValid(env: Environment, buffers: PerFamily<Buffer>, f: Family, partNum: string, attrs: Attrs, fixed: FixedAttrs)
    requires AllValid(env, buffers)
    ensures AllValid(env, Admit(env, buffers, f, partNum, attrs, fixed).1)
  {
    var b := buffers.Get(f);
    assert BufferValid(b, env.disk.Get(f));
    LoadKeepsValid(env, buffers, f);
    var (status, next) := Admit(env, buffers, f, partNum, attrs, fixed);
    if status.Added? {
      var part := LibRecord(attrs, fixed, Config(f), Shape(f));
      var desc := MakeDesc(attrs[DescriptionKey], fixed.value);
      LibRecordShape(attrs, fixed, Config(f), Shape(f));
      AppendKeepsValid(env, buffers, f, part, desc);
    }
  }

  /** Queuing a definition ending in ENDDEF and a description ending in
      $ENDCMP, after reading the files, keeps the buffers valid. */
  lemma AppendKeepsValid(env: Environment, buffers: PerFamily<Buffer>, f: Family, part: seq<string>, desc: seq<string>)
    requires AllValid(env, buffers)
    requires part != [] && part[|part| - 1] == "ENDDEF"
    requires desc != [] && desc[|desc| - 1] == "$ENDCMP"
    ensures var b := buffers.Get(f);
      AllValid(env, buffers.Set(f, Buffer(Some(env.disk.Get(f)), b.parts + [part], b.descs + [desc])))
  {
    var b := buffers.Get(f);
    assert BufferValid(b, env.disk.Get(f));
    var b' := Buffer(Some(env.disk.Get(f)), b.parts + [part], b.descs + [desc]);
    forall i | 0 <= i < |b'.parts| ensures b'.parts[i] != [] && b'.parts[i][|b'.parts[i]| - 1] == "ENDDEF" {
      if i < |b.parts| {
        assert b'.parts[i] == b.parts[i];
      }
    }
    forall i | 0 <= i < |b'.descs| ensures b'.descs[i] != [] && b'.descs[i][|b'.descs[i]| - 1] == "$ENDCMP" {
      if i < |b.descs| {
        assert b'.descs[i] == b.descs[i];
      }
    }
    var next := buffers.Set(f, b');
    forall g: Family ensures BufferValid(next.Get(g), env.disk.Get(g)) {
      if g != f {
        assert next.Get(g) == buffers.Get(g);
      }
    }
  }

  /** The files a family gets at the end: None when no part was queued. */
  function Output(b: Buffer, files: LibraryFiles): Option<LibraryFiles> {
    if b.parts == [] then None
    else Some(LibraryFiles(FileText(Splice(files.lib, b.parts, LibSentinel)),
                           FileText(Splice(files.desc, b.descs, DescSentinel))))
  }

  function Outputs(env: Environment, buffers: PerFamily<Buffer>): PerFamily<Option<LibraryFiles>> {
    PerFamily(Output(buffers.cap, env.disk.cap), Output(buffers.ind, env.disk.ind), Output(buffers.res, env.disk.res))
  }

  /** The buffers after the first `|pages|` parts, or the error that
      stopped the run. */
  function RunBuffers(env: Environment, pages: seq<PartPage>): Result<PerFamily<Buffer>, Error>
    decreases |pages|
  {
    if pages == [] then Ok(EmptyBuffers)
    else
      var buffers :- RunBuffers(env, pages[..|pages| - 1]);
      var (status, next) := Step(env, buffers, pages[|pages| - 1]);
      if status.Aborted? then Err(status.error) else Ok(next)
  }

  /** What a whole run writes, family by family. */
  function RunOutputs(env: Environment, pages: seq<PartPage>): Result<PerFamily<Option<LibraryFiles>>, Error> {
    var buffers :- RunBuffers(env, pages);
    Ok(Outputs(env, buffers))
  }

  /** The script's state between parts: the per-family variables
      capLibContents/capParts/capDesc and their inductor and resistor
      counterparts. */
  class Populator {
    const env: Environment
    var buffers: PerFamily<Buffer>

    predicate Valid()
      reads this
    {
      AllValid(env, buffers)
    }

    constructor(env: Environment)
      ensures this.env == env && buffers == EmptyBuffers
      ensures Valid()
    {
      this.env := env;
      buffers := EmptyBuffers;
    }

    /** One pass of the main loop. */
    method ProcessPart(page: PartPage) returns (status: Status)
      requires Valid()
      modifies this
      ensures (status, buffers) == Step(env, old(buffers), page)
      ensures Valid()
    {
      StepKeepsValid(env, buffers, page);
      var scanned := MakeProdAttrs(page.details, page.attributes);
      if scanned.Err? {
        return Aborted(scanned.error);
      }
      var attrs := scanned.value;
      var made := MakeFixedAttrs(env.table, attrs, env.catalogs);
      if made.Err? {
        return Aborted(made.error);
      }
      var (f, fixed) := made.value;
      var b := buffers.Get(f);
      if b.loaded.None? {
        b := b.(loaded := Some(env.disk.Get(f)));
        buffers := buffers.Set(f, b);
      }
      var snapshot := b.loaded.value;
      if Contains(snapshot.lib, page.partNum) {
        return KnownPartNumber(f);
      }
      if Contains(snapshot.lib, fixed.value) {
        return KnownSymbol(f);
      }
      if DescriptionKey !in attrs {
        return Aborted(MissingField(DescriptionKey));
      }
      var part := MakeLibPart(attrs, fixed, Config(f), Shape(f));
      var desc := MakeDesc(attrs[DescriptionKey], fixed.value);
      buffers := buffers.Set(f, b.(parts := b.parts + [part], descs := b.descs + [desc]));
      status := Added(f);
    }

    /** The final writes of one family, when it got new parts. */
    method FinishFamily(f: Family) returns (out: Option<LibraryFiles>)
      requires Valid()
      ensures out == Output(buffers.Get(f), env.disk.Get(f))
    {
      var b := buffers.Get(f);
      if b.parts == [] {
        return None;
      }
      var files := b.loaded.value;
      var _, lib := WriteToLibFile(files.lib, b.parts);
      var _, desc := WriteToDescFile(files.desc, b.descs);
      return Some(LibraryFiles(lib, desc));
    }

    /** The three `if not parts == []` blocks at the end of the script. */
    method Finish() returns (out: PerFamily<Option<LibraryFiles>>)
      requires Valid()
      ensures out == Outputs(env, buffers)
    {
      var cap := FinishFamily(Capacitor);
      var ind := FinishFamily(Inductor);
      var res := FinishFamily(Resistor);
      out := PerFamily(cap, ind, res);
    }
  }

  /** Once a part aborts the run, later parts change nothing. */
  lemma {:induction false} RunErrStays(env: Environment, pages: seq<PartPage>, i: nat)
    requires i <= |pages| && RunBuffers(env, pages[..i]).Err?
    ensures RunBuffers(env, pages) == RunBuffers(env, pages[..i])
    decreases |pages| - i
  {
    if i < |pages| {
      assert pages[..i + 1][..i] == pages[..i];
      RunErrStays(env, pages, i + 1);
    } else {
      assert pages[..i] == pages;
    }
  }

  /** One more page extends the run by one step. */
  lemma RunBuffersNext(env: Environment, pages: seq<PartPage>, i: nat, buffers: PerFamily<Buffer>)
    requires i < |pages| && RunBuffers(env, pages[..i]) == Ok(buffers)
    ensures var (status, next) := Step(env, buffers, pages[i]);
      RunBuffers(env, pages[..i + 1]) == if status.Aborted? then Err(status.error) else Ok(next)
  {
    assert pages[..i + 1][..i] == pages[..i];
  }

  /** The whole script: every part page in turn, then the writes. */
  method Run(env: Environment, pages: seq<PartPage>) returns (r: Result<PerFamily<Option<LibraryFiles>>, Error>)
    ensures r == RunOutputs(env, pages)
  {
    var populator := new Populator(env);
    var i := 0;
    while i < |pages|
      invariant 0 <= i <= |pages|
      invariant populator.env == env && populator.Valid()
      invariant RunBuffers(env, pages[..i]) == Ok(populator.buffers)
    {
      ghost var before := populator.buffers;
      var status := populator.ProcessPart(pages[i]);
      RunBuffersNext(env, pages, i, before);
      if status.Aborted? {
        RunErrStays(env, pages, i + 1);
        return Err(status.error);
      }
      i := i + 1;
    }
    assert pages[..i] == pages;
    var out := populator.Finish();
    return Ok(out);
  }

  // -----------------------------------------------------------------------
  // Properties of one step
  // -----------------------------------------------------------------------

  /** A step keeps every family's buffer in agreement with the disk. */
  lemma StepKeepsValid(env: Environment, buffers: PerFamily<Buffer>, page: PartPage)
    requires AllValid(env, buffers)
    ensures AllValid(env, Step(env, buffers, page).1)
  {
    var scanned := PartAttrs(page.details, page.attributes);
    if scanned.Ok? {
      var made := MakeFixedAttrs(env.table, scanned.value, env.catalogs);
      if made.Ok? {
        AdmitKeepsValid(env, buffers, made.value.0, page.partNum, scanned.value, made.value.1);
      }
    }
  }

  /** A part is added only when its family's library text holds neither
      its part number nor its symbol name; the definition and the
      description are queued together, at the end, and the definition is
      the one makeLibPart builds. */
  lemma StepAdded(env: Environment, buffers: PerFamily<Buffer>, page: PartPage)
    requires AllValid(env, buffers)
    requires Step(env, buffers, page).0.Added?
    ensures var f := Step(env, buffers, page).0.family;
      var b := buffers.Get(f);
      var b' := Step(env, buffers, page).1.Get(f);
      var attrs := PartAttrs(page.details, page.attributes).value;
      var fixed := MakeFixedAttrs(env.table, attrs, env.catalogs).value.1;
      && PartAttrs(page.details, page.attributes).Ok?
      && MakeFixedAttrs(env.table, attrs, env.catalogs).Ok?
      && !Contains(env.disk.Get(f).lib, page.partNum)
      && !Contains(env.disk.Get(f).lib, fixed.value)
      && DescriptionKey in attrs
      && b'.loaded == Some(env.disk.Get(f))
      && b'.parts == b.parts + [LibRecord(attrs, fixed, Config(f), Shape(f))]
      && b'.descs == b.descs + [MakeDesc(attrs[DescriptionKey], fixed.value)]
  {
    var f := Step(env, buffers, page).0.family;
    assert BufferValid(buffers.Get(f), env.disk.Get(f));
  }

  /** A part whose number or symbol name the library text already holds
      queues nothing, and a known part number is reported before a known
      symbol name. */
  lemma StepSkipped(env: Environment, buffers: PerFamily<Buffer>, page: PartPage)
    requires AllValid(env, buffers)
    requires PartAttrs(page.details, page.attributes).Ok?
    requires MakeFixedAttrs(env.table, PartAttrs(page.details, page.attributes).value, env.catalogs).Ok?
    ensures var attrs := PartAttrs(page.details, page.attributes).value;
      var (f, fixed) := MakeFixedAttrs(env.table, attrs, env.catalogs).value;
      var (status, next) := Step(env, buffers, page);
      && (Contains(env.disk.Get(f).lib, page.partNum) ==> status == KnownPartNumber(f))
      && (!Contains(env.disk.Get(f).lib, page.partNum) && Contains(env.disk.Get(f).lib, fixed.value) ==>
            status == KnownSymbol(f))
      && (status.KnownPartNumber? || status.KnownSymbol? ==>
            next.Get(f).parts == buffers.Get(f).parts && next.Get(f).descs == buffers.Get(f).descs)
  {
    var attrs := PartAttrs(page.details, page.attributes).value;
    var f := MakeFixedAttrs(env.table, attrs, env.catalogs).value.0;
    assert BufferValid(buffers.Get(f), env.disk.Get(f));
  }

  /** Conversely, a classified part whose family's library text holds
      neither its number nor its symbol name is added when it has a
      description, and aborts the run when it has none. */
  lemma StepNew(env: Environment, buffers: PerFamily<Buffer>, page: PartPage)
    requires AllValid(env, buffers)
    requires PartAttrs(page.details, page.attributes).Ok?
    requires MakeFixedAttrs(env.table, PartAttrs(page.details, page.attributes).value, env.catalogs).Ok?
    ensures var attrs := PartAttrs(page.details, page.attributes).value;
      var (f, fixed) := MakeFixedAttrs(env.table, attrs, env.catalogs).value;
      var lib := env.disk.Get(f).lib;
      && (!Contains(lib, page.partNum) && !Contains(lib, fixed.value) && DescriptionKey in attrs ==>
            Step(env, buffers, page).0 == Added(f))
      && (!Contains(lib, page.partNum) && !Contains(lib, fixed.value) && DescriptionKey !in attrs ==>
            Step(env, buffers, page).0 == Aborted(MissingField(DescriptionKey)))
  {
    var attrs := PartAttrs(page.details, page.attributes).value;
    var f := MakeFixedAttrs(env.table, attrs, env.catalogs).value.0;
    assert BufferValid(buffers.Get(f), env.disk.Get(f));
  }

  /** Two parts with the same symbol name in one run are both added, even
      though their part numbers differ: once a part is classified, its
      step is `Admit`, whose checks look only at the library text read from
      disk, never at the records queued in this run, so the library gets
      two definitions under one name. */
  lemma SameNameNotCaught(env: Environment, buffers: PerFamily<Buffer>, f: Family,
                          firstNum: string, firstAttrs: Attrs, firstFixed: FixedAttrs,
                          secondNum: string, secondAttrs: Attrs, secondFixed: FixedAttrs)
    requires AllValid(env, buffers)
    requires Admit(env, buffers, f, firstNum, firstAttrs, firstFixed).0.Added?
    requires secondFixed.value == firstFixed.value
    requires !Contains(env.disk.Get(f).lib, secondNum) && DescriptionKey in secondAttrs
    ensures var next := Admit(env, buffers, f, firstNum, firstAttrs, firstFixed).1;
      var n := |buffers.Get(f).parts|;
      var (status, last) := Admit(env, next, f, secondNum, secondAttrs, secondFixed);
      && status == Added(f)
      && |last.Get(f).parts| == n + 2
      && last.Get(f).parts[n][0] == last.Get(f).parts[n + 1][0] == Header(firstFixed.value)
  {
    AdmitAddedChecks(env, buffers, f, firstNum, firstAttrs, firstFixed);
    AdmitAdds(env, buffers, f, firstNum, firstAttrs, firstFixed);
    AdmitKeepsValid(env, buffers, f, firstNum, firstAttrs, firstFixed);
    var next := Admit(env, buffers, f, firstNum, firstAttrs, firstFixed).1;
    AdmitAdds(env, next, f, secondNum, secondAttrs, secondFixed);
    LibRecordShape(firstAttrs, firstFixed, Config(f), Shape(f));
    LibRecordShape(secondAttrs, secondFixed, Config(f), Shape(f));
  }

  /** What `Admit` checked before adding a part. */
  lemma AdmitAddedChecks(env: Environment, buffers: PerFamily<Buffer>, f: Family, partNum: string, attrs: Attrs, fixed: FixedAttrs)
    requires AllValid(env, buffers)
    requires Admit(env, buffers, f, partNum, attrs, fixed).0.Added?
    ensures !Contains(env.disk.Get(f).lib, partNum) && !Contains(env.disk.Get(f).lib, fixed.value)
    ensures DescriptionKey in attrs
  {
    assert BufferValid(buffers.Get(f), env.disk.Get(f));
  }

  /** `Admit` adds a part that passes the checks, appending its record. */
  lemma AdmitAdds(env: Environment, buffers: PerFamily<Buffer>, f: Family, partNum: string, attrs: Attrs, fixed: FixedAttrs)
    requires AllValid(env, buffers)
    requires !Contains(env.disk.Get(f).lib, partNum) && !Contains(env.disk.Get(f).lib, fixed.value)
    requires DescriptionKey in attrs
    ensures Admit(env, buffers, f, partNum, attrs, fixed).0 == Added(f)
    ensures Admit(env, buffers, f, partNum, attrs, fixed).1.Get(f).parts
         == buffers.Get(f).parts + [LibRecord(attrs, fixed, Config(f), Shape(f))]
  {
    assert BufferValid(buffers.Get(f), env.disk.Get(f));
  }

  /** A page whose attribute table cannot be read, or whose fixed fields
      cannot be built (a missing field, a value that does not parse, an
      unknown prefix, an unsupported category), aborts the run with that
      error and changes no buffer. */
  lemma StepErrorAborts(env: Environment, buffers: PerFamily<Buffer>, page: PartPage)
    ensures PartAttrs(page.details, page.attributes).Err? ==>
              Step(env, buffers, page) == (Aborted(PartAttrs(page.details, page.attributes).error), buffers)
    ensures PartAttrs(page.details, page.attributes).Ok? ==>
              var made := MakeFixedAttrs(env.table, PartAttrs(page.details, page.attributes).value, env.catalogs);
              made.Err? ==> Step(env, buffers, page) == (Aborted(made.error), buffers)
  {
  }

  /** A page that does not classify aborts the run, as the script's exit. */
  lemma UnsupportedAborts(env: Environment, buffers: PerFamily<Buffer>, page: PartPage)
    requires PartAttrs(page.details, page.attributes).Ok?
    requires var attrs := PartAttrs(page.details, page.attributes).value;
      "Categories" in attrs && Classify(attrs["Categories"]).None?
    ensures Step(env, buffers, page) == (Aborted(UnsupportedCategory), buffers)
  {
  }

  // -----------------------------------------------------------------------
  // Properties of a run
  // -----------------------------------------------------------------------

  /** Every state a run reaches agrees with the disk. */
  lemma {:induction false} RunValid(env: Environment, pages: seq<PartPage>)
    ensures RunBuffers(env, pages).Ok? ==> AllValid(env, RunBuffers(env, pages).value)
    decreases |pages|
  {
    if pages != [] {
      RunValid(env, pages[..|pages| - 1]);
      var prev := RunBuffers(env, pages[..|pages| - 1]);
      if prev.Ok? {
        StepKeepsValid(env, prev.value, pages[|pages| - 1]);
      }
    }
  }

  /** A family's written library: its text on disk without the closing
      lines, a newline, the queued definitions, and the closing lines once;
      the description file likewise. A family with nothing queued is not
      written. */
  lemma OutputText(env: Environment, buffers: PerFamily<Buffer>, f: Family)
    requires AllValid(env, buffers)
    ensures var b := buffers.Get(f);
      var files := env.disk.Get(f);
      var out := Outputs(env, buffers).Get(f);
      && (out.None? <==> b.parts == [])
      && (out.Some? ==>
            && out.value.lib == StripRight(files.lib, CharSet(LibSentinel)) + "\n" + FileText(b.parts) + LibSentinel + "\n"
            && out.value.desc == StripRight(files.desc, CharSet(DescSentinel)) + "\n" + FileText(b.descs) + DescSentinel + "\n")
  {
    var b := buffers.Get(f);
    var files := env.disk.Get(f);
    assert Outputs(env, buffers).Get(f) == Output(b, files);
    SpliceText(files.lib, b.parts, LibSentinel);
    SpliceText(files.desc, b.descs, DescSentinel);
  }

  lemma EnddefOutsideLibSentinel()
    ensures 'F' !in CharSet(LibSentinel)
  {
    assert forall i :: 0 <= i < |LibSentinel| ==> LibSentinel[i] != 'F';
  }

  lemma EndcmpOutsideDescSentinel()
    ensures 'P' !in CharSet(DescSentinel)
  {
    assert forall i :: 0 <= i < |DescSentinel| ==> DescSentinel[i] != 'P';
  }

  /** A file spliced from records that end in a character outside the
      sentinel can be spliced again without losing them. */
  lemma SpliceAgain(body: string, parts: seq<seq<string>>, more: seq<seq<string>>, sentinel: string, last: string, c: char)
    requires '\n' in sentinel && c !in CharSet(sentinel)
    requires parts != [] && parts[|parts| - 1] != [] && parts[|parts| - 1][|parts[|parts| - 1]| - 1] == last
    requires last != [] && last[|last| - 1] == c
    ensures FileText(Splice(FileText(Splice(body, parts, sentinel)), more, sentinel))
         == FileText(Splice(body, parts + more, sentinel))
  {
    assert EndsOutside(parts, sentinel);
    SpliceAccumulates(body, parts, more, sentinel);
  }

  /** Running the script again on the `.lib` file it wrote, with more
      definitions, leaves the definitions of the first run in place before
      the new ones, and the closing lines once at the end. */
  lemma RerunKeepsParts(env: Environment, buffers: PerFamily<Buffer>, f: Family, more: seq<seq<string>>)
    requires AllValid(env, buffers)
    requires buffers.Get(f).parts != []
    ensures var b := buffers.Get(f);
      var lib := env.disk.Get(f).lib;
      && Outputs(env, buffers).Get(f).Some?
      && FileText(Splice(Outputs(env, buffers).Get(f).value.lib, more, LibSentinel))
         == FileText(Splice(lib, b.parts + more, LibSentinel))
  {
    var b := buffers.Get(f);
    var files := env.disk.Get(f);
    assert Outputs(env, buffers).Get(f) == Output(b, files);
    assert BufferValid(b, files);
    SentinelsHoldNewline();
    EnddefOutsideLibSentinel();
    SpliceAgain(files.lib, b.parts, more, LibSentinel, "ENDDEF", 'F');
  }

  /** The same for the `.dcm` file and its descriptions. */
  lemma RerunKeepsDescs(env: Environment, buffers: PerFamily<Buffer>, f: Family, more: seq<seq<string>>)
    requires AllValid(env, buffers)
    requires buffers.Get(f).parts != []
    ensures var b := buffers.Get(f);
      var desc := env.disk.Get(f).desc;
      && Outputs(env, buffers).Get(f).Some?
      && FileText(Splice(Outputs(env, buffers).Get(f).value.desc, more, DescSentinel))
         == FileText(Splice(desc, b.descs + more, DescSentinel))
  {
    var b := buffers.Get(f);
    var files := env.disk.Get(f);
    assert Outputs(env, buffers).Get(f) == Output(b, files);
    assert BufferValid(b, files);
    SentinelsHoldNewline();
    EndcmpOutsideDescSentinel();
    SpliceAgain(files.desc, b.descs, more, DescSentinel, "$ENDCMP", 'P');
  }

  /** A run that aborts writes nothing. */
  lemma AbortWritesNothing(env: Environment, pages: seq<PartPage>, i: nat)
    requires i < |pages|
    requires RunBuffers(env, pages[..i]).Ok?
    requires Step(env, RunBuffers(env, pages[..i]).value, pages[i]).0.Aborted?
    ensures RunOutputs(env, pages).Err?
  {
    assert pages[..i + 1][..i] == pages[..i];
    RunErrStays(env, pages, i + 1);
  }
}
