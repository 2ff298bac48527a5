/** Writing the library files (kicadLibPop.py, writeFile, writeToLibFile,
    writeToDescFile). A file's text is modelled as a string: the method
    computes the text the script writes, the file system is left out. */
module Library {
  import opened Text

  /** The last lines of a `.lib` file and of a `.dcm` file. */
  const LibSentinel: string := "#\n#End Library"
  const DescSentinel: string := "#\n#End Doc Library"

  /** Each item followed by a newline, as `write("%s\n" % item)` does. */
  function LinesText(items: seq<string>): string
    decreases |items|
  {
    if items == [] then "" else LinesText(items[..|items| - 1]) + items[|items| - 1] + "\n"
  }

  /** The text of a list of parts, each part a list of items. */
  function FileText(data: seq<seq<string>>): string
    decreases |data|
  {
    if data == [] then "" else FileText(data[..|data| - 1]) + LinesText(data[|data| - 1])
  }

  lemma LinesTextStep(items: seq<string>, j: nat)
    requires j < |items|
    ensures LinesText(items[..j + 1]) == LinesText(items[..j]) + items[j] + "\n"
  {
    assert items[..j + 1][..j] == items[..j];
  }

  lemma FileTextStep(data: seq<seq<string>>, i: nat)
    requires i < |data|
    ensures FileText(data[..i + 1]) == FileText(data[..i]) + LinesText(data[i])
  {
    assert data[..i + 1][..i] == data[..i];
  }

  /** writeFile: every item of every part on a line of its own. */
  method WriteFile(data: seq<seq<string>>) returns (text: string)
    ensures text == FileText(data)
  {
    text := "";
    var i := 0;
    while i < |data|
      invariant 0 <= i <= |data|
      invariant text == FileText(data[..i])
    {
      var part := data[i];
      ghost var before := text;
      var j := 0;
      while j < |part|
        invariant 0 <= j <= |part|
        invariant text == before + LinesText(part[..j])
      {
        LinesTextStep(part, j);
        text := text + part[j] + "\n";
        j := j + 1;
      }
      assert part[..j] == part;
      FileTextStep(data, i);
      i := i + 1;
    }
    assert data[..i] == data;
  }

  /** The text of two lists of parts written one after the other. */
  lemma {:induction false} FileTextAppend(a: seq<seq<string>>, b: seq<seq<string>>)
    ensures FileText(a + b) == FileText(a) + FileText(b)
    decreases |b|
  {
    if b == [] {
      assert a + b == a;
    } else {
      var n := |b| - 1;
      assert (a + b)[..|a + b| - 1] == a + b[..n];
      assert (a + b)[|a + b| - 1] == b[n];
      FileTextAppend(a, b[..n]);
      ConcatAssoc(FileText(a), FileText(b[..n]), LinesText(b[n]));
    }
  }

  /** `[[contents.rstrip(sentinel)]] + parts + [[sentinel]]`: the old
      contents without the closing lines (rstrip takes the sentinel as a
      set of characters), the new parts, and the closing lines again. */
  function Splice(contents: string, parts: seq<seq<string>>, sentinel: string): (r: seq<seq<string>>)
    ensures |r| == |parts| + 2 && r[1..|r| - 1] == parts
  {
    [[StripRight(contents, CharSet(sentinel))]] + parts + [[sentinel]]
  }

  /** writeToLibFile: the parts and the text written to the `.lib` file. */
  method WriteToLibFile(contents: string, parts: seq<seq<string>>) returns (data: seq<seq<string>>, text: string)
    ensures data == Splice(contents, parts, LibSentinel)
    ensures text == FileText(data)
  {
    data := [[StripRight(contents, CharSet(LibSentinel))]] + parts;
    data := data + [[LibSentinel]];
    text := WriteFile(data);
  }

  /** writeToDescFile: the same for the `.dcm` file and its sentinel. */
  method WriteToDescFile(contents: string, parts: seq<seq<string>>) returns (data: seq<seq<string>>, text: string)
    ensures data == Splice(contents, parts, DescSentinel)
    ensures text == FileText(data)
  {
    data := [[StripRight(contents, CharSet(DescSentinel))]] + parts;
    data := data + [[DescSentinel]];
    text := WriteFile(data);
  }

  lemma SingleLineText(x: string)
    ensures FileText([[x]]) == x + "\n"
  {
    assert [[x]][..0] == [];
    assert [x][..0] == [];
    assert LinesText([x]) == "" + x + "\n";
  }

  /** The written text: the stripped old contents, the new parts, and the
      sentinel once at the very end. */
  lemma SpliceText(contents: string, parts: seq<seq<string>>, sentinel: string)
    ensures FileText(Splice(contents, parts, sentinel))
         == StripRight(contents, CharSet(sentinel)) + "\n" + FileText(parts) + sentinel + "\n"
  {
    var head := [[StripRight(contents, CharSet(sentinel))]];
    var tail := [[sentinel]];
    FileTextAppend(head + parts, tail);
    FileTextAppend(head, parts);
    SingleLineText(StripRight(contents, CharSet(sentinel)));
    SingleLineText(sentinel);
  }

  /** The text of parts ends with their last item and a newline. */
  lemma FileTextLast(parts: seq<seq<string>>)
    requires parts != [] && parts[|parts| - 1] != []
    ensures var last := parts[|parts| - 1];
      FileText(parts) == FileText(parts[..|parts| - 1]) + LinesText(last[..|last| - 1]) + last[|last| - 1] + "\n"
  {
  }

  /** A part list whose last item ends in a character the sentinel's
      strip leaves alone. */
  predicate EndsOutside(parts: seq<seq<string>>, sentinel: string) {
    && parts != []
    && parts[|parts| - 1] != []
    && var last := parts[|parts| - 1][|parts[|parts| - 1]| - 1];
       last != [] && last[|last| - 1] !in CharSet(sentinel)
  }

  /** A newline, the sentinel and a newline are all stripped. */
  lemma SentinelTailStripped(sentinel: string)
    requires '\n' in sentinel
    ensures var tail := "\n" + sentinel + "\n";
      forall i :: 0 <= i < |tail| ==> tail[i] in CharSet(sentinel)
  {
    var tail := "\n" + sentinel + "\n";
    forall i | 0 <= i < |tail| ensures tail[i] in CharSet(sentinel) {
      if 0 < i < |tail| - 1 {
        assert tail[i] == sentinel[i - 1];
      }
    }
  }

  /** Stripping a spliced text removes the sentinel and the newline after
      the last part, and nothing more. */
  lemma SpliceRestrip(body: string, first: seq<seq<string>>, sentinel: string)
    requires '\n' in sentinel
    requires body == [] || body[|body| - 1] !in CharSet(sentinel)
    requires EndsOutside(first, sentinel)
    ensures StripRight(FileText(Splice(body, first, sentinel)), CharSet(sentinel)) + "\n"
         == body + "\n" + FileText(first)
  {
    var chars := CharSet(sentinel);
    StripRightSuffix(body, [], chars);
    assert body + [] == body;
    SpliceText(body, first, sentinel);
    var last := first[|first| - 1];
    var item := last[|last| - 1];
    FileTextLast(first);
    var p := FileText(first[..|first| - 1]) + LinesText(last[..|last| - 1]);
    SpliceShape(body, FileText(first), p, item, sentinel);
    var kept := body + "\n" + p + item;
    LastOfAppend(body + "\n" + p, item);
    SentinelTailStripped(sentinel);
    StripRightSuffix(kept, "\n" + sentinel + "\n", chars);
  }

  lemma SpliceShape(body: string, fp: string, p: string, item: string, s: string)
    requires fp == p + item + "\n"
    ensures body + "\n" + fp + s + "\n" == (body + "\n" + p + item) + ("\n" + s + "\n")
    ensures (body + "\n" + p + item) + "\n" == body + "\n" + fp
  {
  }

  lemma LastOfAppend(a: string, b: string)
    requires b != []
    ensures (a + b)[|a + b| - 1] == b[|b| - 1]
  {
  }

  /** Running the splice on a file the splice wrote, with more parts, gives
      the file that one splice with all the parts would have written: the
      earlier parts survive and the sentinel stays single. */
  lemma SpliceAccumulates(body: string, first: seq<seq<string>>, second: seq<seq<string>>, sentinel: string)
    requires '\n' in sentinel
    requires EndsOutside(first, sentinel)
    ensures FileText(Splice(FileText(Splice(body, first, sentinel)), second, sentinel))
         == FileText(Splice(body, first + second, sentinel))
  {
    var kept := StripRight(body, CharSet(sentinel));
    StripRightSpec(body, CharSet(sentinel));
    SpliceIgnoresTail(body, first, sentinel);
    SpliceIgnoresTail(body, first + second, sentinel);
    SpliceAccumulatesKept(kept, first, second, sentinel);
  }

  /** The splice strips the old text itself, so text already stripped
      splices the same. */
  lemma SpliceIgnoresTail(body: string, parts: seq<seq<string>>, sentinel: string)
    ensures Splice(StripRight(body, CharSet(sentinel)), parts, sentinel) == Splice(body, parts, sentinel)
  {
    StripRightIdempotent(body, CharSet(sentinel));
  }

  lemma SpliceAccumulatesKept(body: string, first: seq<seq<string>>, second: seq<seq<string>>, sentinel: string)
    requires '\n' in sentinel
    requires body == [] || body[|body| - 1] !in CharSet(sentinel)
    requires EndsOutside(first, sentinel)
    ensures FileText(Splice(FileText(Splice(body, first, sentinel)), second, sentinel))
         == FileText(Splice(body, first + second, sentinel))
  {
    var text1 := FileText(Splice(body, first, sentinel));
    var kept := StripRight(text1, CharSet(sentinel));
    SpliceRestrip(body, first, sentinel);
    StripRightSuffix(body, [], CharSet(sentinel));
    assert body + [] == body;
    SpliceText(text1, second, sentinel);
    SpliceText(body, first + second, sentinel);
    FileTextAppend(first, second);
    Regroup(kept + "\n", FileText(second), sentinel);
    Regroup4(body + "\n", FileText(first), FileText(second), sentinel);
  }

  lemma Regroup(x: string, f: string, s: string)
    ensures x + f + s + "\n" == x + (f + s + "\n")
  {
  }

  lemma Regroup4(a: string, b: string, c: string, s: string)
    ensures a + (b + c) + s + "\n" == (a + b) + (c + s + "\n")
  {
  }

  /** Both sentinels hold a newline, so the splice also drops the newline
      the writer put after the last record. */
  lemma SentinelsHoldNewline()
    ensures '\n' in LibSentinel && '\n' in DescSentinel
  {
    assert LibSentinel[1] == '\n';
    assert DescSentinel[1] == '\n';
  }
}
