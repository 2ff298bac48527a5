/** The Python string operations the populator relies on, on `seq<char>`. */
module Text {

  predicate IsDigit(c: char) {
    '0' <= c <= '9'
  }

  predicate AllDigits(s: string) {
    forall i :: 0 <= i < |s| ==> IsDigit(s[i])
  }

  /** Python's `sub in s`: `sub` occurs in `s` as a contiguous run. */
  predicate Contains(s: string, sub: string)
    decreases |s|
  {
    sub <= s || (s != [] && Contains(s[1..], sub))
  }

  /** The characters of `s`, as a set (a `str` passed to `rstrip`). */
  function CharSet(s: string): (r: set<char>)
    ensures forall c :: c in r <==> c in s
  {
    set i | 0 <= i < |s| :: s[i]
  }

  /** Python's `s.replace(c, t)` for a one-character pattern `c`. */
  function ReplaceChar(s: string, c: char, t: string): (r: string)
    ensures c !in s ==> r == s
    ensures c !in t ==> c !in r
    ensures forall x :: x in r ==> (x in s && x != c) || x in t
  {
    if s == [] then []
    else
      assert s == [s[0]] + s[1..];
      (if s[0] == c then t else [s[0]]) + ReplaceChar(s[1..], c, t)
  }

  /** Python's `s.split(sep)[0]`: everything before the first `sep`. */
  function FirstToken(s: string, sep: char): (r: string)
    ensures r <= s && sep !in r
    ensures r == s || s[|r|] == sep
  {
    if s == [] || s[0] == sep then [] else [s[0]] + FirstToken(s[1..], sep)
  }

  /** Python's `s.split(sep)[1]`, defined when `sep` occurs in `s`. */
  function SecondToken(s: string, sep: char): (r: string)
    requires sep in s
    ensures sep !in r
    ensures Contains(s, [sep] + r)
  {
    var head := FirstToken(s, sep);
    assert |head| < |s| by {
      if head == s { assert false; }
    }
    var rest := s[|head| + 1..];
    var r := FirstToken(rest, sep);
    assert ([sep] + r) <= s[|head|..] by {
      assert s[|head|..] == [sep] + rest;
    }
    SuffixContains(s, |head|, [sep] + r);
    r
  }

  lemma {:induction false} SuffixContains(s: string, k: nat, sub: string)
    requires k <= |s| && sub <= s[k..]
    ensures Contains(s, sub)
    decreases k
  {
    if k > 0 {
      assert s[1..][k - 1..] == s[k..];
      SuffixContains(s[1..], k - 1, sub);
    }
  }

  lemma {:induction false} FirstTokenBeforeSep(a: string, sep: char, b: string)
    requires sep !in a
    ensures FirstToken(a + [sep] + b, sep) == a
    decreases |a|
  {
    if a != [] {
      assert (a + [sep] + b)[1..] == a[1..] + [sep] + b;
      FirstTokenBeforeSep(a[1..], sep, b);
    }
  }

  lemma ConcatAssoc(x: string, y: string, z: string)
    ensures x + (y + z) == x + y + z
  {
  }

  /** When the separator occurs, the text is the first token, the
      separator and the rest. */
  lemma FirstTokenSplits(s: string, sep: char)
    requires |FirstToken(s, sep)| < |s|
    ensures s == FirstToken(s, sep) + [sep] + s[|FirstToken(s, sep)| + 1..]
  {
    var r := FirstToken(s, sep);
    assert s == s[..|r|] + [s[|r|]] + s[|r| + 1..];
  }

  /** `sep.join(pieces)`, as `"C_{0}_{1}_{2}_{3}_{4}".format(...)` builds a
      symbol name. */
  function Join(pieces: seq<string>, sep: char): string
  {
    if |pieces| == 0 then ""
    else if |pieces| == 1 then pieces[0]
    else pieces[0] + [sep] + Join(pieces[1..], sep)
  }

  /** Python's `s.split(sep)`. */
  function Split(s: string, sep: char): (r: seq<string>)
    ensures |r| >= 1
    decreases |s|
  {
    var head := FirstToken(s, sep);
    if |head| == |s| then [s] else [head] + Split(s[|head| + 1..], sep)
  }

  /** Splitting a join gives the pieces back when no piece holds the
      separator. */
  lemma {:induction false} SplitJoin(pieces: seq<string>, sep: char)
    requires |pieces| >= 1
    requires forall i :: 0 <= i < |pieces| ==> sep !in pieces[i]
    ensures Split(Join(pieces, sep), sep) == pieces
    decreases |pieces|
  {
    if |pieces| > 1 {
      var rest := Join(pieces[1..], sep);
      var s := pieces[0] + [sep] + rest;
      FirstTokenBeforeSep(pieces[0], sep, rest);
      assert s[|pieces[0]| + 1..] == rest;
      SplitJoin(pieces[1..], sep);
      assert pieces == [pieces[0]] + pieces[1..];
    }
  }

  /** Python's `s.rstrip(chars)`: drop every trailing character that is in
      the set `chars` (a character set, not a suffix). */
  function StripRight(s: string, chars: set<char>): (r: string)
    ensures |r| <= |s|
  {
    if s == [] || s[|s| - 1] !in chars then s else StripRight(s[..|s| - 1], chars)
  }

  /** Python's `s.lstrip(chars)`. */
  function StripLeft(s: string, chars: set<char>): (r: string)
    ensures |r| <= |s|
  {
    if s == [] || s[0] !in chars then s else StripLeft(s[1..], chars)
  }

  /** `rstrip` keeps a prefix that does not end in `chars` and drops only
      characters of `chars`. */
  lemma {:induction false} StripRightSpec(s: string, chars: set<char>)
    ensures var r := StripRight(s, chars);
      && r <= s
      && (r == [] || r[|r| - 1] !in chars)
      && forall i :: |r| <= i < |s| ==> s[i] in chars
    decreases |s|
  {
    if s != [] && s[|s| - 1] in chars {
      StripRightSpec(s[..|s| - 1], chars);
    }
  }

  /** `lstrip` keeps a suffix that does not start with `chars` and drops
      only characters of `chars`. */
  lemma {:induction false} StripLeftSpec(s: string, chars: set<char>)
    ensures var r := StripLeft(s, chars);
      && r == s[|s| - |r|..]
      && (r == [] || r[0] !in chars)
      && forall i :: 0 <= i < |s| - |r| ==> s[i] in chars
    decreases |s|
  {
    if s != [] && s[0] in chars {
      StripLeftSpec(s[1..], chars);
    }
  }

  /** Stripping a suffix made only of `chars` off a text that does not
      end in `chars` gives the text back. */
  lemma {:induction false} StripRightSuffix(body: string, tail: string, chars: set<char>)
    requires body == [] || body[|body| - 1] !in chars
    requires forall i :: 0 <= i < |tail| ==> tail[i] in chars
    ensures StripRight(body + tail, chars) == body
    decreases |tail|
  {
    if tail == [] {
      assert body + tail == body;
    } else {
      var shorter := tail[..|tail| - 1];
      assert (body + tail)[..|body + tail| - 1] == body + shorter;
      StripRightSuffix(body, shorter, chars);
    }
  }

  /** Stripping twice strips nothing more. */
  lemma StripRightIdempotent(s: string, chars: set<char>)
    ensures StripRight(StripRight(s, chars), chars) == StripRight(s, chars)
  {
    var r := StripRight(s, chars);
    StripRightSpec(s, chars);
    StripRightSuffix(r, [], chars);
    assert r + [] == r;
  }

  /** The whitespace set `" \r\n "` the scraper strips from table cells. */
  const CellWhitespace: set<char> := {' ', '\r', '\n'}

  /** `s.rstrip(" \r\n ").lstrip(" \r\n ")`. */
  function Trim(s: string): string {
    StripLeft(StripRight(s, CellWhitespace), CellWhitespace)
  }

  /** A trimmed text neither starts nor ends with cell whitespace, and it
      is a run of the original text. */
  lemma TrimSpec(s: string)
    ensures var r := Trim(s);
      && (r == [] || (r[0] !in CellWhitespace && r[|r| - 1] !in CellWhitespace))
      && Contains(s, r)
  {
    var m := StripRight(s, CellWhitespace);
    StripRightSpec(s, CellWhitespace);
    StripLeftSpec(m, CellWhitespace);
    var r := Trim(s);
    if r != [] {
      assert r[|r| - 1] == m[|m| - 1];
    }
    assert r <= s[|m| - |r|..] by {
      assert s[|m| - |r|..][..|r|] == m[|m| - |r|..];
    }
    SuffixContains(s, |m| - |r|, r);
  }

  /** Python's ordering of `str` values: code point by code point, a proper
      prefix first. */
  predicate StrLess(a: string, b: string)
    decreases |a|
  {
    if a == [] then b != []
    else if b == [] then false
    else if a[0] != b[0] then a[0] < b[0]
    else StrLess(a[1..], b[1..])
  }

  lemma {:induction false} StrLessIrreflexive(a: string)
    ensures !StrLess(a, a)
    decreases |a|
  {
    if a != [] {
      StrLessIrreflexive(a[1..]);
    }
  }

  lemma {:induction false} StrLessTransitive(a: string, b: string, c: string)
    requires StrLess(a, b) && StrLess(b, c)
    ensures StrLess(a, c)
    decreases |a|
  {
    if a != [] && b != [] && c != [] && a[0] == b[0] && b[0] == c[0] {
      StrLessTransitive(a[1..], b[1..], c[1..]);
    }
  }

  lemma {:induction false} StrLessTotal(a: string, b: string)
    ensures a == b || StrLess(a, b) || StrLess(b, a)
    decreases |a|
  {
    if a != [] && b != [] && a[0] == b[0] {
      StrLessTotal(a[1..], b[1..]);
      if a[1..] == b[1..] {
        assert a == [a[0]] + a[1..] && b == [b[0]] + b[1..];
      }
    }
  }

  lemma StrLessAsymmetric(a: string, b: string)
    ensures !(StrLess(a, b) && StrLess(b, a))
  {
    if StrLess(a, b) && StrLess(b, a) {
      StrLessTransitive(a, b, a);
      StrLessIrreflexive(a);
    }
  }

  function DigitChar(n: nat): (c: char)
    requires n < 10
    ensures IsDigit(c)
  {
    ('0' as int + n) as char
  }

  /** Python's `str(n)` for a non-negative integer. */
  function NatToString(n: nat): (r: string)
    ensures |r| >= 1 && AllDigits(r)
    ensures |r| > 1 ==> r[0] != '0'
  {
    if n < 10 then [DigitChar(n)] else NatToString(n / 10) + [DigitChar(n % 10)]
  }

  /** Python's `str(i)` for an integer. */
  function IntToString(i: int): (r: string)
    ensures i < 0 <==> (r != [] && r[0] == '-')
  {
    if i < 0 then "-" + NatToString(-i) else NatToString(i)
  }
}
