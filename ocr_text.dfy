/** The text side of custom_libs/compare_images.py: `extract_clean_text`
    over the string Tesseract returned, and the split of `difflib.ndiff`
    output lines into removed and added text. */
module OcrText {

  // ---------------------------------------------------------------------------
  // Python's character classes

  /** `str.isspace`, which is also what `\s` matches in a `str` pattern. */
  predicate IsSpace(c: char) {
    || ('\U{0009}' <= c <= '\U{000D}') || ('\U{001C}' <= c <= '\U{001F}') || c == ' '
    || c == '\U{0085}' || c == '\U{00A0}' || c == '\U{1680}' || ('\U{2000}' <= c <= '\U{200A}')
    || c == '\U{2028}' || c == '\U{2029}' || c == '\U{202F}' || c == '\U{205F}' || c == '\U{3000}'
  }

  /** The line boundaries of `str.splitlines`. */
  predicate IsLineBreak(c: char) {
    || c == '\n' || c == '\r' || c == '\U{000B}' || c == '\U{000C}'
    || c == '\U{001C}' || c == '\U{001D}' || c == '\U{001E}'
    || c == '\U{0085}' || c == '\U{2028}' || c == '\U{2029}'
  }

  lemma LineBreakIsSpace(c: char)
    ensures IsLineBreak(c) ==> IsSpace(c)
  {
  }

  /** `[A-Za-z0-9]`. */
  predicate IsAsciiAlnum(c: char) {
    ('A' <= c <= 'Z') || ('a' <= c <= 'z') || ('0' <= c <= '9')
  }

  /** What `re.sub(r'[^A-Za-z0-9\s]', '', _)` keeps. */
  predicate Allowed(c: char) {
    IsAsciiAlnum(c) || IsSpace(c)
  }

  // ---------------------------------------------------------------------------
  // str.splitlines

  /** A string with no line boundary in it. */
  predicate NoBreak(l: string) {
    forall i :: 0 <= i < |l| ==> !IsLineBreak(l[i])
  }

  /** Index of the first line boundary in `s`, or `|s|`. */
  function LineEnd(s: string): (k: nat)
    ensures k <= |s|
    ensures NoBreak(s[..k])
    ensures k < |s| ==> IsLineBreak(s[k])
  {
    if s == [] || IsLineBreak(s[0]) then 0
    else
      var k := 1 + LineEnd(s[1..]);
      assert forall i :: 1 <= i < k ==> s[..k][i] == s[1..][..k - 1][i - 1];
      k
  }

  /** Where the next line starts after the boundary at `k`: "\r\n" is one boundary. */
  function NextLine(s: string, k: nat): (n: nat)
    requires k < |s|
    ensures k < n <= |s|
  {
    if s[k] == '\r' && k + 1 < |s| && s[k + 1] == '\n' then k + 2 else k + 1
  }

  function SplitLines(s: string): (lines: seq<string>)
    ensures |lines| <= |s|
    ensures forall k :: 0 <= k < |lines| ==> NoBreak(lines[k])
    decreases |s|
  {
    if s == [] then []
    else
      var k := LineEnd(s);
      if k == |s| then [s]
      else [s[..k]] + SplitLines(s[NextLine(s, k)..])
  }

  /** The first line boundary of `s` is the one at `j` when `s[..j]` has none. */
  lemma LineEndAt(s: string, j: nat)
    requires j < |s| && NoBreak(s[..j]) && IsLineBreak(s[j])
    ensures LineEnd(s) == j
  {
    var k := LineEnd(s);
    assert forall i :: 0 <= i < j ==> !IsLineBreak(s[i]) by {
      assert forall i :: 0 <= i < j ==> s[..j][i] == s[i];
    }
    assert forall i :: 0 <= i < k ==> !IsLineBreak(s[i]) by {
      assert forall i :: 0 <= i < k ==> s[..k][i] == s[i];
    }
  }

  /** A non-empty text without a boundary is one line. */
  lemma SplitLinesOfLine(l: string)
    requires l != [] && NoBreak(l)
    ensures SplitLines(l) == [l]
  {
    assert LineEnd(l) == |l|;
  }

  /** A line ends at the first boundary, and a one-character boundary
      (any boundary except a "\r" that a "\n" follows) starts the next line. */
  lemma SplitLinesAtBreak(l: string, b: char, r: string)
    requires NoBreak(l) && IsLineBreak(b)
    requires !(b == '\r' && r != [] && r[0] == '\n')
    ensures SplitLines(l + [b] + r) == [l] + SplitLines(r)
  {
    var s := l + [b] + r;
    assert s[..|l|] == l;
    assert s[|l|] == b;
    LineEndAt(s, |l|);
    assert NextLine(s, |l|) == |l| + 1;
    assert s[|l| + 1..] == r;
  }

  /** "\r\n" is a single boundary: it ends one line and starts the next. */
  lemma SplitLinesAtCrLf(l: string, r: string)
    requires NoBreak(l)
    ensures SplitLines(l + "\r\n" + r) == [l] + SplitLines(r)
  {
    var s := l + "\r\n" + r;
    assert s[..|l|] == l;
    assert s[|l|] == '\r' && s[|l| + 1] == '\n';
    LineEndAt(s, |l|);
    assert NextLine(s, |l|) == |l| + 2;
    assert s[|l| + 2..] == r;
  }

  /** The characters of `s` that are not line boundaries, in order. */
  function NonBreaks(s: string): string {
    if s == [] then [] else (if IsLineBreak(s[0]) then [] else [s[0]]) + NonBreaks(s[1..])
  }

  function Concat(lines: seq<string>): string {
    if lines == [] then [] else lines[0] + Concat(lines[1..])
  }

  lemma {:induction false} NonBreaksAppend(a: string, b: string)
    ensures NonBreaks(a + b) == NonBreaks(a) + NonBreaks(b)
    decreases |a|
  {
    if a == [] {
      assert a + b == b;
    } else {
      assert (a + b)[1..] == a[1..] + b;
      NonBreaksAppend(a[1..], b);
    }
  }

  lemma {:induction false} NonBreaksOfLine(s: string)
    requires NoBreak(s)
    ensures NonBreaks(s) == s
    decreases |s|
  {
    if s != [] {
      assert NoBreak(s[1..]) by {
        assert forall i :: 0 <= i < |s| - 1 ==> s[1..][i] == s[i + 1];
      }
      NonBreaksOfLine(s[1..]);
    }
  }

  lemma {:induction false} NonBreaksOfBreaks(s: string)
    requires forall i :: 0 <= i < |s| ==> IsLineBreak(s[i])
    ensures NonBreaks(s) == []
    decreases |s|
  {
    if s != [] {
      NonBreaksOfBreaks(s[1..]);
    }
  }

  /** The boundary between two lines, one or two characters long, holds
      no character that survives `NonBreaks`. */
  lemma SeparatorVanishes(s: string, k: nat)
    requires k < |s| && IsLineBreak(s[k])
    ensures NonBreaks(s[k..NextLine(s, k)]) == []
  {
    var sep := s[k..NextLine(s, k)];
    if s[k] == '\r' && k + 1 < |s| && s[k + 1] == '\n' {
      assert |sep| == 2 && sep[0] == s[k] && sep[1] == '\n';
      assert IsLineBreak(sep[1]);
      assert sep[1..] == ['\n'];
      assert NonBreaks(sep[1..]) == NonBreaks(sep[1..][1..]);
    } else {
      assert |sep| == 1 && sep[0] == s[k];
    }
  }

  /** Removing the boundaries of `s[..n]`, where `s[..k]` has none and
      `s[k..n]` is a boundary, leaves `s[..k]`; the rest is handled apart. */
  lemma {:induction false} NonBreaksAround(s: string, k: nat, n: nat)
    requires k <= n <= |s|
    requires NoBreak(s[..k]) && NonBreaks(s[k..n]) == []
    ensures NonBreaks(s) == s[..k] + NonBreaks(s[n..])
  {
    var line, sep, tail := s[..k], s[k..n], s[n..];
    assert s == (line + sep) + tail;
    NonBreaksAppend(line + sep, tail);
    NonBreaksAppend(line, sep);
    NonBreaksOfLine(line);
    assert line + [] == line;
  }

  /** Removing the boundaries of a text keeps its first line, then the
      rest of the text with its boundaries removed. */
  lemma NonBreaksFirstLine(s: string)
    requires LineEnd(s) < |s|
    ensures NonBreaks(s) == s[..LineEnd(s)] + NonBreaks(s[NextLine(s, LineEnd(s))..])
  {
    var k := LineEnd(s);
    SeparatorVanishes(s, k);
    NonBreaksAround(s, k, NextLine(s, k));
  }

  /** Splitting loses exactly the line boundaries: the lines, put back
      together, are the text with its boundary characters removed. */
  lemma {:induction false} SplitLinesLosesOnlyBreaks(s: string)
    ensures Concat(SplitLines(s)) == NonBreaks(s)
    decreases |s|
  {
    if s != [] {
      var k := LineEnd(s);
      if k == |s| {
        assert s[..k] == s;
        NonBreaksOfLine(s);
        assert SplitLines(s) == [s];
        assert Concat([s]) == s + Concat([]);
      } else {
        var tail := s[NextLine(s, k)..];
        var rest := SplitLines(tail);
        assert SplitLines(s) == [s[..k]] + rest;
        assert Concat([s[..k]] + rest) == s[..k] + Concat(rest);
        SplitLinesLosesOnlyBreaks(tail);
        NonBreaksFirstLine(s);
      }
    }
  }

  // ---------------------------------------------------------------------------
  // str.strip and the symbol filter

  function StripLeft(s: string): (r: string)
    ensures |r| <= |s| && r == s[|s| - |r|..]
    ensures forall i :: 0 <= i < |s| - |r| ==> IsSpace(s[i])
    ensures r == [] || !IsSpace(r[0])
    decreases |s|
  {
    if s != [] && IsSpace(s[0]) then StripLeft(s[1..]) else s
  }

  function StripRight(s: string): (r: string)
    ensures |r| <= |s| && r == s[..|r|]
    ensures forall i :: |r| <= i < |s| ==> IsSpace(s[i])
    ensures r == [] || !IsSpace(r[|r| - 1])
    decreases |s|
  {
    if s != [] && IsSpace(s[|s| - 1]) then StripRight(s[..|s| - 1]) else s
  }

  /** `str.strip()`: drops leading and trailing whitespace and nothing else. */
  function Strip(s: string): (r: string)
    ensures r == [] || (!IsSpace(r[0]) && !IsSpace(r[|r| - 1]))
    ensures (forall i :: 0 <= i < |s| ==> IsSpace(s[i])) <==> r == []
  {
    var l := StripLeft(s);
    var r := StripRight(l);
    assert r != [] ==> r[0] == l[0];
    assert r == [] ==> l == [];
    r
  }

  /** Removing surrounding whitespace is the identity on a string that has none. */
  lemma StripUnchanged(s: string)
    requires s == [] || (!IsSpace(s[0]) && !IsSpace(s[|s| - 1]))
    ensures Strip(s) == s
  {
  }

  function RemoveSymbols(s: string): (r: string)
    ensures |r| <= |s|
    ensures forall i :: 0 <= i < |r| ==> Allowed(r[i])
    ensures (forall i :: 0 <= i < |s| ==> Allowed(s[i])) ==> r == s
  {
    if s == [] then [] else (if Allowed(s[0]) then [s[0]] else []) + RemoveSymbols(s[1..])
  }

  /** The substitution works character by character, so it distributes over
      concatenation. */
  lemma {:induction false} RemoveSymbolsAppend(a: string, b: string)
    ensures RemoveSymbols(a + b) == RemoveSymbols(a) + RemoveSymbols(b)
    decreases |a|
  {
    if a == [] {
      assert a + b == b;
    } else {
      assert (a + b)[0] == a[0];
      assert (a + b)[1..] == a[1..] + b;
      RemoveSymbolsAppend(a[1..], b);
    }
  }

  /** A single character is kept exactly when it is allowed. */
  lemma RemoveSymbolsOfChar(c: char)
    ensures RemoveSymbols([c]) == (if Allowed(c) then [c] else [])
  {
    assert [c][1..] == [];
  }

  /** The positions of the allowed characters of `s`: each is allowed,
      they increase, and every allowed position is listed. */
  function AllowedIndices(s: string): (ix: seq<nat>)
    ensures forall k :: 0 <= k < |ix| ==> ix[k] < |s| && Allowed(s[ix[k]])
    ensures forall k, l :: 0 <= k < l < |ix| ==> ix[k] < ix[l]
    ensures forall i :: 0 <= i < |s| && Allowed(s[i]) ==> i in ix
  {
    if s == [] then []
    else
      var n := |s| - 1;
      assert forall i :: 0 <= i < n ==> s[..n][i] == s[i];
      AllowedIndices(s[..n]) + (if Allowed(s[n]) then [n] else [])
  }

  /** The substitution keeps every letter, digit and whitespace character
      of `s`, in order, and nothing else. */
  lemma {:induction false} RemoveSymbolsByIndex(s: string)
    ensures |RemoveSymbols(s)| == |AllowedIndices(s)|
    ensures forall k :: 0 <= k < |RemoveSymbols(s)| ==> RemoveSymbols(s)[k] == s[AllowedIndices(s)[k]]
    decreases |s|
  {
    if s != [] {
      var n := |s| - 1;
      var init := s[..n];
      RemoveSymbolsByIndex(init);
      assert s == init + [s[n]];
      RemoveSymbolsAppend(init, [s[n]]);
      RemoveSymbolsOfChar(s[n]);
      var kept, ix := RemoveSymbols(init), AllowedIndices(init);
      var passes := Allowed(s[n]);
      var r, rx := RemoveSymbols(s), AllowedIndices(s);
      assert r == kept + (if passes then [s[n]] else []);
      assert rx == ix + (if passes then [n] else []);
      forall k | 0 <= k < |r|
        ensures r[k] == s[rx[k]]
      {
        if k < |kept| {
          assert r[k] == kept[k] && rx[k] == ix[k] && ix[k] < n;
          assert init[ix[k]] == s[ix[k]];
        }
      }
    }
  }

  /** A letter or digit is never whitespace. */
  lemma AlnumIsNotSpace(c: char)
    ensures IsAsciiAlnum(c) ==> !IsSpace(c)
  {
  }

  /** A line gives an empty entry exactly when it has no ASCII letter or digit. */
  lemma {:induction false} CleanEmpty(line: string)
    ensures Clean(line) == [] <==> forall i :: 0 <= i < |line| ==> !IsAsciiAlnum(line[i])
  {
    var kept := RemoveSymbols(line);
    var ix := AllowedIndices(line);
    RemoveSymbolsByIndex(line);
    if forall i :: 0 <= i < |line| ==> !IsAsciiAlnum(line[i]) {
      forall k | 0 <= k < |kept|
        ensures IsSpace(kept[k])
      {
        assert kept[k] == line[ix[k]];
      }
    } else {
      var i :| 0 <= i < |line| && IsAsciiAlnum(line[i]);
      assert i in ix;
      var k :| 0 <= k < |ix| && ix[k] == i;
      assert kept[k] == line[i];
      AlnumIsNotSpace(line[i]);
    }
  }

  /** What an entry of `extract_clean_text` looks like: only letters,
      digits and whitespace, and a letter or digit at each end. */
  predicate IsClean(e: string) {
    && (forall i :: 0 <= i < |e| ==> Allowed(e[i]))
    && (e == [] || (IsAsciiAlnum(e[0]) && IsAsciiAlnum(e[|e| - 1])))
  }

  /** One cleaned line: symbols removed, then whitespace stripped. */
  function Clean(line: string): (r: string)
    ensures IsClean(r)
  {
    var kept := RemoveSymbols(line);
    StripGivesClean(kept);
    Strip(kept)
  }

  /** Stripping a string of letters, digits and whitespace leaves only such
      characters, with a letter or digit at each end. */
  lemma StripGivesClean(s: string)
    requires forall i :: 0 <= i < |s| ==> Allowed(s[i])
    ensures IsClean(Strip(s))
  {
    var l := StripLeft(s);
    var r := StripRight(l);
    assert r == Strip(s);
    forall i | 0 <= i < |r|
      ensures Allowed(r[i])
    {
      assert r[i] == l[i];
      assert l[i] == s[|s| - |l| + i];
    }
    if r != [] {
      assert Allowed(r[0]) && !IsSpace(r[0]);
      assert Allowed(r[|r| - 1]) && !IsSpace(r[|r| - 1]);
    }
  }

  /** Cleaning an already cleaned line changes nothing. */
  lemma CleanIdempotent(line: string)
    ensures Clean(Clean(line)) == Clean(line)
  {
    var c := Clean(line);
    assert RemoveSymbols(c) == c;
    StripUnchanged(c);
  }

  // ---------------------------------------------------------------------------
  // extract_clean_text

  /** Whether `line` is nothing but whitespace. */
  predicate AllSpace(line: string) {
    line == [] || (IsSpace(line[0]) && AllSpace(line[1..]))
  }

  /** The comprehension's guard `if line.strip()`. */
  predicate NotBlank(line: string) {
    !AllSpace(line)
  }

  lemma {:induction false} AllSpaceEach(line: string)
    ensures AllSpace(line) <==> forall i :: 0 <= i < |line| ==> IsSpace(line[i])
  {
    if line != [] {
      AllSpaceEach(line[1..]);
      assert forall i :: 1 <= i < |line| ==> line[i] == line[1..][i - 1];
    }
  }

  /** The guard holds exactly when stripping leaves something. */
  lemma NotBlankStrip(line: string)
    ensures NotBlank(line) <==> Strip(line) != []
  {
    AllSpaceEach(line);
  }

  /** The list comprehension over the lines, keeping non-blank ones. */
  function CleanLines(lines: seq<string>): (r: seq<string>)
    ensures |r| <= |lines|
    ensures forall k :: 0 <= k < |r| ==> IsClean(r[k])
  {
    if lines == [] then []
    else
      var init := CleanLines(lines[..|lines| - 1]);
      var last := lines[|lines| - 1];
      init + (if NotBlank(last) then [Clean(last)] else [])
  }

  /** `extract_clean_text` of the recognised text. */
  function ExtractCleanText(text: string): (r: seq<string>)
    ensures forall k :: 0 <= k < |r| ==> IsClean(r[k])
  {
    CleanLines(SplitLines(text))
  }

  /** Indices of the non-blank lines, in increasing order. */
  function NonBlankIndices(lines: seq<string>): (ix: seq<nat>)
    ensures forall k :: 0 <= k < |ix| ==> ix[k] < |lines| && NotBlank(lines[ix[k]])
    ensures forall k, l :: 0 <= k < l < |ix| ==> ix[k] < ix[l]
    ensures forall i :: 0 <= i < |lines| && NotBlank(lines[i]) ==> i in ix
  {
    if lines == [] then []
    else
      var n := |lines| - 1;
      assert forall i :: 0 <= i < n ==> lines[..n][i] == lines[i];
      NonBlankIndices(lines[..n]) + (if NotBlank(lines[n]) then [n] else [])
  }

  /** One entry per non-blank line, in order: entry k is the cleaned k-th
      non-blank line. */
  lemma {:induction false} CleanLinesInOrder(lines: seq<string>)
    ensures |CleanLines(lines)| == |NonBlankIndices(lines)|
    ensures forall k :: 0 <= k < |CleanLines(lines)| ==>
      CleanLines(lines)[k] == Clean(lines[NonBlankIndices(lines)[k]])
  {
    if lines != [] {
      var n := |lines| - 1;
      var init, last := lines[..n], lines[n];
      CleanLinesInOrder(init);
      var cleaned, ix := CleanLines(init), NonBlankIndices(init);
      var keep := NotBlank(last);
      var r, rx := CleanLines(lines), NonBlankIndices(lines);
      assert r == cleaned + (if keep then [Clean(last)] else []);
      assert rx == ix + (if keep then [n] else []);
      forall k | 0 <= k < |r| ensures r[k] == Clean(lines[rx[k]]) {
        if k < |cleaned| {
          assert r[k] == cleaned[k] && rx[k] == ix[k] && ix[k] < n;
          assert init[ix[k]] == lines[ix[k]];
        }
      }
    }
  }

  /** A line of symbols only is not blank before the substitution, so it
      yields an empty entry. */
  lemma SymbolsOnlyGiveEmptyEntry()
    ensures ExtractCleanText("@") == [""]
  {
    var line := "@";
    assert line[1..] == [];
    assert LineEnd(line) == 1;
    assert SplitLines(line) == [line];
    assert !AllSpace(line);
    assert RemoveSymbols(line) == [] + RemoveSymbols([]);
    assert Clean(line) == [];
    assert CleanLines([line]) == CleanLines([]) + [Clean(line)];
  }

  /** A line of whitespace only yields no entry at all. */
  lemma BlankLineGivesNoEntry()
    ensures ExtractCleanText(" ") == []
  {
    var line := " ";
    assert line[1..] == [];
    assert LineEnd(line) == 1;
    assert SplitLines(line) == [line];
    assert AllSpace(line);
    assert CleanLines([line]) == CleanLines([]);
  }

  // ---------------------------------------------------------------------------
  // Classifying ndiff output

  const RemovedTag: string := "- "
  const AddedTag: string := "+ "

  predicate HasTag(line: string, tag: string) {
    |tag| <= |line| && line[..|tag|] == tag
  }

  /** The text after `tag` of every line carrying it, in order. */
  function Tagged(lines: seq<string>, tag: string): (r: seq<string>)
    ensures |r| <= |lines|
  {
    if lines == [] then []
    else
      var last := lines[|lines| - 1];
      Tagged(lines[..|lines| - 1], tag) + (if HasTag(last, tag) then [last[|tag|..]] else [])
  }

  /** The loop over the ndiff lines filling `removed` and `added`. */
  method ClassifyDiff(lines: seq<string>) returns (removed: seq<string>, added: seq<string>)
    ensures removed == Tagged(lines, RemovedTag)
    ensures added == Tagged(lines, AddedTag)
  {
    removed, added := [], [];
    for k := 0 to |lines|
      invariant removed == Tagged(lines[..k], RemovedTag)
      invariant added == Tagged(lines[..k], AddedTag)
    {
      var line := lines[k];
      assert lines[..k + 1][..k] == lines[..k];
      if HasTag(line, RemovedTag) {
        removed := removed + [line[2..]];
      } else if HasTag(line, AddedTag) {
        added := added + [line[2..]];
      }
    }
    assert lines[..|lines|] == lines;
  }

  /** `x` is collected under `tag` exactly when `tag + x` is one of the lines. */
  lemma {:induction false} TaggedMembership(lines: seq<string>, tag: string, x: string)
    ensures x in Tagged(lines, tag) <==> tag + x in lines
  {
    if lines != [] {
      var init, last := lines[..|lines| - 1], lines[|lines| - 1];
      TaggedMembership(init, tag, x);
      assert lines == init + [last];
      if HasTag(last, tag) {
        assert last == tag + last[|tag|..];
        assert (tag + x)[|tag|..] == x;
      }
      if tag + x == last {
        assert last[..|tag|] == tag;
        assert last[|tag|..] == x;
      }
    }
  }

  /** The positions of the lines carrying `tag`, in increasing order. */
  function TaggedIndices(lines: seq<string>, tag: string): (ix: seq<nat>)
    ensures forall k :: 0 <= k < |ix| ==> ix[k] < |lines| && HasTag(lines[ix[k]], tag)
    ensures forall k, l :: 0 <= k < l < |ix| ==> ix[k] < ix[l]
    ensures forall i :: 0 <= i < |lines| && HasTag(lines[i], tag) ==> i in ix
  {
    if lines == [] then []
    else
      var n := |lines| - 1;
      assert forall i :: 0 <= i < n ==> lines[..n][i] == lines[i];
      TaggedIndices(lines[..n], tag) + (if HasTag(lines[n], tag) then [n] else [])
  }

  /** Entry `k` of a list is the text after the tag of the `k`-th tagged
      line, so equal lines are collected once each, in the diff's order. */
  lemma {:induction false} TaggedByIndex(lines: seq<string>, tag: string)
    ensures |Tagged(lines, tag)| == |TaggedIndices(lines, tag)|
    ensures forall k :: 0 <= k < |Tagged(lines, tag)| ==>
      Tagged(lines, tag)[k] == lines[TaggedIndices(lines, tag)[k]][|tag|..]
  {
    if lines != [] {
      var n := |lines| - 1;
      var init := lines[..n];
      TaggedByIndex(init, tag);
      var tagged, ix := Tagged(init, tag), TaggedIndices(init, tag);
      var passes := HasTag(lines[n], tag);
      var r, rx := Tagged(lines, tag), TaggedIndices(lines, tag);
      assert r == tagged + (if passes then [lines[n][|tag|..]] else []);
      assert rx == ix + (if passes then [n] else []);
      forall k | 0 <= k < |r| ensures r[k] == lines[rx[k]][|tag|..] {
        if k < |tagged| {
          assert r[k] == tagged[k] && rx[k] == ix[k] && ix[k] < n;
          assert init[ix[k]] == lines[ix[k]];
        }
      }
    }
  }

  /** The collection keeps order: it distributes over concatenation of the input. */
  lemma {:induction false} TaggedAppend(a: seq<string>, b: seq<string>, tag: string)
    ensures Tagged(a + b, tag) == Tagged(a, tag) + Tagged(b, tag)
    decreases |b|
  {
    if b == [] {
      assert a + b == a;
    } else {
      var init := b[..|b| - 1];
      assert (a + b)[..|a + b| - 1] == a + init;
      TaggedAppend(a, init, tag);
    }
  }

  /** No line is both removed and added, so the two lists together are no
      longer than the diff. */
  lemma {:induction false} TaggedDisjoint(lines: seq<string>)
    ensures |Tagged(lines, RemovedTag)| + |Tagged(lines, AddedTag)| <= |lines|
  {
    if lines != [] {
      TaggedDisjoint(lines[..|lines| - 1]);
    }
  }
}
