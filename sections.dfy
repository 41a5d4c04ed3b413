/**
 * `split_sections`: a report is cut into blocks at its `## ` header lines.
 * The lines before the first header form the block "_preamble"; every header
 * opens a block named by its trimmed, upper-cased text; a header line itself
 * belongs to no block; a name that occurs twice keeps the content of its last
 * block.
 */
module Sections {
  import opened StrOps

  const Preamble := "_preamble"

  /** `re.match(r'^##\s+(.+)', line)` on a line without '\n'. */
  predicate IsHeader(line: string)
  {
    |line| >= 4 && line[0] == '#' && line[1] == '#' && IsSpace(line[2])
  }

  /** `m.group(1).strip().upper()`: the whitespace the regex skips is trimmed anyway. */
  function HeaderKey(line: string): (k: string)
    requires IsHeader(line)
    ensures forall i :: 0 <= i < |k| ==> !('a' <= k[i] <= 'z')
    ensures k != Preamble
  {
    var k := Upper(Trim(line[2..]));
    assert |k| != |Preamble| || k[1] != Preamble[1];
    k
  }

  /** A `### ` subheading is a body line of the enclosing block. */
  lemma SubheadingIsNotHeader(line: string)
    requires StartsWith(line, "###")
    ensures !IsHeader(line)
  {
    assert line[2] == '#';
  }

  datatype Block = Block(name: string, lines: seq<string>)

  /** The blocks of a line sequence, the last one still open, as the scan builds them. */
  function Blocks(ls: seq<string>): (bs: seq<Block>)
    ensures |bs| >= 1 && bs[0].name == Preamble
    decreases |ls|
  {
    if ls == [] then [Block(Preamble, [])]
    else
      var prev := Blocks(ButLast(ls));
      var x := ls[|ls| - 1];
      if IsHeader(x) then prev + [Block(HeaderKey(x), [])]
      else
        var open := prev[|prev| - 1];
        prev[..|prev| - 1] + [Block(open.name, open.lines + [x])]
  }

  /** Writing the blocks into a dictionary in order: a later block overwrites an earlier one of the same name. */
  function SectionMap(bs: seq<Block>): (m: map<string, string>)
    ensures bs != [] ==> Last(bs).name in m && m[Last(bs).name] == Join(Last(bs).lines)
  {
    if bs == [] then map[]
    else
      var prev := SectionMap(ButLast(bs));
      prev[bs[|bs| - 1].name := Join(bs[|bs| - 1].lines)]
  }

  function SectionsOfLines(ls: seq<string>): map<string, string>
  {
    SectionMap(Blocks(ls))
  }

  /** The dictionary `split_sections(text)` returns. */
  function Sections(text: string): map<string, string>
  {
    SectionsOfLines(SplitLines(text))
  }

  /** The line scan of `split_sections`. */
  method SplitSections(text: string) returns (sections: map<string, string>)
    ensures sections == Sections(text)
  {
    var lines := SplitLines(text);
    sections := map[];
    var currentKey := Preamble;
    var currentLines: seq<string> := [];
    ghost var done: seq<Block> := [];
    var i := 0;
    while i < |lines|
      invariant 0 <= i <= |lines|
      invariant Blocks(lines[..i]) == done + [Block(currentKey, currentLines)]
      invariant sections == SectionMap(done)
    {
      var line := lines[i];
      ButLastOfTake(lines, i);
      if IsHeader(line) {
        ButLastSnoc(done, Block(currentKey, currentLines));
        sections := sections[currentKey := Join(currentLines)];
        done := done + [Block(currentKey, currentLines)];
        currentKey := HeaderKey(line);
        currentLines := [];
      } else {
        currentLines := currentLines + [line];
      }
      i := i + 1;
    }
    ButLastSnoc(done, Block(currentKey, currentLines));
    sections := sections[currentKey := Join(currentLines)];
    TakeAll(lines);
  }

  // ---------------------------------------------------------------------------
  // Positions of headers

  /** The first header at or after `j`, or the end. */
  function NextHeader(ls: seq<string>, j: nat): (r: nat)
    requires j <= |ls|
    ensures j <= r <= |ls|
    ensures r < |ls| ==> IsHeader(ls[r])
    ensures forall k :: j <= k < r ==> !IsHeader(ls[k])
    decreases |ls| - j
  {
    if j == |ls| then |ls| else if IsHeader(ls[j]) then j else NextHeader(ls, j + 1)
  }

  /** Dropping the last line moves the next header only when none was found before it. */
  lemma {:induction false} NextHeaderButLast(ls: seq<string>, j: nat)
    requires j < |ls|
    ensures NextHeader(ButLast(ls), j) < |ls| - 1 ==> NextHeader(ls, j) == NextHeader(ButLast(ls), j)
    ensures NextHeader(ButLast(ls), j) == |ls| - 1 ==>
      NextHeader(ls, j) == if IsHeader(ls[|ls| - 1]) then |ls| - 1 else |ls|
    decreases |ls| - j
  {
    var p := ButLast(ls);
    if j < |p| {
      assert p[j] == ls[j];
      if !IsHeader(ls[j]) {
        NextHeaderButLast(ls, j + 1);
      }
    } else if !IsHeader(ls[j]) {
      assert NextHeader(ls, j + 1) == |ls|;
    }
  }

  /** Where the open block's lines start: just after the last header, or 0. */
  function OpenStart(ls: seq<string>): (s: nat)
    ensures s <= |ls|
    ensures forall k :: s <= k < |ls| ==> !IsHeader(ls[k])
    ensures s > 0 ==> IsHeader(ls[s - 1])
    decreases |ls|
  {
    if ls == [] then 0
    else if IsHeader(ls[|ls| - 1]) then |ls|
    else OpenStart(ButLast(ls))
  }

  function Last(bs: seq<Block>): Block
    requires |bs| >= 1
  {
    bs[|bs| - 1]
  }

  /** `s[i..j]`, built one element at a time from the right. */
  function Span<T>(s: seq<T>, i: nat, j: nat): (r: seq<T>)
    requires i <= j <= |s|
    ensures |r| == j - i
    decreases j
  {
    if i == j then [] else Span(s, i, j - 1) + [s[j - 1]]
  }

  lemma {:induction false} SpanIsSlice<T>(s: seq<T>, i: nat, j: nat)
    requires i <= j <= |s|
    ensures Span(s, i, j) == s[i..j]
    ensures i == 0 ==> Span(s, i, j) == s[..j]
    decreases j
  {
    if i < j {
      SpanIsSlice(s, i, j - 1);
      assert s[i..j] == s[i..j - 1] + [s[j - 1]];
    }
  }

  /** Dropping the last element does not change a span that ends before it. */
  lemma {:induction false} SpanButLast<T>(s: seq<T>, i: nat, j: nat)
    requires i <= j < |s|
    ensures Span(ButLast(s), i, j) == Span(s, i, j)
    decreases j
  {
    if i < j {
      SpanButLast(s, i, j - 1);
      assert ButLast(s)[j - 1] == s[j - 1];
    }
  }

  /** A span that reaches the end grows with the last element. */
  lemma SpanSnoc<T>(s: seq<T>, i: nat)
    requires i < |s|
    ensures Span(s, i, |s|) == Span(ButLast(s), i, |s| - 1) + [s[|s| - 1]]
  {
    SpanButLast(s, i, |s| - 1);
  }

  /** The open block is named by the last header, or is the preamble. */
  predicate OpenName(ls: seq<string>)
  {
    Last(Blocks(ls)).name == if OpenStart(ls) == 0 then Preamble else HeaderKey(ls[OpenStart(ls) - 1])
  }

  /** The open block holds every line after the last header. */
  predicate OpenLines(ls: seq<string>)
  {
    Last(Blocks(ls)).lines == Span(ls, OpenStart(ls), |ls|)
  }

  predicate OpenBlockShape(ls: seq<string>)
  {
    OpenName(ls) && OpenLines(ls)
  }

  /** The open block is named by the last header (or is the preamble) and holds every line after it. */
  lemma {:induction false} OpenBlock(ls: seq<string>)
    ensures OpenBlockShape(ls)
    decreases |ls|
  {
    if ls != [] {
      OpenBlock(ButLast(ls));
      if IsHeader(ls[|ls| - 1]) {
        OpenBlockAfterHeader(ls);
      } else {
        OpenNameAfterBody(ls);
        OpenLinesAfterBody(ls);
      }
    }
  }

  lemma OpenBlockAfterHeader(ls: seq<string>)
    requires ls != [] && IsHeader(ls[|ls| - 1])
    ensures OpenBlockShape(ls)
  {
    assert OpenStart(ls) == |ls|;
  }

  lemma OpenNameAfterBody(ls: seq<string>)
    requires ls != [] && !IsHeader(ls[|ls| - 1])
    requires OpenName(ButLast(ls))
    ensures OpenName(ls)
  {
    var p := ButLast(ls);
    assert OpenStart(ls) == OpenStart(p);
    assert OpenStart(p) > 0 ==> ls[OpenStart(p) - 1] == p[OpenStart(p) - 1];
  }

  lemma OpenLinesAfterBody(ls: seq<string>)
    requires ls != [] && !IsHeader(ls[|ls| - 1])
    requires OpenLines(ButLast(ls))
    ensures OpenLines(ls)
  {
    var p := ButLast(ls);
    assert OpenStart(ls) == OpenStart(p);
    SpanSnoc(ls, OpenStart(p));
  }

  /** A header line adds its key with empty content. */
  lemma StepHeader(ls: seq<string>)
    requires ls != [] && IsHeader(ls[|ls| - 1])
    ensures SectionsOfLines(ls) == SectionsOfLines(ButLast(ls))[HeaderKey(ls[|ls| - 1]) := []]
  {
    var bs := Blocks(ButLast(ls));
    ButLastSnoc(bs, Block(HeaderKey(ls[|ls| - 1]), []));
  }

  /** A body line extends the open block, which changes the dictionary at the open block's name only. */
  lemma StepBody(ls: seq<string>)
    requires ls != [] && !IsHeader(ls[|ls| - 1])
    ensures SectionsOfLines(ls) == SectionsOfLines(ButLast(ls))[Last(Blocks(ButLast(ls))).name :=
      Join(Last(Blocks(ButLast(ls))).lines + [ls[|ls| - 1]])]
  {
    var bs := Blocks(ButLast(ls));
    var n := |bs|;
    var b := bs[n - 1];
    var nb := Block(b.name, b.lines + [ls[|ls| - 1]]);
    ButLastSnoc(ButLast(bs), nb);
  }

  /** The key that one more line writes. */
  function WrittenKey(ls: seq<string>): string
    requires ls != []
  {
    if IsHeader(ls[|ls| - 1]) then HeaderKey(ls[|ls| - 1]) else Last(Blocks(ButLast(ls))).name
  }

  /** Every other key keeps its value. */
  lemma StepKeeps(ls: seq<string>, k: string)
    requires ls != [] && k in SectionsOfLines(ButLast(ls)) && k != WrittenKey(ls)
    ensures k in SectionsOfLines(ls) && SectionsOfLines(ls)[k] == SectionsOfLines(ButLast(ls))[k]
  {
    if IsHeader(ls[|ls| - 1]) {
      StepHeader(ls);
    } else {
      StepBody(ls);
    }
  }

  /** The open block's name gets the open block's lines and the new one. */
  lemma StepGrows(ls: seq<string>)
    requires ls != [] && !IsHeader(ls[|ls| - 1])
    ensures Last(Blocks(ButLast(ls))).name in SectionsOfLines(ls)
    ensures SectionsOfLines(ls)[Last(Blocks(ButLast(ls))).name] ==
      Join(Last(Blocks(ButLast(ls))).lines + [ls[|ls| - 1]])
  {
    StepBody(ls);
  }

  // ---------------------------------------------------------------------------
  // What the dictionary holds

  predicate PreambleShape(ls: seq<string>)
  {
    Preamble in SectionsOfLines(ls) && SectionsOfLines(ls)[Preamble] == Join(Span(ls, 0, NextHeader(ls, 0)))
  }

  /** The preamble is always present and holds the lines before the first header. */
  lemma {:induction false} PreambleValueOfLines(ls: seq<string>)
    ensures PreambleShape(ls)
    decreases |ls|
  {
    if ls == [] {
      assert SectionsOfLines(ls) == map[][Preamble := Join([])];
    } else {
      var p := ButLast(ls);
      PreambleValueOfLines(p);
      OpenBlock(p);
      NextHeaderButLast(ls, 0);
      if NextHeader(p, 0) < |p| {
        PreambleKept(ls);
      } else if IsHeader(ls[|p|]) {
        PreambleClosed(ls);
      } else {
        PreambleGrows(ls);
      }
    }
  }

  /** A header already seen: the preamble is settled. */
  lemma PreambleKept(ls: seq<string>)
    requires ls != [] && PreambleShape(ButLast(ls)) && OpenName(ButLast(ls))
    requires NextHeader(ButLast(ls), 0) < |ls| - 1
    requires NextHeader(ls, 0) == NextHeader(ButLast(ls), 0)
    ensures PreambleShape(ls)
  {
    var p := ButLast(ls);
    var r := NextHeader(p, 0);
    assert OpenStart(p) > 0;
    assert WrittenKey(ls) != Preamble;
    StepKeeps(ls, Preamble);
    SpanButLast(ls, 0, r);
  }

  /** The first header closes the preamble. */
  lemma PreambleClosed(ls: seq<string>)
    requires ls != [] && IsHeader(ls[|ls| - 1]) && PreambleShape(ButLast(ls))
    requires NextHeader(ButLast(ls), 0) == |ls| - 1 && NextHeader(ls, 0) == |ls| - 1
    ensures PreambleShape(ls)
  {
    StepKeeps(ls, Preamble);
    SpanButLast(ls, 0, |ls| - 1);
  }

  /** Before any header, every line joins the preamble. */
  lemma PreambleGrows(ls: seq<string>)
    requires ls != [] && !IsHeader(ls[|ls| - 1]) && OpenBlockShape(ButLast(ls))
    requires NextHeader(ButLast(ls), 0) == |ls| - 1 && NextHeader(ls, 0) == |ls|
    ensures PreambleShape(ls)
  {
    var p := ButLast(ls);
    assert OpenStart(p) == 0;
    StepGrows(ls);
    SpanSnoc(ls, 0);
  }

  predicate HeaderShape(ls: seq<string>, h: nat)
    requires h < |ls| && IsHeader(ls[h])
  {
    HeaderKey(ls[h]) in SectionsOfLines(ls) &&
    SectionsOfLines(ls)[HeaderKey(ls[h])] == Join(Span(ls, h + 1, NextHeader(ls, h + 1)))
  }

  /** No header after `h` repeats its key. */
  predicate LastOfItsKey(ls: seq<string>, h: nat)
    requires h < |ls| && IsHeader(ls[h])
  {
    forall k :: h < k < |ls| && IsHeader(ls[k]) ==> HeaderKey(ls[k]) != HeaderKey(ls[h])
  }

  /**
   * Last wins: a header that no later header repeats names the lines from
   * just after it to the next header.
   */
  lemma {:induction false} HeaderValueOfLines(ls: seq<string>, h: nat)
    requires h < |ls| && IsHeader(ls[h]) && LastOfItsKey(ls, h)
    ensures HeaderShape(ls, h)
    decreases |ls|
  {
    var p := ButLast(ls);
    if h == |p| {
      HeaderOpened(ls);
    } else {
      HeaderKeyOfButLast(ls, h);
      LastOfItsKeyButLast(ls, h);
      HeaderValueOfLines(p, h);
      HeaderValueStep(ls, h);
    }
  }

  /** One more line keeps the value of `h` right. */
  lemma HeaderValueStep(ls: seq<string>, h: nat)
    requires h < |ls| - 1 && IsHeader(ls[h]) && LastOfItsKey(ls, h) && HeaderShape(ButLast(ls), h)
    ensures HeaderShape(ls, h)
  {
    var p := ButLast(ls);
    OpenBlock(p);
    NextHeaderButLast(ls, h + 1);
    if NextHeader(p, h + 1) < |p| {
      HeaderKept(ls, h);
    } else if IsHeader(ls[|p|]) {
      HeaderClosed(ls, h);
    } else {
      HeaderGrows(ls, h);
    }
  }

  lemma LastOfItsKeyButLast(ls: seq<string>, h: nat)
    requires h < |ls| - 1 && IsHeader(ls[h]) && LastOfItsKey(ls, h)
    ensures IsHeader(ButLast(ls)[h]) && LastOfItsKey(ButLast(ls), h)
  {
    var p := ButLast(ls);
    assert forall k :: h <= k < |p| ==> p[k] == ls[k];
  }

  /** A header that is the last line names an empty block. */
  lemma HeaderOpened(ls: seq<string>)
    requires ls != [] && IsHeader(ls[|ls| - 1])
    ensures HeaderShape(ls, |ls| - 1)
  {
    StepHeader(ls);
    assert NextHeader(ls, |ls|) == |ls|;
  }

  /** A later header has already closed the block of `h`. */
  lemma HeaderKept(ls: seq<string>, h: nat)
    requires h < |ls| - 1 && IsHeader(ls[h]) && LastOfItsKey(ls, h)
    requires HeaderShape(ButLast(ls), h) && OpenName(ButLast(ls))
    requires NextHeader(ButLast(ls), h + 1) < |ls| - 1
    requires NextHeader(ls, h + 1) == NextHeader(ButLast(ls), h + 1)
    ensures HeaderShape(ls, h)
  {
    KeptKeyDiffers(ls, h);
    HeaderKeyOfButLast(ls, h);
    StepKeeps(ls, HeaderKey(ls[h]));
    SpanButLast(ls, h + 1, NextHeader(ls, h + 1));
  }

  lemma HeaderKeyOfButLast(ls: seq<string>, h: nat)
    requires h < |ls| - 1 && IsHeader(ls[h])
    ensures IsHeader(ButLast(ls)[h]) && HeaderKey(ButLast(ls)[h]) == HeaderKey(ls[h])
  {
    assert ButLast(ls)[h] == ls[h];
  }

  /** The line after a closed block writes some other key. */
  lemma KeptKeyDiffers(ls: seq<string>, h: nat)
    requires h < |ls| - 1 && IsHeader(ls[h]) && LastOfItsKey(ls, h)
    requires OpenName(ButLast(ls)) && NextHeader(ButLast(ls), h + 1) < |ls| - 1
    ensures WrittenKey(ls) != HeaderKey(ls[h])
  {
    var p := ButLast(ls);
    var r := NextHeader(p, h + 1);
    var s := OpenStart(p);
    assert IsHeader(p[r]) && s > r;
    assert p[s - 1] == ls[s - 1];
  }

  /** A later header writes some other key. */
  lemma ClosedKeyDiffers(ls: seq<string>, h: nat)
    requires h < |ls| - 1 && IsHeader(ls[h]) && LastOfItsKey(ls, h) && IsHeader(ls[|ls| - 1])
    ensures WrittenKey(ls) != HeaderKey(ls[h])
  {
  }

  /** The next header closes the block of `h`. */
  lemma HeaderClosed(ls: seq<string>, h: nat)
    requires h < |ls| - 1 && IsHeader(ls[h]) && LastOfItsKey(ls, h) && IsHeader(ls[|ls| - 1])
    requires HeaderShape(ButLast(ls), h)
    requires NextHeader(ButLast(ls), h + 1) == |ls| - 1 && NextHeader(ls, h + 1) == |ls| - 1
    ensures HeaderShape(ls, h)
  {
    ClosedKeyDiffers(ls, h);
    HeaderKeyOfButLast(ls, h);
    StepKeeps(ls, HeaderKey(ls[h]));
    SpanButLast(ls, h + 1, NextHeader(ls, h + 1));
  }

  /** The block of `h` is still open and gets the new line. */
  lemma HeaderGrows(ls: seq<string>, h: nat)
    requires h < |ls| - 1 && IsHeader(ls[h]) && !IsHeader(ls[|ls| - 1])
    requires OpenBlockShape(ButLast(ls))
    requires NextHeader(ButLast(ls), h + 1) == |ls| - 1 && NextHeader(ls, h + 1) == |ls|
    ensures HeaderShape(ls, h)
  {
    GrowsName(ls, h);
    GrowsLines(ls, h);
    StepGrows(ls);
  }

  /** The open block is the block of `h`. */
  lemma GrowsName(ls: seq<string>, h: nat)
    requires h < |ls| - 1 && IsHeader(ls[h])
    requires OpenName(ButLast(ls)) && NextHeader(ButLast(ls), h + 1) == |ls| - 1
    ensures Last(Blocks(ButLast(ls))).name == HeaderKey(ls[h])
  {
    var p := ButLast(ls);
    assert p[h] == ls[h];
    OpenStartAfter(p, h);
    OpenNameAfter(p, h);
  }

  /** The open block with the new line is the span after `h`. */
  lemma GrowsLines(ls: seq<string>, h: nat)
    requires h < |ls| - 1 && IsHeader(ls[h])
    requires OpenLines(ButLast(ls)) && NextHeader(ButLast(ls), h + 1) == |ls| - 1
    ensures Last(Blocks(ButLast(ls))).lines + [ls[|ls| - 1]] == Span(ls, h + 1, |ls|)
  {
    var p := ButLast(ls);
    assert p[h] == ls[h];
    OpenStartAfter(p, h);
    OpenLinesAt(p, h + 1);
    SpanGrowsFrom(ls, h + 1, Last(Blocks(p)).lines);
  }

  lemma SpanGrowsFrom<T>(s: seq<T>, i: nat, lines: seq<T>)
    requires i < |s| && lines == Span(ButLast(s), i, |ButLast(s)|)
    ensures lines + [s[|s| - 1]] == Span(s, i, |s|)
  {
    SpanSnoc(s, i);
  }

  lemma OpenLinesAt(p: seq<string>, s: nat)
    requires OpenLines(p) && OpenStart(p) == s
    ensures Last(Blocks(p)).lines == Span(p, s, |p|)
  {
  }

  /** The open block starts just after the last header. */
  lemma OpenStartAfter(p: seq<string>, h: nat)
    requires h < |p| && IsHeader(p[h]) && NextHeader(p, h + 1) == |p|
    ensures OpenStart(p) == h + 1
  {
  }

  /** The open block is named by the last header. */
  lemma OpenNameAfter(p: seq<string>, h: nat)
    requires h < |p| && IsHeader(p[h]) && OpenName(p) && OpenStart(p) == h + 1
    ensures Last(Blocks(p)).name == HeaderKey(p[h])
  {
    assert p[OpenStart(p) - 1] == p[h];
  }

  /** The keys named by the header lines of `ls`. */
  function HeaderKeys(ls: seq<string>): (ks: set<string>)
    ensures forall k :: k in ks <==> exists h :: 0 <= h < |ls| && IsHeader(ls[h]) && HeaderKey(ls[h]) == k
    decreases |ls|
  {
    if ls == [] then {}
    else
      var x := ls[|ls| - 1];
      HeaderKeys(ButLast(ls)) + (if IsHeader(x) then {HeaderKey(x)} else {})
  }

  /** The keys are "_preamble" and one per header line. */
  lemma {:induction false} KeysOfLines(ls: seq<string>)
    ensures SectionsOfLines(ls).Keys == {Preamble} + HeaderKeys(ls)
    decreases |ls|
  {
    if ls == [] {
      assert SectionsOfLines(ls) == map[][Preamble := Join([])];
    } else {
      KeysOfLines(ButLast(ls));
      KeysStep(ls);
    }
  }

  /** A header line adds its key; a body line adds none. */
  lemma KeysStep(ls: seq<string>)
    requires ls != []
    ensures SectionsOfLines(ls).Keys == SectionsOfLines(ButLast(ls)).Keys +
      (if IsHeader(ls[|ls| - 1]) then {HeaderKey(ls[|ls| - 1])} else {})
  {
    if IsHeader(ls[|ls| - 1]) {
      StepHeader(ls);
    } else {
      StepBody(ls);
    }
  }

  // ---------------------------------------------------------------------------
  // Every non-header line lands in exactly one block

  function Flatten(bs: seq<Block>): seq<string>
  {
    if bs == [] then [] else Flatten(ButLast(bs)) + bs[|bs| - 1].lines
  }

  /** The lines that are not headers, in order. */
  function BodyLines(ls: seq<string>): (r: seq<string>)
    ensures forall k :: 0 <= k < |r| ==> !IsHeader(r[k])
    ensures |r| <= |ls|
  {
    if ls == [] then []
    else if IsHeader(ls[|ls| - 1]) then BodyLines(ButLast(ls))
    else BodyLines(ButLast(ls)) + [ls[|ls| - 1]]
  }

  /** The block contents, read in order, are exactly the non-header lines: none lost, none repeated. */
  lemma {:induction false} BlocksPartitionLines(ls: seq<string>)
    ensures Flatten(Blocks(ls)) == BodyLines(ls)
    decreases |ls|
  {
    if ls != [] {
      var x := ls[|ls| - 1];
      BlocksPartitionLines(ButLast(ls));
      var bs := Blocks(ButLast(ls));
      var n := |bs|;
      if IsHeader(x) {
        ButLastSnoc(bs, Block(HeaderKey(x), []));
      } else {
        var b := bs[n - 1];
        ButLastSnoc(ButLast(bs), Block(b.name, b.lines + [x]));
      }
    }
  }

  // ---------------------------------------------------------------------------
  // The same facts stated on the text

  lemma PreambleValue(text: string)
    ensures Preamble in Sections(text)
    ensures Sections(text)[Preamble] == Join(SplitLines(text)[..NextHeader(SplitLines(text), 0)])
  {
    PreambleValueOfLines(SplitLines(text));
    SpanIsSlice(SplitLines(text), 0, NextHeader(SplitLines(text), 0));
  }

  /** A repeated header replaces the earlier content: the last block of a name is the one kept. */
  lemma LastHeaderWins(text: string, h: nat)
    requires h < |SplitLines(text)| && IsHeader(SplitLines(text)[h]) && LastOfItsKey(SplitLines(text), h)
    ensures HeaderKey(SplitLines(text)[h]) in Sections(text)
    ensures Sections(text)[HeaderKey(SplitLines(text)[h])]
      == Join(SplitLines(text)[h + 1..NextHeader(SplitLines(text), h + 1)])
  {
    HeaderValueSlice(SplitLines(text), h);
  }

  lemma HeaderValueSlice(ls: seq<string>, h: nat)
    requires h < |ls| && IsHeader(ls[h]) && LastOfItsKey(ls, h)
    ensures HeaderKey(ls[h]) in SectionsOfLines(ls)
    ensures SectionsOfLines(ls)[HeaderKey(ls[h])] == Join(ls[h + 1..NextHeader(ls, h + 1)])
  {
    HeaderValueOfLines(ls, h);
    SpanIsSlice(ls, h + 1, NextHeader(ls, h + 1));
  }

  lemma SectionKeys(text: string)
    ensures Sections(text).Keys == {Preamble} + HeaderKeys(SplitLines(text))
  {
    KeysOfLines(SplitLines(text));
  }
}
