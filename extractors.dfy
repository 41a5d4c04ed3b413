/**
 * The line-oriented extractors of the report parser: bullet lists, numbered
 * steps and the markdown pipe table of forms. Each is a loop over the lines
 * of a section that keeps some lines and transforms them; the loop is a
 * method proved equal to a `FilterMap` of a per-line function, and the
 * per-line function carries what the kept values satisfy.
 */
module Extractors {
  import opened StrOps
  import opened Normalizer
  import opened Locators

  /** A value the list extractors keep: non-empty, stripped and not the "not specified" phrase. */
  predicate IsEntry(v: string)
  {
    v != [] && IsTrimmed(v) && Lower(v) != NotSpecified
  }

  // ---------------------------------------------------------------------------
  // extract_list_items

  /** The stripped line starts with "- " or "* ". */
  predicate IsBullet(l: string)
  {
    |l| >= 2 && (l[0] == '-' || l[0] == '*') && l[1] == ' '
  }

  /** The item one line contributes: the stripped rest of a bullet line, unless empty or "not specified". */
  function ListItem(line: string): (r: Option<string>)
    ensures r.Some? ==> IsEntry(r.value)
  {
    var l := Trim(line);
    if IsBullet(l) then
      TrimIsTrimmed(l[2..]);
      var item := Trim(l[2..]);
      if item != [] && Lower(item) != NotSpecified then Some(item) else None
    else None
  }

  function ListItems(text: string): seq<string>
  {
    FilterMap(ListItem, SplitLines(text))
  }

  /** `extract_list_items`. */
  method ExtractListItems(text: string) returns (items: seq<string>)
    ensures items == ListItems(text)
  {
    var lines := SplitLines(text);
    items := [];
    var i := 0;
    while i < |lines|
      invariant 0 <= i <= |lines|
      invariant items == FilterMap(ListItem, lines[..i])
    {
      FilterMapStep(ListItem, lines, i);
      ghost var kept := Opt(ListItem(lines[i]));
      var line := Trim(lines[i]);
      if IsBullet(line) {
        var item := Trim(line[2..]);
        if item != [] && Lower(item) != NotSpecified {
          assert kept == [item];
          items := items + [item];
        } else {
          assert kept == [];
        }
      } else {
        assert kept == [];
      }
      i := i + 1;
    }
    TakeAll(lines);
  }

  /** Every item is non-empty, stripped, and not the "not specified" phrase. */
  lemma ListItemsAreEntries(text: string)
    ensures forall i :: 0 <= i < |ListItems(text)| ==> IsEntry(ListItems(text)[i])
  {
    FilterMapAll(ListItem, IsEntry, SplitLines(text));
  }

  /** A bullet whose text is an entry contributes exactly that text. */
  lemma BulletIsItem(mark: char, item: string)
    requires mark == '-' || mark == '*'
    requires IsEntry(item)
    ensures ListItem([mark, ' '] + item) == Some(item)
  {
    var l := [mark, ' '] + item;
    assert l[|l| - 1] == item[|item| - 1];
    assert mark !in Whitespace;
    StrippedFixpoint(l, Whitespace);
    assert l[2..] == item;
    StrippedFixpoint(item, Whitespace);
  }

  /** Only the "not specified" phrase is dropped: other sentinels such as "N/A" stay list items. */
  lemma ListKeepsOtherSentinels()
    ensures ListItem("- N/A") == Some("N/A")
  {
    assert Lower("N/A") == "n/a";
    assert IsEntry("N/A");
    assert "- N/A" == ['-', ' '] + "N/A";
    BulletIsItem('-', "N/A");
  }

  // ---------------------------------------------------------------------------
  // extract_numbered_steps

  /**
   * What `^\d+\.\s+(.+)` captures in a stripped line: digits, a dot, at least
   * one whitespace character, then the rest of the line. Since the line is
   * stripped it does not end in whitespace, so the greedy `\s+` never has to
   * give a character back to `(.+)`.
   */
  function StepBody(l: string): (r: Option<string>)
    ensures r.Some? ==> r.value != [] && !IsSpace(r.value[0])
  {
    var d := DigitRunEnd(l, 0);
    if 0 < d < |l| && l[d] == '.' then
      var w := SpaceRunEnd(l, d + 1);
      if d + 1 < w < |l| then
        SpaceRun(l, d + 1);
        assert l[w..][0] == l[w];
        Some(l[w..])
      else None
    else None
  }

  /** The step one line contributes: the stripped capture, unless it is "not specified". */
  function Step(line: string): (r: Option<string>)
    ensures r.Some? ==> IsEntry(r.value)
  {
    match StepBody(Trim(line))
    case None => None
    case Some(b) =>
      StepBodyNotBlank(Trim(line));
      TrimIsTrimmed(b);
      var step := Trim(b);
      if Lower(step) != NotSpecified then Some(step) else None
  }

  /** The capture ends where the stripped line ends, on a character that is not whitespace. */
  lemma StepBodyNotBlank(l: string)
    requires IsTrimmed(l) && StepBody(l).Some?
    ensures Trim(StepBody(l).value) != []
  {
    var b := StepBody(l).value;
    assert b == l[|l| - |b|..];
    assert b[|b| - 1] == l[|l| - 1];
    TrimIsTrimmed(l);
    StripNonEmpty(b, Whitespace);
  }

  function Steps(text: string): seq<string>
  {
    FilterMap(Step, SplitLines(text))
  }

  /** `extract_numbered_steps`. */
  method ExtractNumberedSteps(text: string) returns (steps: seq<string>)
    ensures steps == Steps(text)
  {
    var lines := SplitLines(text);
    steps := [];
    var i := 0;
    while i < |lines|
      invariant 0 <= i <= |lines|
      invariant steps == FilterMap(Step, lines[..i])
    {
      FilterMapStep(Step, lines, i);
      var m := StepBody(Trim(lines[i]));
      if m.Some? {
        var step := Trim(m.value);
        if Lower(step) != NotSpecified {
          steps := steps + [step];
        }
      }
      i := i + 1;
    }
    TakeAll(lines);
  }

  /** Every step is non-empty and stripped, although the source tests neither. */
  lemma StepsAreEntries(text: string)
    ensures forall i :: 0 <= i < |Steps(text)| ==> IsEntry(Steps(text)[i])
  {
    FilterMapAll(Step, IsEntry, SplitLines(text));
  }

  /** A numbered line `n. text` contributes its text. */
  lemma NumberedLineIsStep(digits: string, item: string)
    requires digits != [] && forall k :: 0 <= k < |digits| ==> IsDigit(digits[k])
    requires IsEntry(item)
    ensures Step(digits + ". " + item) == Some(item)
  {
    var l := digits + ". " + item;
    NumberedLineShape(digits, item);
    TrimIsTrimmed(l);
    StrippedFixpoint(l, Whitespace);
    NumberedStepBody(digits, item);
    StrippedFixpoint(item, Whitespace);
  }

  lemma NumberedLineShape(digits: string, item: string)
    requires digits != [] && forall k :: 0 <= k < |digits| ==> IsDigit(digits[k])
    requires IsEntry(item)
    ensures IsTrimmed(digits + ". " + item)
  {
    var l := digits + ". " + item;
    assert l[0] == digits[0] && IsDigit(l[0]);
    assert l[|l| - 1] == item[|item| - 1];
  }

  lemma NumberedStepBody(digits: string, item: string)
    requires digits != [] && forall k :: 0 <= k < |digits| ==> IsDigit(digits[k])
    requires IsEntry(item)
    ensures StepBody(digits + ". " + item) == Some(item)
  {
    var l := digits + ". " + item;
    var d := |digits|;
    assert forall k :: 0 <= k < d ==> l[k] == digits[k];
    assert l[d] == '.' && l[d + 1] == ' ';
    DigitRunOver(l, d);
    assert l[d + 2] == item[0];
    assert SpaceRunEnd(l, d + 2) == d + 2;
    assert l[d + 2..] == item;
  }

  lemma {:induction false} DigitRunOver(l: string, d: nat)
    requires d < |l| && (forall k :: 0 <= k < d ==> IsDigit(l[k])) && !IsDigit(l[d])
    ensures DigitRunEnd(l, 0) == d
  {
    DigitRunFrom(l, 0, d);
  }

  lemma {:induction false} DigitRunFrom(l: string, i: nat, d: nat)
    requires i <= d < |l| && (forall k :: i <= k < d ==> IsDigit(l[k])) && !IsDigit(l[d])
    ensures DigitRunEnd(l, i) == d
    decreases d - i
  {
    if i < d {
      DigitRunFrom(l, i + 1, d);
    }
  }
}
