/**
 * The two locators of the report parser and the URL counter built on them:
 * `get_subsection` finds the text under a `### name` heading, `extract_field`
 * reads the value after a `**Label:**` marker, and `parse_urls_section`
 * counts the `http(s)://` URLs of two subsections. Each regular expression
 * is written out as the scan the regex engine performs, including its
 * backtracking.
 */
module Locators {
  import opened StrOps
  import opened Normalizer

  /** The subheading marker; it also ends a subsection's content wherever it occurs. */
  const Marker := "###"

  /** The end of the run of whitespace (`\s`) that starts at `i`. */
  function SpaceRunEnd(s: string, i: nat): (e: nat)
    requires i <= |s|
    ensures i <= e <= |s|
    decreases |s| - i
  {
    if i < |s| && IsSpace(s[i]) then SpaceRunEnd(s, i + 1) else i
  }

  lemma {:induction false} SpaceRun(s: string, i: nat)
    requires i <= |s|
    ensures forall k :: i <= k < SpaceRunEnd(s, i) ==> IsSpace(s[k])
    ensures SpaceRunEnd(s, i) < |s| ==> !IsSpace(s[SpaceRunEnd(s, i)])
    decreases |s| - i
  {
    if i < |s| && IsSpace(s[i]) {
      SpaceRun(s, i + 1);
    }
  }

  /** The end of the run of non-whitespace (`\S`) that starts at `i`. */
  function WordRunEnd(s: string, i: nat): (e: nat)
    requires i <= |s|
    ensures i <= e <= |s|
    decreases |s| - i
  {
    if i < |s| && !IsSpace(s[i]) then WordRunEnd(s, i + 1) else i
  }

  lemma {:induction false} WordRun(s: string, i: nat)
    requires i <= |s|
    ensures forall k :: i <= k < WordRunEnd(s, i) ==> !IsSpace(s[k])
    ensures WordRunEnd(s, i) < |s| ==> IsSpace(s[WordRunEnd(s, i)])
    decreases |s| - i
  {
    if i < |s| && !IsSpace(s[i]) {
      WordRun(s, i + 1);
    }
  }

  /** The end of the line that holds index `i`: the next '\n', or the end. */
  function LineEnd(s: string, i: nat): (e: nat)
    requires i <= |s|
    ensures i <= e <= |s|
    decreases |s| - i
  {
    if i < |s| && s[i] != '\n' then LineEnd(s, i + 1) else i
  }

  lemma {:induction false} LineRun(s: string, i: nat)
    requires i <= |s|
    ensures forall k :: i <= k < LineEnd(s, i) ==> s[k] != '\n'
    ensures LineEnd(s, i) < |s| ==> s[LineEnd(s, i)] == '\n'
    decreases |s| - i
  {
    if i < |s| && s[i] != '\n' {
      LineRun(s, i + 1);
    }
  }

  /** The last '\n' in `s[i..e]`. */
  function LastNewline(s: string, i: nat, e: nat): (r: Option<nat>)
    requires i <= e <= |s|
    ensures r.Some? ==> i <= r.value < e && s[r.value] == '\n'
    decreases e
  {
    if e == i then None else if s[e - 1] == '\n' then Some(e - 1) else LastNewline(s, i, e - 1)
  }

  lemma {:induction false} LastNewlineIsLast(s: string, i: nat, e: nat)
    requires i <= e <= |s|
    ensures LastNewline(s, i, e).Some? ==> forall k :: LastNewline(s, i, e).value < k < e ==> s[k] != '\n'
    ensures LastNewline(s, i, e).None? ==> forall k :: i <= k < e ==> s[k] != '\n'
    decreases e
  {
    if e > i && s[e - 1] != '\n' {
      LastNewlineIsLast(s, i, e - 1);
    }
  }

  /** The last character of `s[i..e]` other than '\n'. */
  function LastNonNewline(s: string, i: nat, e: nat): (r: Option<nat>)
    requires i <= e <= |s|
    ensures r.Some? ==> i <= r.value < e && s[r.value] != '\n'
    decreases e
  {
    if e == i then None else if s[e - 1] != '\n' then Some(e - 1) else LastNonNewline(s, i, e - 1)
  }

  /** The literal `name` at `i`, compared the way `re.IGNORECASE` compares ASCII text. */
  predicate MatchesAt(s: string, name: string, i: nat)
  {
    i + |name| <= |s| && forall k :: 0 <= k < |name| ==> LowerChar(s[i + k]) == LowerChar(name[k])
  }

  // ---------------------------------------------------------------------------
  // get_subsection: `###\s+NAME\s*\n(.*?)(?=###|\Z)`, IGNORECASE | DOTALL

  /**
   * With the name at `i`: `\s*\n` must follow. The greedy `\s*` gives back
   * characters until a '\n' comes next, so the content starts after the last
   * '\n' of the whitespace that follows the name.
   */
  function BodyStart(s: string, name: string, i: nat): (r: Option<nat>)
    requires i <= |s|
    ensures r.Some? ==> i + |name| < r.value <= |s| && s[r.value - 1] == '\n'
  {
    if !MatchesAt(s, name, i) then None
    else
      var j := i + |name|;
      match LastNewline(s, j, SpaceRunEnd(s, j))
      case None => None
      case Some(n) => Some(n + 1)
  }

  /**
   * The greedy `\s+` after the marker: try the name after the longest run of
   * whitespace first, then after shorter ones, down to one character.
   */
  function NameAfterSpaces(s: string, name: string, a: nat, e: nat): (r: Option<nat>)
    requires a <= e <= |s|
    ensures r.Some? ==> a < r.value <= |s|
    decreases e
  {
    if e <= a then None
    else
      match BodyStart(s, name, e)
      case Some(g) => Some(g)
      case None => NameAfterSpaces(s, name, a, e - 1)
  }

  /** Where the content starts when the pattern matches at `p`. */
  function HeadingAt(s: string, name: string, p: nat): (r: Option<nat>)
    requires p + |Marker| <= |s|
    ensures r.Some? ==> p + |Marker| < r.value <= |s|
  {
    NameAfterSpaces(s, name, p + |Marker|, SpaceRunEnd(s, p + |Marker|))
  }

  predicate HeadingMatches(s: string, name: string, p: nat)
  {
    ContainsAt(s, Marker, p) && HeadingAt(s, name, p).Some?
  }

  /** `pattern.search`: the leftmost position where the heading pattern matches, with its content start. */
  function FindHeading(s: string, name: string, from: nat): (r: Option<(nat, nat)>)
    requires from <= |s|
    ensures r.Some? ==> from <= r.value.0 && HeadingMatches(s, name, r.value.0)
    ensures r.Some? ==> HeadingAt(s, name, r.value.0) == Some(r.value.1) && r.value.1 <= |s|
    ensures r.Some? ==> forall q :: from <= q < r.value.0 ==> !HeadingMatches(s, name, q)
    ensures r.None? ==> forall q :: from <= q ==> !HeadingMatches(s, name, q)
    decreases |s| - from
  {
    if from + |Marker| > |s| then None
    else if HeadingMatches(s, name, from) then Some((from, HeadingAt(s, name, from).value))
    else FindHeading(s, name, from + 1)
  }

  /** The lazy `(.*?)` stops at the first `###` at or after `g`, anywhere in a line, or at the end. */
  function ContentEnd(s: string, g: nat): (q: nat)
    requires g <= |s|
    ensures g <= q <= |s|
    ensures forall j :: g <= j < q ==> !ContainsAt(s, Marker, j)
  {
    match FindFrom(s, Marker, g)
    case None => |s|
    case Some(q) => q
  }

  /** `get_subsection`: the stripped content under the first matching heading; "" when there is none. */
  function GetSubsection(s: string, name: string): (r: string)
    ensures FindHeading(s, name, 0).None? ==> r == ""
    ensures IsTrimmed(r)
  {
    match FindHeading(s, name, 0)
    case None => ""
    case Some((p, g)) =>
      TrimIsTrimmed(s[g..ContentEnd(s, g)]);
      Trim(s[g..ContentEnd(s, g)])
  }

  /** The content of a subsection never holds a `###`: the next marker ends it, even in mid-line. */
  lemma SubsectionHasNoMarker(s: string, name: string)
    ensures !Contains(GetSubsection(s, name), Marker)
  {
    match FindHeading(s, name, 0)
    case None =>
    case Some((p, g)) =>
      var q := ContentEnd(s, g);
      NoMarkerInSlice(s, g, q);
      TrimKeepsNoMarker(s[g..q]);
  }

  /** A slice that starts no marker contains none. */
  lemma NoMarkerInSlice(s: string, g: nat, q: nat)
    requires g <= q <= |s|
    requires forall j :: g <= j < q ==> !ContainsAt(s, Marker, j)
    ensures !Contains(s[g..q], Marker)
  {
    var t := s[g..q];
    if Contains(t, Marker) {
      var j := FindFrom(t, Marker, 0).value;
      SliceOfSlice(s, g, q, j, |Marker|);
      assert ContainsAt(s, Marker, g + j);
    }
  }

  lemma SliceOfSlice<T>(s: seq<T>, g: nat, q: nat, j: nat, m: nat)
    requires g <= q <= |s| && j + m <= q - g
    ensures s[g..q][j..j + m] == s[g + j..g + j + m]
  {
    var a, b := s[g..q][j..j + m], s[g + j..g + j + m];
    forall k | 0 <= k < m
      ensures a[k] == b[k]
    {
      assert a[k] == s[g..q][j + k] == s[g + j + k];
    }
  }

  /** Trimming cannot create a marker. */
  lemma TrimKeepsNoMarker(t: string)
    requires !Contains(t, Marker)
    ensures !Contains(Trim(t), Marker)
  {
    TrimLeftKeepsNoMarker(t);
    TrimRightKeepsNoMarker(TrimLeft(t, Whitespace));
  }

  lemma TrimLeftKeepsNoMarker(t: string)
    requires !Contains(t, Marker)
    ensures !Contains(TrimLeft(t, Whitespace), Marker)
  {
    var l := TrimLeft(t, Whitespace);
    TrimLeftRemoved(t, Whitespace);
    DropAll(t, |t| - |l|);
    NoMarkerInSlice(t, |t| - |l|, |t|);
  }

  lemma TrimRightKeepsNoMarker(l: string)
    requires !Contains(l, Marker)
    ensures !Contains(TrimRight(l, Whitespace), Marker)
  {
    var r := TrimRight(l, Whitespace);
    TrimRightRemoved(l, Whitespace);
    assert l[..|r|] == l[0..|r|];
    NoMarkerInSlice(l, 0, |r|);
  }

  /** A text made of a single `### name` heading line and a body. */
  function HeadedText(name: string, body: string): string
  {
    "### " + name + "\n" + body
  }

  /**
   * The subsection of a heading followed by a body without `###` is the
   * stripped body: the heading pattern matches at the start of the text and
   * the content runs to its end.
   */
  lemma SubsectionOfHeading(name: string, body: string)
    requires name != [] && !IsSpace(name[0])
    requires !Contains(body, Marker)
    ensures GetSubsection(HeadedText(name, body), name) == Trim(body)
  {
    HeadedTextChars(name, body);
    var g := HeadedBodyStart(name, body);
    HeadedFound(name, body, g);
    HeadedContentEnd(name, body, g);
    HeadedContent(name, body, g);
  }

  lemma HeadedTextChars(name: string, body: string)
    ensures |HeadedText(name, body)| == |name| + 5 + |body|
    ensures ContainsAt(HeadedText(name, body), Marker, 0)
    ensures HeadedText(name, body)[3] == ' '
    ensures forall k :: 0 <= k < |name| ==> HeadedText(name, body)[4 + k] == name[k]
    ensures HeadedText(name, body)[4 + |name|] == '\n'
    ensures forall k :: 0 <= k < |body| ==> HeadedText(name, body)[|name| + 5 + k] == body[k]
  {
    var t := HeadedText(name, body);
    assert t[0..3] == Marker;
  }

  /** The name is found right after the one space; the content starts after the last line break that follows. */
  lemma HeadedBodyStart(name: string, body: string) returns (g: nat)
    requires name != [] && !IsSpace(name[0])
    requires |HeadedText(name, body)| == |name| + 5 + |body|
    requires HeadedText(name, body)[3] == ' '
    requires forall k :: 0 <= k < |name| ==> HeadedText(name, body)[4 + k] == name[k]
    requires HeadedText(name, body)[4 + |name|] == '\n'
    ensures HeadingAt(HeadedText(name, body), name, 0) == Some(g)
    ensures |name| + 5 <= g <= |HeadedText(name, body)|
    ensures forall k :: |name| + 5 <= k < g ==> IsSpace(HeadedText(name, body)[k])
  {
    var t := HeadedText(name, body);
    var j := 4 + |name|;
    assert t[4] == name[0];
    assert SpaceRunEnd(t, 3) == 4;
    assert t[4..j] == name;
    assert MatchesAt(t, name, 4);
    var e := SpaceRunEnd(t, j);
    SpaceRun(t, j);
    LastNewlineIsLast(t, j, e);
    var n := LastNewline(t, j, e).value;
    g := n + 1;
    assert BodyStart(t, name, 4) == Some(g);
  }

  lemma HeadedFound(name: string, body: string, g: nat)
    requires ContainsAt(HeadedText(name, body), Marker, 0)
    requires HeadingAt(HeadedText(name, body), name, 0) == Some(g)
    ensures FindHeading(HeadedText(name, body), name, 0) == Some((0, g))
  {
  }

  /** No `###` starts inside the body, so the content runs to the end of the text. */
  lemma HeadedContentEnd(name: string, body: string, g: nat)
    requires !Contains(body, Marker)
    requires |HeadedText(name, body)| == |name| + 5 + |body|
    requires forall k :: 0 <= k < |body| ==> HeadedText(name, body)[|name| + 5 + k] == body[k]
    requires |name| + 5 <= g <= |HeadedText(name, body)|
    ensures ContentEnd(HeadedText(name, body), g) == |HeadedText(name, body)|
  {
    TailHasNoMarker(HeadedText(name, body), body, |name| + 5, g);
  }

  lemma TailHasNoMarker(t: string, body: string, h: nat, g: nat)
    requires !Contains(body, Marker)
    requires |t| == h + |body|
    requires forall k :: 0 <= k < |body| ==> t[h + k] == body[k]
    requires h <= g <= |t|
    ensures ContentEnd(t, g) == |t|
  {
    var r := FindFrom(t, Marker, g);
    if r.Some? {
      var q := r.value;
      assert body[q - h..q - h + 3] == t[q..q + 3];
      ContainsIntro(body, Marker, q - h);
    }
  }

  /** The content is the body less some leading whitespace, which stripping removes anyway. */
  lemma HeadedContent(name: string, body: string, g: nat)
    requires |HeadedText(name, body)| == |name| + 5 + |body|
    requires forall k :: 0 <= k < |body| ==> HeadedText(name, body)[|name| + 5 + k] == body[k]
    requires |name| + 5 <= g <= |HeadedText(name, body)|
    requires forall k :: |name| + 5 <= k < g ==> IsSpace(HeadedText(name, body)[k])
    ensures Trim(HeadedText(name, body)[g..|HeadedText(name, body)|]) == Trim(body)
  {
    var t := HeadedText(name, body);
    var m := g - (|name| + 5);
    assert t[g..|t|] == body[m..];
    assert forall k :: 0 <= k < m ==> body[..m][k] in Whitespace;
    assert body == body[..m] + body[m..];
    TrimSpacePrefix(body[..m], body[m..]);
  }

  // ---------------------------------------------------------------------------
  // extract_field: `\*\*LABEL:\*\*\s*(.+)`, IGNORECASE, no DOTALL

  /** `**tag:**` at `p`, the tag compared ignoring case. */
  predicate LabelAt(s: string, tag: string, p: nat)
  {
    p + |tag| + 5 <= |s| && s[p] == '*' && s[p + 1] == '*' && MatchesAt(s, tag, p + 2) &&
    s[p + |tag| + 2] == ':' && s[p + |tag| + 3] == '*' && s[p + |tag| + 4] == '*'
  }

  /**
   * What `\s*(.+)` captures after a tag that ends at `a`. The greedy `\s*`
   * takes the whole run of whitespace, line breaks included, and `(.+)` the
   * rest of the line it reaches; at the end of the text `\s*` gives back
   * characters until `(.+)` can take one that is not '\n'; absent when none is.
   */
  function ValueAt(s: string, a: nat): (r: Option<string>)
    requires a <= |s|
    ensures r.Some? ==> r.value != [] && '\n' !in r.value
  {
    var e := SpaceRunEnd(s, a);
    if e < |s| then
      SpaceRun(s, a);
      LineRun(s, e);
      assert s[e..LineEnd(s, e)][0] == s[e];
      Some(s[e..LineEnd(s, e)])
    else
      match LastNonNewline(s, a, e)
      case None => None
      case Some(j) =>
        LineRun(s, j);
        assert s[j..LineEnd(s, j)][0] == s[j];
        Some(s[j..LineEnd(s, j)])
  }

  predicate FieldMatches(s: string, tag: string, p: nat)
  {
    LabelAt(s, tag, p) && ValueAt(s, p + |tag| + 5).Some?
  }

  /** `pattern.search`: the leftmost position where the field pattern matches. */
  function FindField(s: string, tag: string, from: nat): (r: Option<nat>)
    requires from <= |s|
    ensures r.Some? ==> from <= r.value && FieldMatches(s, tag, r.value)
    ensures r.Some? ==> forall q :: from <= q < r.value ==> !FieldMatches(s, tag, q)
    ensures r.None? ==> forall q :: from <= q ==> !FieldMatches(s, tag, q)
    decreases |s| - from
  {
    if from + |tag| + 5 > |s| then None
    else if FieldMatches(s, tag, from) then Some(from)
    else FindField(s, tag, from + 1)
  }

  /** `extract_field`: the normalised capture of the first match; absent when nothing matches. */
  function ExtractField(s: string, tag: string): (r: Option<string>)
    ensures r.Some? ==> r.value != [] && IsTrimmed(r.value) && Lower(r.value) !in Sentinels
  {
    match FindField(s, tag, 0)
    case None => None
    case Some(p) => Normalize(ValueAt(s, p + |tag| + 5))
  }

  /** A field is found only where the pattern matches, so a text without the tag has no such field. */
  lemma FieldNeedsMatch(s: string, tag: string)
    ensures ExtractField(s, tag).Some? ==> exists p :: FieldMatches(s, tag, p)
    ensures (forall p :: !LabelAt(s, tag, p)) ==> ExtractField(s, tag).None?
  {
    if ExtractField(s, tag).Some? {
      var p := FindField(s, tag, 0).value;
      assert FieldMatches(s, tag, p);
    }
  }

  /**
   * The first tag decides. When text follows it after any whitespace, line
   * breaks included, the field is that text up to the end of its line,
   * normalised; so a tag left empty takes its value from the next line.
   */
  lemma FieldOfFirstLabel(s: string, tag: string, p: nat)
    requires LabelAt(s, tag, p)
    requires forall q: nat :: q < p ==> !LabelAt(s, tag, q)
    requires SpaceRunEnd(s, p + |tag| + 5) < |s|
    ensures ExtractField(s, tag) ==
      Normalize(Some(s[SpaceRunEnd(s, p + |tag| + 5)..LineEnd(s, SpaceRunEnd(s, p + |tag| + 5))]))
  {
    ValueBeforeEnd(s, p + |tag| + 5);
    FirstFieldIs(s, tag, p);
    FieldOfMatch(s, tag, p);
  }

  lemma ValueBeforeEnd(s: string, a: nat)
    requires a <= |s| && SpaceRunEnd(s, a) < |s|
    ensures ValueAt(s, a) == Some(s[SpaceRunEnd(s, a)..LineEnd(s, SpaceRunEnd(s, a))])
  {
  }

  lemma FieldOfMatch(s: string, tag: string, p: nat)
    requires FindField(s, tag, 0) == Some(p)
    ensures ExtractField(s, tag) == Normalize(ValueAt(s, p + |tag| + 5))
  {
  }

  /**
   * A first tag followed only by whitespace up to the end of a text that
   * does not end in a line break yields nothing: `(.+)` captures one
   * whitespace character, which normalises to nothing.
   */
  lemma FieldOfTrailingLabel(s: string, tag: string, p: nat)
    requires LabelAt(s, tag, p)
    requires forall q: nat :: q < p ==> !LabelAt(s, tag, q)
    requires SpaceRunEnd(s, p + |tag| + 5) == |s| && s[|s| - 1] != '\n'
    ensures ExtractField(s, tag).None?
  {
    var a := p + |tag| + 5;
    if a == |s| {
      NoLaterField(s, tag, p);
    } else {
      TrailingCapture(s, a);
      FirstFieldIs(s, tag, p);
      FieldOfMatch(s, tag, p);
      WhitespaceCharNormalizes(ValueAt(s, a).value);
    }
  }

  /** At the end of the text `(.+)` captures the last character, a whitespace one. */
  lemma TrailingCapture(s: string, a: nat)
    requires a < |s| && SpaceRunEnd(s, a) == |s| && s[|s| - 1] != '\n'
    ensures ValueAt(s, a) == Some(s[|s| - 1..]) && AllIn(s[|s| - 1..], Whitespace)
  {
    SpaceRun(s, a);
    assert LastNonNewline(s, a, |s|) == Some(|s| - 1);
    assert LineEnd(s, |s| - 1) == |s|;
    DropAll(s, |s| - 1);
    assert s[|s| - 1..] == [s[|s| - 1]];
    assert IsSpace(s[|s| - 1]);
    assert s[|s| - 1] in Whitespace;
  }

  /** The search returns the first position where the whole pattern matches. */
  lemma FirstFieldIs(s: string, tag: string, p: nat)
    requires FieldMatches(s, tag, p)
    requires forall q: nat :: q < p ==> !LabelAt(s, tag, q)
    ensures FindField(s, tag, 0) == Some(p)
  {
    var r := FindField(s, tag, 0);
    assert r.Some?;
    assert !(r.value < p);
    assert !(p < r.value);
  }

  /** A tag that ends the text is the last place a match could start. */
  lemma NoLaterField(s: string, tag: string, p: nat)
    requires LabelAt(s, tag, p) && p + |tag| + 5 == |s|
    requires forall q: nat :: q < p ==> !LabelAt(s, tag, q)
    ensures FindField(s, tag, 0).None?
  {
    assert !FieldMatches(s, tag, p);
  }

  /** A capture inside a run of whitespace is made of whitespace only, so it normalises to nothing. */
  lemma WhitespaceCharNormalizes(v: string)
    requires AllIn(v, Whitespace)
    ensures Normalize(Some(v)).None?
  {
    StripEmptyIff(v, Whitespace);
    assert Lower(Trim(v)) == "";
  }

  // ---------------------------------------------------------------------------
  // parse_urls_section: `re.findall(r'https?://\S+', ...)`

  /** A match of `https?://\S+` at `i`, and where it ends. */
  function UrlAt(s: string, i: nat): (r: Option<nat>)
    ensures r.Some? ==> i + 8 <= r.value <= |s|
  {
    if ContainsAt(s, "https://", i) && i + 8 < |s| && !IsSpace(s[i + 8]) then Some(WordRunEnd(s, i + 8))
    else if ContainsAt(s, "http://", i) && i + 7 < |s| && !IsSpace(s[i + 7]) then Some(WordRunEnd(s, i + 7))
    else None
  }

  /** The number of non-overlapping matches from `i` on, the scan resuming after each match. */
  function UrlCountFrom(s: string, i: nat): (n: nat)
    requires i <= |s|
    ensures 8 * n <= |s| - i
    decreases |s| - i
  {
    if i == |s| then 0
    else
      match UrlAt(s, i)
      case Some(e) => 1 + UrlCountFrom(s, e)
      case None => UrlCountFrom(s, i + 1)
  }

  function UrlCount(s: string): nat
  {
    UrlCountFrom(s, 0)
  }

  /** Without "http" there is no URL. */
  lemma {:induction false} NoSchemeNoUrl(s: string, i: nat)
    requires i <= |s|
    requires forall j :: i <= j ==> !ContainsAt(s, "http", j)
    ensures UrlCountFrom(s, i) == 0
    decreases |s| - i
  {
    if i < |s| {
      assert "https://"[..4] == "http" && "http://"[..4] == "http";
      if ContainsAt(s, "https://", i) {
        ContainsAtPrefix(s, "https://", i, 4);
      }
      if ContainsAt(s, "http://", i) {
        ContainsAtPrefix(s, "http://", i, 4);
      }
      NoSchemeNoUrl(s, i + 1);
    }
  }

  lemma ContainsAtPrefix(s: string, p: string, i: nat, n: nat)
    requires ContainsAt(s, p, i) && n <= |p|
    ensures ContainsAt(s, p[..n], i)
  {
    assert s[i..i + n] == s[i..i + |p|][..n];
  }

  lemma {:induction false} WordRunToEnd(s: string, i: nat)
    requires i <= |s|
    requires forall k :: i <= k < |s| ==> !IsSpace(s[k])
    ensures WordRunEnd(s, i) == |s|
    decreases |s| - i
  {
    if i < |s| {
      WordRunToEnd(s, i + 1);
    }
  }

  /** A lone token `http://...` or `https://...` is one URL. */
  lemma OneUrl(scheme: string, rest: string)
    requires scheme == "http://" || scheme == "https://"
    requires rest != [] && forall k :: 0 <= k < |rest| ==> !IsSpace(rest[k])
    ensures UrlCount(scheme + rest) == 1
  {
    var s := scheme + rest;
    assert s[..|scheme|] == scheme;
    assert s[|scheme|] == rest[0];
    assert forall k :: |scheme| <= k < |s| ==> s[k] == rest[k - |scheme|];
    WordRunToEnd(s, |scheme|);
    if scheme == "http://" {
      assert s[4] == ':';
      assert !ContainsAt(s, "https://", 0);
    }
    assert UrlAt(s, 0) == Some(|s|);
  }

  // What the count means: one URL per whitespace-separated word that holds one,
  // since a match runs to the end of its word.

  /** `http://` or `https://` at `j`, followed by at least one character. */
  predicate UrlInWordAt(w: string, j: nat)
  {
    (ContainsAt(w, "https://", j) && j + 8 < |w|) || (ContainsAt(w, "http://", j) && j + 7 < |w|)
  }

  /** The word holds a URL somewhere. */
  predicate HasUrl(w: string)
  {
    exists j :: 0 <= j < |w| && UrlInWordAt(w, j)
  }

  /** The number of words that hold a URL. */
  function UrlWords(words: seq<string>): (n: nat)
    ensures n <= |words|
  {
    if words == [] then 0 else UrlWords(ButLast(words)) + (if HasUrl(words[|words| - 1]) then 1 else 0)
  }

  predicate NoSpace(w: string)
  {
    forall k :: 0 <= k < |w| ==> !IsSpace(w[k])
  }

  /** Where the text's last whitespace character is, if it has one. */
  function LastSpace(s: string): (r: Option<nat>)
    ensures r.None? ==> NoSpace(s)
    ensures r.Some? ==> r.value < |s| && IsSpace(s[r.value]) && NoSpace(s[r.value + 1..])
  {
    if s == [] then None
    else if IsSpace(s[|s| - 1]) then Some(|s| - 1)
    else
      var r := LastSpace(ButLast(s));
      assert forall k :: 0 <= k < |s| - 1 ==> ButLast(s)[k] == s[k];
      r
  }

  /**
   * `findall(r'https?://\S+', s)` finds one URL in each word of `s` that
   * holds one, and no other: the words being the pieces between whitespace.
   */
  lemma {:induction false} UrlCountByWords(s: string)
    ensures UrlCount(s) == UrlWords(SplitOnAny(s, Whitespace))
    decreases |s|
  {
    match LastSpace(s)
    case None =>
      NoSpaceNoneIn(s);
      SplitOnAnyNone(s, Whitespace);
      WordUrlCount(s);
      assert ButLast([s]) == [];
    case Some(k) =>
      var a, c, b := s[..k], s[k], s[k + 1..];
      assert s == a + [c] + b;
      UrlCountSplit(a, c, b);
      UrlCountByWords(a);
      NoSpaceNoneIn(b);
      SplitOnAnyAfter(a, c, b, Whitespace);
      WordUrlCount(b);
      ButLastSnoc(SplitOnAny(a, Whitespace), b);
  }

  lemma NoSpaceNoneIn(w: string)
    requires NoSpace(w)
    ensures NoneIn(w, Whitespace)
  {
  }

  /** A word without whitespace has one URL exactly when it holds one, and else none. */
  lemma WordUrlCount(w: string)
    requires NoSpace(w)
    ensures UrlCount(w) == if HasUrl(w) then 1 else 0
  {
    WordUrlCountFrom(w, 0);
  }

  lemma {:induction false} WordUrlCountFrom(w: string, i: nat)
    requires i <= |w| && NoSpace(w)
    ensures UrlCountFrom(w, i) == if exists j :: i <= j < |w| && UrlInWordAt(w, j) then 1 else 0
    decreases |w| - i
  {
    if i == |w| {
    } else {
      match UrlAt(w, i)
      case Some(e) =>
        WordRunToEnd(w, if ContainsAt(w, "https://", i) && i + 8 < |w| then i + 8 else i + 7);
        assert UrlInWordAt(w, i);
      case None =>
        assert !UrlInWordAt(w, i);
        WordUrlCountFrom(w, i + 1);
        assert forall j :: i <= j < |w| && UrlInWordAt(w, j) ==> i + 1 <= j;
    }
  }

  /** Whitespace separates: the URLs of a text are those before a whitespace character and those after it. */
  lemma UrlCountSplit(a: string, c: char, b: string)
    requires IsSpace(c)
    ensures UrlCount(a + [c] + b) == UrlCount(a) + UrlCount(b)
  {
    var s := a + [c] + b;
    assert s == a + ([c] + b);
    UrlCountPrefix(a, [c] + b, 0);
    UrlAtSpace(s, |a|);
    assert s == (a + [c]) + b;
    UrlCountShift(a + [c], b, 0);
  }

  lemma UrlAtSpace(s: string, i: nat)
    requires i < |s| && IsSpace(s[i])
    ensures UrlAt(s, i).None?
  {
    if i + 8 <= |s| {
      assert s[i..i + 8][0] == s[i];
    }
    if i + 7 <= |s| {
      assert s[i..i + 7][0] == s[i];
    }
  }

  /** The scan of `a + t` over `a`'s indices, when `t` starts with whitespace. */
  lemma {:induction false} UrlCountPrefix(a: string, t: string, i: nat)
    requires i <= |a| && t != [] && IsSpace(t[0])
    ensures UrlCountFrom(a + t, i) == UrlCountFrom(a, i) + UrlCountFrom(a + t, |a|)
    decreases |a| - i
  {
    if i < |a| {
      UrlAtPrefix(a, t, i);
      match UrlAt(a, i)
      case Some(e) => UrlCountPrefix(a, t, e);
      case None => UrlCountPrefix(a, t, i + 1);
    }
  }

  lemma UrlAtPrefix(a: string, t: string, i: nat)
    requires i < |a| && t != [] && IsSpace(t[0])
    ensures UrlAt(a + t, i) == UrlAt(a, i)
  {
    var s := a + t;
    SchemePrefix(a, t, "https://", i);
    SchemePrefix(a, t, "http://", i);
    if i + 8 < |a| {
      WordRunPrefix(a, t, i + 8);
    }
    if i + 7 < |a| {
      WordRunPrefix(a, t, i + 7);
    }
    assert i + 8 == |a| ==> s[i + 8] == t[0];
    assert i + 7 == |a| ==> s[i + 7] == t[0];
  }

  /** A scheme at `i` in `a + t` is one in `a`, when `t` starts with whitespace. */
  lemma SchemePrefix(a: string, t: string, p: string, i: nat)
    requires p == "https://" || p == "http://"
    requires i < |a| && t != [] && IsSpace(t[0])
    ensures ContainsAt(a + t, p, i) == ContainsAt(a, p, i)
  {
    var s := a + t;
    if i + |p| <= |a| {
      assert s[i..i + |p|] == a[i..i + |p|];
    } else if i + |p| <= |s| {
      assert NoSpace(p);
      assert s[i..i + |p|][|a| - i] == t[0];
    }
  }

  lemma {:induction false} WordRunPrefix(a: string, t: string, k: nat)
    requires k <= |a| && t != [] && IsSpace(t[0])
    ensures WordRunEnd(a + t, k) == WordRunEnd(a, k)
    decreases |a| - k
  {
    if k < |a| {
      WordRunPrefix(a, t, k + 1);
    } else {
      assert (a + t)[k] == t[0];
    }
  }

  /** The scan of `pre + b` from inside `b` is the scan of `b`. */
  lemma {:induction false} UrlCountShift(pre: string, b: string, j: nat)
    requires j <= |b|
    ensures UrlCountFrom(pre + b, |pre| + j) == UrlCountFrom(b, j)
    decreases |b| - j
  {
    if j < |b| {
      UrlAtShift(pre, b, j);
      match UrlAt(b, j)
      case Some(e) => UrlCountShift(pre, b, e);
      case None => UrlCountShift(pre, b, j + 1);
    }
  }

  lemma UrlAtShift(pre: string, b: string, j: nat)
    requires j < |b|
    ensures UrlAt(pre + b, |pre| + j) == if UrlAt(b, j).Some? then Some(|pre| + UrlAt(b, j).value) else None
  {
    var s := pre + b;
    SchemeShift(pre, b, "https://", j);
    SchemeShift(pre, b, "http://", j);
    if j + 8 < |b| {
      WordRunShift(pre, b, j + 8);
      assert s[|pre| + j + 8] == b[j + 8];
    }
    if j + 7 < |b| {
      WordRunShift(pre, b, j + 7);
      assert s[|pre| + j + 7] == b[j + 7];
    }
  }

  lemma SchemeShift(pre: string, b: string, p: string, j: nat)
    ensures ContainsAt(pre + b, p, |pre| + j) == ContainsAt(b, p, j)
  {
    if j + |p| <= |b| {
      assert (pre + b)[|pre| + j..|pre| + j + |p|] == b[j..j + |p|];
    }
  }

  lemma {:induction false} WordRunShift(pre: string, b: string, k: nat)
    requires k <= |b|
    ensures WordRunEnd(pre + b, |pre| + k) == |pre| + WordRunEnd(b, k)
    decreases |b| - k
  {
    if k < |b| {
      assert (pre + b)[|pre| + k] == b[k];
      WordRunShift(pre, b, k + 1);
    }
  }

  /** `parse_urls_section`: URLs under "Pages Visited" and under "Downloadable Assets". */
  function ParseUrlsSection(section: string): (r: (nat, nat))
    ensures r.0 == UrlWords(SplitOnAny(GetSubsection(section, "Pages Visited"), Whitespace))
    ensures r.1 == UrlWords(SplitOnAny(GetSubsection(section, "Downloadable Assets"), Whitespace))
    ensures 8 * r.0 <= |GetSubsection(section, "Pages Visited")|
    ensures 8 * r.1 <= |GetSubsection(section, "Downloadable Assets")|
  {
    var pages, downloads := GetSubsection(section, "Pages Visited"), GetSubsection(section, "Downloadable Assets");
    UrlCountByWords(pages);
    UrlCountByWords(downloads);
    (UrlCount(pages), UrlCount(downloads))
  }
}
