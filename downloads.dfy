/**
 * The scan of a state's agent report for the URLs it references. The report
 * is read line by line; a `## URLS REFERENCED` heading opens the URL section
 * and the next `## ` heading closes it; inside it, `### Downloadable Assets`
 * and `### Pages Visited` choose which list the bullet lines feed, and any
 * other `###` heading chooses neither. A report that still holds the
 * placeholder text yields no lists at all.
 *
 * The regular expressions are matched as Python matches them on a stripped
 * line of ASCII text; the comments on each matcher say why its lazy and
 * greedy parts can only stop where the matcher says.
 */
module Downloads {
  import opened StrOps
  import opened Locators

  /** The text every placeholder report contains. */
  const PlaceholderMarker := "Not yet collected."

  /** The dash that separates a downloadable asset's file name from its description. */
  const EmDash: char := '\U{2014}'

  datatype PageRef = PageRef(url: string, description: string)

  datatype AssetRef = AssetRef(url: string, suggestedFilename: string, description: string)

  predicate IsPlaceholder(content: string)
  {
    Contains(content, PlaceholderMarker)
  }

  // ---------------------------------------------------------------------------
  // Headings of the URL section

  /** `^` + hashes + `\s+` + title, the title compared without regard to case. */
  predicate HeadingIs(l: string, hashes: string, title: string)
  {
    StartsWith(l, hashes) &&
    var w := SpaceRunEnd(l, |hashes|);
    w > |hashes| && MatchesAt(l, title, w)
  }

  /** `^##\s+URLS REFERENCED`, ignoring case. */
  predicate IsUrlsHeading(l: string)
  {
    HeadingIs(l, "##", "URLS REFERENCED")
  }

  /** `^##\s+`: any second-level heading; a third-level one is not, since its third character is '#'. */
  predicate IsSectionHeading(l: string)
  {
    StartsWith(l, "##") && |l| > 2 && IsSpace(l[2])
  }

  /** `^###\s+Downloadable Assets`, ignoring case. */
  predicate IsAssetsHeading(l: string)
  {
    HeadingIs(l, "###", "Downloadable Assets")
  }

  /** `^###\s+Pages Visited`, ignoring case. */
  predicate IsPagesHeading(l: string)
  {
    HeadingIs(l, "###", "Pages Visited")
  }

  /** `^###`. */
  predicate IsSubheading(l: string)
  {
    StartsWith(l, "###")
  }

  // ---------------------------------------------------------------------------
  // The two bullet patterns

  /** `https?://` at `i`, ignoring case: where the scheme ends. */
  function SchemeEnd(l: string, i: nat): (r: Option<nat>)
    ensures r.Some? ==> i + 7 <= r.value <= |l|
  {
    if MatchesAt(l, "https://", i) then Some(i + 8)
    else if MatchesAt(l, "http://", i) then Some(i + 7)
    else None
  }

  /**
   * `-\s+(https?://\S+?):\s` at the start of `l`: the bounds of the URL, which
   * ends right before the ':'. The `\s+` before the URL is followed by 'h', so
   * it takes the whole run of whitespace. The URL is whitespace-free and must be
   * followed by ':' and whitespace, so its lazy `\S+?` can only stop at the ':'
   * that ends the run of non-whitespace the URL starts, and must take at least
   * one character after the scheme.
   */
  function UrlSpan(l: string): (r: Option<(nat, nat)>)
    ensures r.Some? ==> var (a, e) := r.value; 0 < a && SchemeEnd(l, a).Some? && SchemeEnd(l, a).value < e < |l| - 1
    ensures r.Some? ==> var (a, e) := r.value; l[e] == ':' && IsSpace(l[e + 1])
    ensures r.Some? ==> var (a, e) := r.value; forall k :: a <= k < e ==> !IsSpace(l[k])
  {
    if |l| < 2 || l[0] != '-' then None
    else
      var a := SpaceRunEnd(l, 1);
      if a == 1 then None
      else
        match SchemeEnd(l, a)
        case None => None
        case Some(p) =>
          var r := WordRunEnd(l, a);
          if p + 2 <= r < |l| && l[r - 1] == ':' then
            WordRun(l, a);
            Some((a, r - 1))
          else None
  }

  /** `\s+(.+)` at `i` on a line (no '\n'): where the captured rest of the line starts. */
  function Tail(l: string, i: nat): (r: Option<nat>)
    requires i <= |l|
    ensures r.Some? ==> i < r.value < |l|
  {
    var w := SpaceRunEnd(l, i);
    if w == i then None
    else if w < |l| then Some(w)
    // the line ends in whitespace: the greedy `\s+` gives one character back to `(.+)`
    else if w - i >= 2 then Some(w - 1)
    else None
  }

  /** `RE_PAGE.match(l)`: `-\s+(https?://\S+?):\s+(.+)`, ignoring case; the description is stripped. */
  function PageMatch(l: string): (r: Option<PageRef>)
  {
    var u := UrlSpan(l);
    if u.None? then None
    else
      var t := Tail(l, u.value.1 + 1);
      if t.None? then None
      else Some(PageRef(l[u.value.0..u.value.1], Trim(l[t.value..])))
  }

  /**
   * `\s+(\S+?)\s+—` at `i`: the bounds of the file name and where the dash is.
   * The file name is a lazy run of non-whitespace that must be followed by
   * whitespace, so it is the whole run; the whitespace after it is followed by
   * the dash, which is not whitespace, so it is the whole run too.
   */
  function NameSpan(l: string, i: nat): (r: Option<(nat, nat, nat)>)
    requires i <= |l|
    ensures r.Some? ==> var (w, n, d) := r.value; i < w < n < d < |l| && l[d] == EmDash
    ensures r.Some? ==> var (w, n, d) := r.value; forall k :: w <= k < n ==> !IsSpace(l[k])
  {
    var w := SpaceRunEnd(l, i);
    if w == i || w == |l| then None
    else
      SpaceRun(l, i);
      var n := WordRunEnd(l, w);
      if n == |l| then None
      else
        WordRun(l, w);
        var d := SpaceRunEnd(l, n);
        if d == |l| || l[d] != EmDash then None
        else Some((w, n, d))
  }

  /** `RE_DOWNLOADABLE.match(l)`: `-\s+(https?://\S+?):\s+(\S+?)\s+—\s+(.+)`, ignoring case. */
  function AssetMatch(l: string): (r: Option<AssetRef>)
  {
    var u := UrlSpan(l);
    if u.None? then None
    else
      var m := NameSpan(l, u.value.1 + 1);
      if m.None? then None
      else
        var t := Tail(l, m.value.2 + 1);
        if t.None? then None
        else Some(AssetRef(l[u.value.0..u.value.1], l[m.value.0..m.value.1], Trim(l[t.value..])))
  }

  // ---------------------------------------------------------------------------
  // The scan

  /** The three flags of the loop and the two lists it has built so far. */
  datatype ScanState = ScanState(
    inUrls: bool,
    inDownloads: bool,
    inPages: bool,
    pages: seq<PageRef>,
    downloads: seq<AssetRef>)

  const Start := ScanState(false, false, false, [], [])

  /** One line of the report, stripped, applied to the scan state. */
  function StepLine(st: ScanState, line: string): (r: ScanState)
    ensures st.pages <= r.pages && |r.pages| <= |st.pages| + 1
    ensures st.downloads <= r.downloads && |r.downloads| <= |st.downloads| + 1
  {
    var l := Trim(line);
    if IsUrlsHeading(l) then st.(inUrls := true)
    else if st.inUrls && IsSectionHeading(l) then st.(inUrls := false)
    else if !st.inUrls then st
    else if IsAssetsHeading(l) then st.(inDownloads := true, inPages := false)
    else if IsPagesHeading(l) then st.(inPages := true, inDownloads := false)
    else if IsSubheading(l) then st.(inDownloads := false, inPages := false)
    else if st.inDownloads then st.(downloads := st.downloads + Opt(AssetMatch(l)))
    else if st.inPages then st.(pages := st.pages + Opt(PageMatch(l)))
    else st
  }

  /** The scan state after the lines, one after the other, from `st`. */
  function ScanFrom(st: ScanState, lines: seq<string>): ScanState
  {
    if lines == [] then st else StepLine(ScanFrom(st, ButLast(lines)), lines[|lines| - 1])
  }

  function Scan(lines: seq<string>): ScanState
  {
    ScanFrom(Start, lines)
  }

  /** `parse_agent_output` once the file is read: nothing for a placeholder, the two lists otherwise. */
  method ParseAgentOutput(content: string) returns (pages: Option<seq<PageRef>>, downloads: Option<seq<AssetRef>>)
    ensures pages.None? <==> IsPlaceholder(content)
    ensures downloads.None? <==> IsPlaceholder(content)
    ensures pages.Some? ==> pages.value == Scan(SplitLines(content)).pages
    ensures downloads.Some? ==> downloads.value == Scan(SplitLines(content)).downloads
  {
    if Contains(content, PlaceholderMarker) {
      return None, None;
    }
    var lines := SplitLines(content);
    var inUrls, inDownloads, inPages := false, false, false;
    var ps: seq<PageRef> := [];
    var ds: seq<AssetRef> := [];
    for i := 0 to |lines|
      invariant ScanFrom(Start, lines[..i]) == ScanState(inUrls, inDownloads, inPages, ps, ds)
    {
      ButLastOfTake(lines, i);
      assert lines[..i + 1][i] == lines[i];
      var stripped := Trim(lines[i]);
      if IsUrlsHeading(stripped) {
        inUrls := true;
        continue;
      }
      if inUrls && IsSectionHeading(stripped) {
        inUrls := false;
        continue;
      }
      if inUrls {
        if IsAssetsHeading(stripped) {
          inDownloads := true;
          inPages := false;
          continue;
        }
        if IsPagesHeading(stripped) {
          inPages := true;
          inDownloads := false;
          continue;
        }
        if IsSubheading(stripped) {
          inDownloads := false;
          inPages := false;
          continue;
        }
        if inDownloads {
          var m := AssetMatch(stripped);
          if m.Some? {
            ds := ds + [m.value];
          }
        } else if inPages {
          var m := PageMatch(stripped);
          if m.Some? {
            ps := ps + [m.value];
          }
        }
      }
    }
    TakeAll(lines);
    pages, downloads := Some(ps), Some(ds);
  }

  // ---------------------------------------------------------------------------
  // What an entry holds

  /** An absolute web address: `http://` or `https://` in any case, something after it, and no whitespace. */
  predicate IsUrl(u: string)
  {
    SchemeEnd(u, 0).Some? && SchemeEnd(u, 0).value < |u| && forall k :: 0 <= k < |u| ==> !IsSpace(u[k])
  }

  predicate IsValidPage(p: PageRef)
  {
    IsUrl(p.url) && IsTrimmed(p.description)
  }

  /** A downloadable asset also names a file: a non-empty run without whitespace. */
  predicate IsValidAsset(d: AssetRef)
  {
    IsUrl(d.url) && IsTrimmed(d.description) &&
    d.suggestedFilename != [] && forall k :: 0 <= k < |d.suggestedFilename| ==> !IsSpace(d.suggestedFilename[k])
  }

  lemma MatchesAtSlice(l: string, name: string, a: nat, e: nat)
    requires a + |name| <= e <= |l|
    ensures MatchesAt(l[a..e], name, 0) == MatchesAt(l, name, a)
  {
    assert forall k :: 0 <= k < |name| ==> l[a..e][k] == l[a + k];
  }

  /** The URL an entry records is where the scheme matched, cut at the ':'. */
  lemma UrlOfSpan(l: string)
    requires UrlSpan(l).Some?
    ensures var (a, e) := UrlSpan(l).value; IsUrl(l[a..e])
  {
    var (a, e) := UrlSpan(l).value;
    var u := l[a..e];
    MatchesAtSlice(l, "https://", a, e);
    MatchesAtSlice(l, "http://", a, e);
    assert SchemeEnd(u, 0).Some? && SchemeEnd(u, 0).value == SchemeEnd(l, a).value - a;
    assert forall k :: 0 <= k < |u| ==> u[k] == l[a + k];
  }

  lemma PageIsValid(l: string)
    requires PageMatch(l).Some?
    ensures IsValidPage(PageMatch(l).value)
  {
    UrlOfSpan(l);
    var t := Tail(l, UrlSpan(l).value.1 + 1).value;
    TrimIsTrimmed(l[t..]);
  }

  lemma AssetIsValid(l: string)
    requires AssetMatch(l).Some?
    ensures IsValidAsset(AssetMatch(l).value)
  {
    var a, e, w, n, d, t := AssetSpans(l);
    UrlOfSpan(l);
    TrimIsTrimmed(l[t..]);
    NoSpaceSlice(l, w, n);
    ValidAssetOf(l[a..e], l[w..n], Trim(l[t..]));
  }

  /** The three spans a matching asset line is cut at. */
  lemma AssetSpans(l: string) returns (a: nat, e: nat, w: nat, n: nat, d: nat, t: nat)
    requires AssetMatch(l).Some?
    ensures UrlSpan(l) == Some((a, e)) && NameSpan(l, e + 1) == Some((w, n, d)) && Tail(l, d + 1) == Some(t)
    ensures AssetMatch(l).value == AssetRef(l[a..e], l[w..n], Trim(l[t..]))
  {
    a, e := UrlSpan(l).value.0, UrlSpan(l).value.1;
    var m := NameSpan(l, e + 1).value;
    w, n, d := m.0, m.1, m.2;
    t := Tail(l, d + 1).value;
  }

  lemma ValidAssetOf(url: string, name: string, description: string)
    requires IsUrl(url) && IsTrimmed(description)
    requires name != [] && forall k :: 0 <= k < |name| ==> !IsSpace(name[k])
    ensures IsValidAsset(AssetRef(url, name, description))
  {
  }

  lemma NoSpaceSlice(l: string, w: nat, n: nat)
    requires w <= n <= |l| && forall k :: w <= k < n ==> !IsSpace(l[k])
    ensures forall k :: 0 <= k < |l[w..n]| ==> !IsSpace(l[w..n][k])
  {
    assert forall k :: 0 <= k < n - w ==> l[w..n][k] == l[w + k];
  }

  predicate AllValid(st: ScanState)
  {
    (forall i :: 0 <= i < |st.pages| ==> IsValidPage(st.pages[i])) &&
    (forall i :: 0 <= i < |st.downloads| ==> IsValidAsset(st.downloads[i]))
  }

  /** Every URL recorded is an absolute web address without whitespace, and every description is stripped. */
  lemma {:induction false} ScanIsValid(st: ScanState, lines: seq<string>)
    requires AllValid(st)
    ensures AllValid(ScanFrom(st, lines))
    decreases |lines|
  {
    if lines != [] {
      ScanIsValid(st, ButLast(lines));
      StepIsValid(ScanFrom(st, ButLast(lines)), lines[|lines| - 1]);
    }
  }

  lemma StepIsValid(st: ScanState, line: string)
    requires AllValid(st)
    ensures AllValid(StepLine(st, line))
  {
    var l, r := Trim(line), StepLine(st, line);
    forall i | 0 <= i < |r.pages|
      ensures IsValidPage(r.pages[i])
    {
      if i < |st.pages| {
        assert r.pages[i] == st.pages[i];
      } else {
        StepContribution(st, line);
        PageIsValid(l);
      }
    }
    forall i | 0 <= i < |r.downloads|
      ensures IsValidAsset(r.downloads[i])
    {
      if i < |st.downloads| {
        assert r.downloads[i] == st.downloads[i];
      } else {
        StepContribution(st, line);
        AssetIsValid(l);
      }
    }
  }

  // ---------------------------------------------------------------------------
  // How the headings relate

  lemma HeadingFacts(l: string)
    ensures IsUrlsHeading(l) ==> IsSectionHeading(l)
    ensures IsSubheading(l) ==> !IsSectionHeading(l)
    ensures IsAssetsHeading(l) ==> IsSubheading(l) && !IsPagesHeading(l)
    ensures IsPagesHeading(l) ==> IsSubheading(l)
  {
    if IsUrlsHeading(l) {
      SpaceRun(l, 2);
    }
    if IsAssetsHeading(l) {
      var w := SpaceRunEnd(l, 3);
      var assets, pages := "Downloadable Assets", "Pages Visited";
      assert LowerChar(l[w + 0]) == LowerChar(assets[0]) && assets[0] == 'D';
      assert LowerChar(pages[0]) == 'p';
      assert !MatchesAt(l, pages, w);
    }
  }

  // ---------------------------------------------------------------------------
  // What the flags mean

  /** Inside a URL section: the last second-level heading read is `## URLS REFERENCED`. */
  predicate InUrlSection(lines: seq<string>)
  {
    if lines == [] then false
    else
      var l := Trim(lines[|lines| - 1]);
      if IsSectionHeading(l) then IsUrlsHeading(l) else InUrlSection(ButLast(lines))
  }

  /** The last third-level heading read inside a URL section, if any. */
  function LastSubheading(lines: seq<string>): Option<string>
  {
    if lines == [] then None
    else
      var l := Trim(lines[|lines| - 1]);
      if IsSubheading(l) && InUrlSection(ButLast(lines)) then Some(l) else LastSubheading(ButLast(lines))
  }

  /** Under `### Downloadable Assets`: the last subheading read inside a URL section is that one. */
  predicate UnderAssets(lines: seq<string>)
  {
    LastSubheading(lines).Some? && IsAssetsHeading(LastSubheading(lines).value)
  }

  /** Under `### Pages Visited`: the last subheading read inside a URL section is that one. */
  predicate UnderPages(lines: seq<string>)
  {
    LastSubheading(lines).Some? && IsPagesHeading(LastSubheading(lines).value)
  }

  /**
   * The three flags after any prefix of the report: inside a URL section exactly
   * when the last `## ` heading is `## URLS REFERENCED`, and reading downloads
   * (pages) exactly when the last `###` heading read inside a URL section is
   * `### Downloadable Assets` (`### Pages Visited`). The subsection flags
   * survive the end of a URL section.
   */
  lemma {:induction false} FlagsMeaning(lines: seq<string>)
    ensures Scan(lines).inUrls == InUrlSection(lines)
    ensures Scan(lines).inDownloads == UnderAssets(lines)
    ensures Scan(lines).inPages == UnderPages(lines)
    decreases |lines|
  {
    if lines != [] {
      FlagsMeaning(ButLast(lines));
      HeadingFacts(Trim(lines[|lines| - 1]));
      if LastSubheading(ButLast(lines)).Some? {
        HeadingFacts(LastSubheading(ButLast(lines)).value);
      }
    }
  }

  /**
   * What one line adds: a page only while reading pages in a URL section, a
   * download only while reading downloads in one, and only from a line that is
   * no heading and matches the pattern; and such a line always adds its entry.
   */
  lemma StepContribution(st: ScanState, line: string)
    ensures var r := StepLine(st, line); var l := Trim(line);
      |r.pages| > |st.pages| ==>
        st.inUrls && st.inPages && !st.inDownloads && !IsSectionHeading(l) && !IsSubheading(l) &&
        PageMatch(l) == Some(r.pages[|st.pages|])
    ensures var r := StepLine(st, line); var l := Trim(line);
      |r.downloads| > |st.downloads| ==>
        st.inUrls && st.inDownloads && !IsSectionHeading(l) && !IsSubheading(l) &&
        AssetMatch(l) == Some(r.downloads[|st.downloads|])
    ensures var r := StepLine(st, line); var l := Trim(line);
      st.inUrls && st.inPages && !st.inDownloads && !IsSectionHeading(l) && !IsSubheading(l) ==>
        r.pages == st.pages + Opt(PageMatch(l)) && r.downloads == st.downloads
    ensures var r := StepLine(st, line); var l := Trim(line);
      st.inUrls && st.inDownloads && !IsSectionHeading(l) && !IsSubheading(l) ==>
        r.downloads == st.downloads + Opt(AssetMatch(l)) && r.pages == st.pages
  {
    HeadingFacts(Trim(line));
  }

  /**
   * Inside a URL section a `###` heading chooses the list: downloads for
   * `### Downloadable Assets`, pages for `### Pages Visited`, neither for any
   * other; it adds no entry and leaves the section open.
   */
  lemma SubheadingChoosesList(st: ScanState, line: string)
    requires st.inUrls && IsSubheading(Trim(line))
    ensures var r, l := StepLine(st, line), Trim(line);
      r.inUrls && r.inDownloads == IsAssetsHeading(l) && r.inPages == IsPagesHeading(l) &&
      r.pages == st.pages && r.downloads == st.downloads
  {
    HeadingFacts(Trim(line));
  }

  /** The loop keeps at most one subsection flag set. */
  lemma {:induction false} FlagsExclusive(lines: seq<string>)
    ensures !(Scan(lines).inDownloads && Scan(lines).inPages)
    decreases |lines|
  {
    if lines != [] {
      FlagsExclusive(ButLast(lines));
      HeadingFacts(Trim(lines[|lines| - 1]));
    }
  }

  // ---------------------------------------------------------------------------
  // Where entries can come from

  /** Splitting the report anywhere: the rest is scanned from the state the first part left. */
  lemma {:induction false} ScanFromAppend(st: ScanState, a: seq<string>, b: seq<string>)
    ensures ScanFrom(st, a + b) == ScanFrom(ScanFrom(st, a), b)
    decreases |b|
  {
    if b == [] {
      assert a + b == a;
    } else {
      var y := b[|b| - 1];
      SnocButLast(b);
      assert a + b == (a + ButLast(b)) + [y];
      ButLastSnoc(a + ButLast(b), y);
      ScanFromAppend(st, a, ButLast(b));
    }
  }

  /** The state with its flags and without the entries collected so far. */
  function Cleared(st: ScanState): (c: ScanState)
    ensures c.pages == [] && c.downloads == []
    ensures c.inUrls == st.inUrls && c.inDownloads == st.inDownloads && c.inPages == st.inPages
  {
    st.(pages := [], downloads := [])
  }

  /**
   * The entries collected so far never steer the scan: later lines add their
   * entries after the earlier ones, whatever those are, so entries keep the
   * order of the lines they come from.
   */
  lemma {:induction false} EntriesAppended(st: ScanState, lines: seq<string>)
    ensures var r, c := ScanFrom(st, lines), ScanFrom(Cleared(st), lines);
      r.inUrls == c.inUrls && r.inDownloads == c.inDownloads && r.inPages == c.inPages &&
      r.pages == st.pages + c.pages && r.downloads == st.downloads + c.downloads
    decreases |lines|
  {
    if lines == [] {
      assert st.pages + [] == st.pages && st.downloads + [] == st.downloads;
    } else {
      EntriesAppended(st, ButLast(lines));
      var line := lines[|lines| - 1];
      var r, c := ScanFrom(st, ButLast(lines)), ScanFrom(Cleared(st), ButLast(lines));
      StepShift(st.pages, st.downloads, r, c, line);
    }
  }

  lemma StepShift(ps: seq<PageRef>, ds: seq<AssetRef>, r: ScanState, c: ScanState, line: string)
    requires r.inUrls == c.inUrls && r.inDownloads == c.inDownloads && r.inPages == c.inPages
    requires r.pages == ps + c.pages && r.downloads == ds + c.downloads
    ensures var r', c' := StepLine(r, line), StepLine(c, line);
      r'.inUrls == c'.inUrls && r'.inDownloads == c'.inDownloads && r'.inPages == c'.inPages &&
      r'.pages == ps + c'.pages && r'.downloads == ds + c'.downloads
  {
    var l := Trim(line);
    if IsUrlsHeading(l) || (r.inUrls && IsSectionHeading(l)) || !r.inUrls ||
       IsAssetsHeading(l) || IsPagesHeading(l) || IsSubheading(l) {
    } else if r.inDownloads {
      AppendAssoc(ds, c.downloads, Opt(AssetMatch(l)));
    } else if r.inPages {
      AppendAssoc(ps, c.pages, Opt(PageMatch(l)));
    }
  }

  lemma AppendAssoc<T>(a: seq<T>, b: seq<T>, c: seq<T>)
    ensures a + (b + c) == (a + b) + c
  {
  }

  /** No line of `lines` is a `## URLS REFERENCED` heading. */
  predicate NoUrlsHeading(lines: seq<string>)
  {
    forall j :: 0 <= j < |lines| ==> !IsUrlsHeading(Trim(lines[j]))
  }

  /** Outside a URL section, lines change nothing until the next `## URLS REFERENCED` heading. */
  lemma {:induction false} OutsideChangesNothing(st: ScanState, lines: seq<string>)
    requires !st.inUrls && NoUrlsHeading(lines)
    ensures ScanFrom(st, lines) == st
    decreases |lines|
  {
    if lines != [] {
      assert forall j :: 0 <= j < |lines| - 1 ==> ButLast(lines)[j] == lines[j];
      OutsideChangesNothing(st, ButLast(lines));
      assert !IsUrlsHeading(Trim(lines[|lines| - 1]));
    }
  }

  /** A report without a `## URLS REFERENCED` heading references nothing. */
  lemma NoUrlSectionNoEntries(lines: seq<string>)
    requires NoUrlsHeading(lines)
    ensures Scan(lines).pages == [] && Scan(lines).downloads == []
  {
    OutsideChangesNothing(Start, lines);
  }

  /**
   * The next `## ` heading ends a URL section: after it, nothing is added
   * until another `## URLS REFERENCED` heading.
   */
  lemma SectionEndsAtNextHeading(st: ScanState, h: string, rest: seq<string>)
    requires st.inUrls && IsSectionHeading(Trim(h)) && !IsUrlsHeading(Trim(h)) && NoUrlsHeading(rest)
    ensures ScanFrom(st, [h] + rest).pages == st.pages
    ensures ScanFrom(st, [h] + rest).downloads == st.downloads
  {
    ScanFromAppend(st, [h], rest);
    assert ButLast([h]) == [];
    OutsideChangesNothing(StepLine(st, h), rest);
  }

  /** Line `j` is under `### Downloadable Assets` in a URL section, and yields download `d`. */
  predicate DownloadFrom(lines: seq<string>, j: int, d: AssetRef)
  {
    0 <= j < |lines| && InUrlSection(lines[..j]) && UnderAssets(lines[..j]) &&
    AssetMatch(Trim(lines[j])) == Some(d)
  }

  /** Line `j` is under `### Pages Visited` in a URL section, and yields page `p`. */
  predicate PageFrom(lines: seq<string>, j: int, p: PageRef)
  {
    0 <= j < |lines| && InUrlSection(lines[..j]) && UnderPages(lines[..j]) && !UnderAssets(lines[..j]) &&
    PageMatch(Trim(lines[j])) == Some(p)
  }

  lemma ScanNonEmpty(lines: seq<string>)
    requires Scan(lines).pages != [] || Scan(lines).downloads != []
    ensures lines != []
  {
  }

  /** One more line keeps the entries so far and adds at most one of each kind. */
  lemma ScanGrows(lines: seq<string>)
    requires lines != []
    ensures var before, r := Scan(ButLast(lines)), Scan(lines);
      before.pages <= r.pages && |r.pages| <= |before.pages| + 1 &&
      before.downloads <= r.downloads && |r.downloads| <= |before.downloads| + 1
  {
  }

  /** Every download comes from a matching line under `### Downloadable Assets` inside a URL section. */
  lemma {:induction false} DownloadsFromAssets(lines: seq<string>, k: nat)
    requires k < |Scan(lines).downloads|
    ensures exists j :: DownloadFrom(lines, j, Scan(lines).downloads[k])
    decreases |lines|
  {
    ScanNonEmpty(lines);
    if k < |Scan(ButLast(lines)).downloads| {
      DownloadsFromAssets(ButLast(lines), k);
      var j :| DownloadFrom(ButLast(lines), j, Scan(ButLast(lines)).downloads[k]);
      DownloadFromLonger(lines, j, k);
    } else {
      NewDownload(lines, k);
    }
  }

  lemma DownloadFromLonger(lines: seq<string>, j: int, k: nat)
    requires lines != [] && k < |Scan(ButLast(lines)).downloads|
    requires DownloadFrom(ButLast(lines), j, Scan(ButLast(lines)).downloads[k])
    ensures k < |Scan(lines).downloads| && DownloadFrom(lines, j, Scan(lines).downloads[k])
  {
    ScanGrows(lines);
    assert ButLast(lines)[..j] == lines[..j];
  }

  lemma NewDownload(lines: seq<string>, k: nat)
    requires lines != [] && |Scan(ButLast(lines)).downloads| <= k < |Scan(lines).downloads|
    ensures DownloadFrom(lines, |lines| - 1, Scan(lines).downloads[k])
  {
    ScanGrows(lines);
    var front := ButLast(lines);
    StepContribution(Scan(front), lines[|lines| - 1]);
    FlagsMeaning(front);
    assert lines[..|lines| - 1] == front;
  }

  /** Every page comes from a matching line under `### Pages Visited` inside a URL section. */
  lemma {:induction false} PagesFromPagesVisited(lines: seq<string>, k: nat)
    requires k < |Scan(lines).pages|
    ensures exists j :: PageFrom(lines, j, Scan(lines).pages[k])
    decreases |lines|
  {
    ScanNonEmpty(lines);
    if k < |Scan(ButLast(lines)).pages| {
      PagesFromPagesVisited(ButLast(lines), k);
      var j :| PageFrom(ButLast(lines), j, Scan(ButLast(lines)).pages[k]);
      PageFromLonger(lines, j, k);
    } else {
      NewPage(lines, k);
    }
  }

  lemma PageFromLonger(lines: seq<string>, j: int, k: nat)
    requires lines != [] && k < |Scan(ButLast(lines)).pages|
    requires PageFrom(ButLast(lines), j, Scan(ButLast(lines)).pages[k])
    ensures k < |Scan(lines).pages| && PageFrom(lines, j, Scan(lines).pages[k])
  {
    ScanGrows(lines);
    assert ButLast(lines)[..j] == lines[..j];
  }

  lemma NewPage(lines: seq<string>, k: nat)
    requires lines != [] && |Scan(ButLast(lines)).pages| <= k < |Scan(lines).pages|
    ensures PageFrom(lines, |lines| - 1, Scan(lines).pages[k])
  {
    ScanGrows(lines);
    var front := ButLast(lines);
    StepContribution(Scan(front), lines[|lines| - 1]);
    FlagsMeaning(front);
    assert lines[..|lines| - 1] == front;
  }

  // ---------------------------------------------------------------------------
  // The bullet lines the report format prescribes

  /** A "Pages Visited" bullet: `- URL: description`. */
  function PageLine(url: string, description: string): string
  {
    "- " + url + ": " + description
  }

  /** A "Downloadable Assets" bullet: `- URL: file-name — description`. */
  function AssetLine(url: string, name: string, description: string): string
  {
    "- " + url + ": " + name + " " + [EmDash] + " " + description
  }

  /** A description the line can carry back: non-empty and stripped. */
  predicate IsDescription(description: string)
  {
    description != [] && IsTrimmed(description)
  }

  lemma NotSpaceAtStart(t: string)
    requires IsDescription(t)
    ensures !IsSpace(t[0]) && !IsSpace(t[|t| - 1])
  {
  }

  /** The URL of a bullet line is found where the report writes it. */
  lemma UrlSpanAt(l: string, url: string)
    requires IsUrl(url) && 2 + |url| + 1 < |l|
    requires l[0] == '-' && l[1] == ' ' && l[2..2 + |url|] == url
    requires l[2 + |url|] == ':' && IsSpace(l[2 + |url| + 1])
    ensures UrlSpan(l) == Some((2 as nat, 2 + |url|))
  {
    var e := 2 + |url|;
    assert forall k :: 2 <= k < e ==> l[k] == url[k - 2];
    assert l[2] == url[0] && !IsSpace(l[2]);
    assert SpaceRunEnd(l, 2) == 2;
    MatchesAtSlice(l, "https://", 2, e);
    MatchesAtSlice(l, "http://", 2, e);
    WordRunOver(l, 2, e + 1);
  }

  lemma {:induction false} WordRunOver(l: string, i: nat, r: nat)
    requires i <= r < |l| && (forall k :: i <= k < r ==> !IsSpace(l[k])) && IsSpace(l[r])
    ensures WordRunEnd(l, i) == r
    decreases r - i
  {
    if i < r {
      WordRunOver(l, i + 1, r);
    }
  }

  /** The characters of a page bullet, where the scan looks for them. */
  predicate PageShaped(l: string, url: string, description: string)
  {
    var e := 2 + |url|;
    |l| == e + 2 + |description| &&
    l[0] == '-' && l[1] == ' ' && l[e] == ':' && l[e + 1] == ' ' &&
    l[2..e] == url && l[e + 2..] == description
  }

  lemma PageLineShape(url: string, description: string)
    ensures PageShaped(PageLine(url, description), url, description)
  {
    var l := PageLine(url, description);
    var e := 2 + |url|;
    assert l == "- " + url + (": " + description);
    assert l[2..e] == url;
    assert l[e + 2..] == description;
  }

  /** Reading a written page bullet gives back its URL and description. */
  lemma PageLineRoundTrip(url: string, description: string)
    requires IsUrl(url) && IsDescription(description)
    ensures Trim(PageLine(url, description)) == PageLine(url, description)
    ensures PageMatch(PageLine(url, description)) == Some(PageRef(url, description))
  {
    PageLineShape(url, description);
    PageOfShape(PageLine(url, description), url, description);
  }

  lemma PageOfShape(l: string, url: string, description: string)
    requires IsUrl(url) && IsDescription(description) && PageShaped(l, url, description)
    ensures Trim(l) == l
    ensures PageMatch(l) == Some(PageRef(url, description))
  {
    var e := 2 + |url|;
    NotSpaceAtStart(description);
    UrlSpanAt(l, url);
    assert l[e + 2] == description[0];
    TailAfterSpace(l, e + 1);
    StrippedFixpoint(description, Whitespace);
    PageMatchOf(l, 2, e, e + 2, PageRef(url, description));
    assert l[|l| - 1] == description[|description| - 1];
    StrippedFixpoint(l, Whitespace);
  }

  lemma PageMatchOf(l: string, a: nat, e: nat, t: nat, r: PageRef)
    requires UrlSpan(l) == Some((a, e)) && Tail(l, e + 1) == Some(t)
    requires r.url == l[a..e] && r.description == Trim(l[t..])
    ensures PageMatch(l) == Some(r)
  {
  }

  /** A single space before a non-space character: `\s+(.+)` captures from that character. */
  lemma TailAfterSpace(l: string, i: nat)
    requires i + 1 < |l| && IsSpace(l[i]) && !IsSpace(l[i + 1])
    ensures Tail(l, i) == Some(i + 1)
  {
    assert SpaceRunEnd(l, i + 1) == i + 1;
  }

  /** ` name — ` at `i`, with single spaces around the dash. */
  lemma NameSpanAt(l: string, i: nat, name: string)
    requires name != [] && forall k :: 0 <= k < |name| ==> !IsSpace(name[k])
    requires i + |name| + 3 <= |l| && IsSpace(l[i]) && l[i + 1..i + 1 + |name|] == name
    requires l[i + 1 + |name|] == ' ' && l[i + 2 + |name|] == EmDash
    ensures NameSpan(l, i) == Some((i + 1, i + 1 + |name|, i + 2 + |name|))
  {
    var w, n := i + 1, i + 1 + |name|;
    assert forall k :: 0 <= k < |name| ==> l[w + k] == name[k];
    assert l[w] == name[0];
    TailAfterSpace(l, i);
    WordRunOver(l, w, n);
    assert SpaceRunEnd(l, n + 1) == n + 1;
  }

  /** The characters of an asset bullet, where the scan looks for them. */
  predicate AssetShaped(l: string, url: string, name: string, description: string)
  {
    var e := 2 + |url|;
    var n := e + 2 + |name|;
    |l| == n + 3 + |description| &&
    l[0] == '-' && l[1] == ' ' && l[e] == ':' && l[e + 1] == ' ' &&
    l[n] == ' ' && l[n + 1] == EmDash && l[n + 2] == ' ' &&
    l[2..e] == url && l[e + 2..n] == name && l[n + 3..] == description
  }

  lemma AssetLineShape(url: string, name: string, description: string)
    ensures AssetShaped(AssetLine(url, name, description), url, name, description)
  {
    var l := AssetLine(url, name, description);
    var e := 2 + |url|;
    var n := e + 2 + |name|;
    assert l == "- " + url + (": " + name + (" " + [EmDash] + " " + description));
    assert l[2..e] == url;
    assert l[e + 2..n] == name;
    assert l[n + 3..] == description;
  }

  /** Reading a written asset bullet gives back its URL, file name and description. */
  lemma AssetLineRoundTrip(url: string, name: string, description: string)
    requires IsUrl(url) && IsDescription(description)
    requires name != [] && forall k :: 0 <= k < |name| ==> !IsSpace(name[k])
    ensures Trim(AssetLine(url, name, description)) == AssetLine(url, name, description)
    ensures AssetMatch(AssetLine(url, name, description)) == Some(AssetRef(url, name, description))
  {
    AssetLineShape(url, name, description);
    AssetOfShape(AssetLine(url, name, description), url, name, description);
  }

  lemma AssetOfShape(l: string, url: string, name: string, description: string)
    requires IsUrl(url) && IsDescription(description)
    requires name != [] && forall k :: 0 <= k < |name| ==> !IsSpace(name[k])
    requires AssetShaped(l, url, name, description)
    ensures Trim(l) == l
    ensures AssetMatch(l) == Some(AssetRef(url, name, description))
  {
    var e := 2 + |url|;
    var n := e + 2 + |name|;
    NotSpaceAtStart(description);
    UrlSpanAt(l, url);
    NameSpanAt(l, e + 1, name);
    assert l[n + 3] == description[0];
    TailAfterSpace(l, n + 2);
    StrippedFixpoint(description, Whitespace);
    AssetMatchOf(l, 2, e, e + 2, n, n + 1, n + 3, AssetRef(url, name, description));
    assert l[|l| - 1] == description[|description| - 1];
    StrippedFixpoint(l, Whitespace);
  }

  lemma AssetMatchOf(l: string, a: nat, e: nat, w: nat, n: nat, d: nat, t: nat, r: AssetRef)
    requires UrlSpan(l) == Some((a, e)) && NameSpan(l, e + 1) == Some((w, n, d)) && Tail(l, d + 1) == Some(t)
    requires r.url == l[a..e] && r.suggestedFilename == l[w..n] && r.description == Trim(l[t..])
    ensures AssetMatch(l) == Some(r)
  {
    assert AssetMatch(l) == Some(AssetRef(l[a..e], l[w..n], Trim(l[t..])));
  }

  // ---------------------------------------------------------------------------
  // The subsection flags outlive a URL section

  lemma ScanSnoc(lines: seq<string>, x: string)
    ensures Scan(lines + [x]) == StepLine(Scan(lines), x)
  {
    ButLastSnoc(lines, x);
  }

  /** A heading written with one space is recognised. */
  lemma HeadingWritten(hashes: string, title: string)
    requires title != [] && !IsSpace(title[0])
    ensures HeadingIs(hashes + " " + title, hashes, title)
  {
    var l := hashes + " " + title;
    var w := |hashes| + 1;
    assert l[..|hashes|] == hashes;
    assert l[w] == title[0];
    assert SpaceRunEnd(l, w) == w;
    assert forall k :: 0 <= k < |title| ==> l[w + k] == title[k];
  }

  lemma ScanOfSeven(a: string, b: string, c: string, d: string, e: string, f: string, g: string)
    ensures Scan([a]) == StepLine(Start, a)
    ensures Scan([a, b]) == StepLine(Scan([a]), b)
    ensures Scan([a, b, c]) == StepLine(Scan([a, b]), c)
    ensures Scan([a, b, c, d]) == StepLine(Scan([a, b, c]), d)
    ensures Scan([a, b, c, d, e]) == StepLine(Scan([a, b, c, d]), e)
    ensures Scan([a, b, c, d, e, f]) == StepLine(Scan([a, b, c, d, e]), f)
    ensures Scan([a, b, c, d, e, f, g]) == StepLine(Scan([a, b, c, d, e, f]), g)
  {
    assert ButLast([a]) == [];
    assert ScanFrom(Start, [a]) == StepLine(ScanFrom(Start, []), a);
    assert ButLast([a, b]) == [a];
    assert ButLast([a, b, c]) == [a, b];
    assert ButLast([a, b, c, d]) == [a, b, c];
    assert ButLast([a, b, c, d, e]) == [a, b, c, d];
    assert ButLast([a, b, c, d, e, f]) == [a, b, c, d, e];
    assert ButLast([a, b, c, d, e, f, g]) == [a, b, c, d, e, f];
  }

  lemma Pair<T>(x: T, y: T)
    ensures [x] + [y] == [x, y]
  {
  }

  lemma BulletIsNoHeading(l: string)
    requires l != [] && l[0] == '-'
    ensures !IsUrlsHeading(l) && !IsSectionHeading(l) && !IsSubheading(l)
  {
  }

  /**
   * A second URL section goes on reading into the list the first one was
   * reading when it ended: a page written between the two sections is
   * skipped, and a page after the second heading is kept without a new
   * `### Pages Visited`.
   */
  lemma FlagsOutliveSection(h: string, p: string, n: string, l1: string, l2: string, l3: string)
    requires IsUrlsHeading(Trim(h)) && IsPagesHeading(Trim(p))
    requires IsSectionHeading(Trim(n)) && !IsUrlsHeading(Trim(n))
    requires PageMatch(Trim(l1)).Some? && PageMatch(Trim(l3)).Some?
    requires forall l :: l in [l1, l2, l3] ==> Trim(l) != [] && Trim(l)[0] == '-'
    ensures Scan([h, p, l1, n, l2, h, l3]).pages == [PageMatch(Trim(l1)).value, PageMatch(Trim(l3)).value]
  {
    assert l1 in [l1, l2, l3] && l2 in [l1, l2, l3] && l3 in [l1, l2, l3];
    BulletIsNoHeading(Trim(l1));
    BulletIsNoHeading(Trim(l2));
    BulletIsNoHeading(Trim(l3));
    HeadingFacts(Trim(p));
    var s1 := StepLine(Start, h);
    assert s1 == ScanState(true, false, false, [], []);
    var s2 := StepLine(s1, p);
    assert s2 == ScanState(true, false, true, [], []);
    var s3 := StepLine(s2, l1);
    assert s3 == ScanState(true, false, true, [PageMatch(Trim(l1)).value], []);
    var s4 := StepLine(s3, n);
    assert s4 == s3.(inUrls := false);
    var s5 := StepLine(s4, l2);
    assert s5 == s4;
    var s6 := StepLine(s5, h);
    assert s6 == s3;
    ScanOfSeven(h, p, l1, n, l2, h, l3);
    assert Scan([h, p, l1, n, l2, h]) == s3;
    var x1, x3 := PageMatch(Trim(l1)).value, PageMatch(Trim(l3)).value;
    StepContribution(s3, l3);
    assert StepLine(s3, l3).pages == [x1] + [x3];
    Pair(x1, x3);
  }
}
