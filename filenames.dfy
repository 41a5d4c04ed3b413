/**
 * Where the downloader saves what a report references: the file name it
 * derives from the suggested name or the URL path, the subfolder that name
 * chooses, the name a page is saved under, and the per-state counts of the
 * download statuses. The URL path that `urllib.parse.urlparse` would extract
 * is an input: the parser is not part of this model.
 */
module Filenames {
  import opened StrOps
  import opened Downloads

  /** The extensions saved under `forms/`; anything else goes to `pages/`. */
  const FormExtensions: set<string> := {".pdf", ".doc", ".docx", ".xls", ".xlsx", ".odt", ".rtf"}

  /** The default `max_len` of a file name. */
  const MaxLen: nat := 80

  /** The name used when nothing of the derived name survives. */
  const Fallback := "download"

  // ---------------------------------------------------------------------------
  // Pieces of names

  /** `s.split("?")[0]`: the text before the first '?'. */
  function BeforeQuery(s: string): (r: string)
    ensures r <= s && '?' !in r
    ensures |r| < |s| ==> s[|r|] == '?'
  {
    if '?' in s then s[..FirstIndex(s, '?')] else s
  }

  /** `os.path.basename(s)`: the longest suffix of `s` without '/'. */
  function Basename(s: string): (r: string)
    ensures |r| <= |s| && '/' !in r
    ensures forall k :: 0 <= k < |r| ==> r[k] == s[|s| - |r| + k]
    ensures |r| < |s| ==> s[|s| - |r| - 1] == '/'
  {
    if s == [] || s[|s| - 1] == '/' then []
    else Basename(ButLast(s)) + [s[|s| - 1]]
  }

  /** The characters `[\w.\-]` accepts in ASCII text: letters, digits, '_', '.' and '-'. */
  predicate IsSafeChar(c: char)
  {
    'a' <= c <= 'z' || 'A' <= c <= 'Z' || '0' <= c <= '9' || c == '_' || c == '.' || c == '-'
  }

  predicate IsSafeName(s: string)
  {
    forall k :: 0 <= k < |s| ==> IsSafeChar(s[k])
  }

  /** `re.sub(r'[^\w.\-]', '_', s)`: every other character becomes '_'. */
  function ReplaceUnsafe(s: string): (r: string)
    ensures |r| == |s| && IsSafeName(r)
    ensures forall k :: 0 <= k < |s| ==> r[k] == if IsSafeChar(s[k]) then s[k] else '_'
  {
    if s == [] then []
    else
      var c := s[|s| - 1];
      ReplaceUnsafe(ButLast(s)) + [if IsSafeChar(c) then c else '_']
  }

  /** `s[:n]`. */
  function Truncate(s: string, n: nat): (r: string)
    ensures r <= s && |r| <= n
    ensures |s| <= n ==> r == s
  {
    if |s| <= n then s else s[..n]
  }

  // ---------------------------------------------------------------------------
  // sanitize_filename

  /** The suggested name is taken when it is non-empty, has a '.' and does not start with "http". */
  predicate LooksLikeFilename(given: string)
  {
    given != [] && '.' in given && !StartsWith(given, "http")
  }

  /** The name derived from the URL path: its last segment, or "page", with ".html" when it has no '.'. */
  function PathName(path: string): (name: string)
    ensures '.' in name
  {
    var b := Basename(TrimRight(path, {'/'}));
    var n := if b == [] then "page" else b;
    if '.' in n then n else
      assert (n + ".html")[|n|] == '.';
      n + ".html"
  }

  /** The name chosen before cleaning: a suggestion that looks like a file name, else the URL path's name. */
  function Candidate(path: string, suggested: Option<string>): string
  {
    var given := if suggested.Some? then suggested.value else "";
    if LooksLikeFilename(given) then Basename(BeforeQuery(given)) else PathName(path)
  }

  /** The chosen name cut at '?', with unsafe characters replaced, truncated, and "download" when nothing is left. */
  function Cleaned(name: string, maxLen: nat): (r: string)
    ensures r != [] && IsSafeName(r)
    ensures |r| <= maxLen || r == Fallback
  {
    var c := Truncate(ReplaceUnsafe(BeforeQuery(name)), maxLen);
    if c == [] then Fallback else c
  }

  /** `sanitize_filename(url, suggested, max_len)`, with the URL given by its path. */
  function SanitizeFilename(path: string, suggested: Option<string>, maxLen: nat): (name: string)
    ensures name != [] && IsSafeName(name)
    ensures |name| <= maxLen || name == Fallback
    ensures |name| <= if maxLen >= |Fallback| then maxLen else |Fallback|
    ensures '?' !in name && '/' !in name
  {
    Cleaned(Candidate(path, suggested), maxLen)
  }

  lemma {:induction false} BasenameOfPlain(s: string)
    requires '/' !in s
    ensures Basename(s) == s
    decreases |s|
  {
    if s != [] {
      assert '/' !in ButLast(s);
      BasenameOfPlain(ButLast(s));
      SnocButLast(s);
    }
  }

  /** The basename of `dir + "/" + name` is `name`. */
  lemma {:induction false} BasenameAfterSlash(dir: string, name: string)
    requires '/' !in name
    ensures Basename(dir + "/" + name) == name
    decreases |name|
  {
    var s := dir + "/" + name;
    if name == [] {
      assert s[|s| - 1] == '/';
    } else {
      assert ButLast(s) == dir + "/" + ButLast(name);
      assert '/' !in ButLast(name);
      BasenameAfterSlash(dir, ButLast(name));
      SnocButLast(name);
    }
  }

  lemma ReplaceKeepsSafe(s: string)
    requires IsSafeName(s)
    ensures ReplaceUnsafe(s) == s
  {
  }

  /** A name that is already clean and short enough comes out unchanged. */
  lemma CleanedOfClean(name: string, maxLen: nat)
    requires name != [] && IsSafeName(name) && |name| <= maxLen
    ensures Cleaned(name, maxLen) == name
  {
    SafeHasNoSlash(name);
    ReplaceKeepsSafe(name);
  }

  lemma SafeHasNoSlash(name: string)
    requires IsSafeName(name)
    ensures '/' !in name && '?' !in name
  {
  }

  /** A suggested name that looks like a file name and is already clean is used as it is. */
  lemma SuggestedNameKept(path: string, name: string, maxLen: nat)
    requires LooksLikeFilename(name) && IsSafeName(name) && |name| <= maxLen
    ensures SanitizeFilename(path, Some(name), maxLen) == name
  {
    SafeHasNoSlash(name);
    BasenameOfPlain(name);
    CleanedOfClean(name, maxLen);
  }

  /** Only the basename before any '?' of a suggested file name counts. */
  lemma SuggestedNameCut(path: string, dir: string, name: string, query: string, maxLen: nat)
    requires LooksLikeFilename(dir + "/" + name + "?" + query) && '?' !in dir
    requires IsSafeName(name) && name != [] && |name| <= maxLen
    ensures SanitizeFilename(path, Some(dir + "/" + name + "?" + query), maxLen) == name
  {
    var g := dir + "/" + name + "?" + query;
    SafeHasNoSlash(name);
    QueryCut(dir + "/" + name, query);
    BasenameAfterSlash(dir, name);
    assert Candidate(path, Some(g)) == name;
    CleanedOfClean(name, maxLen);
  }

  /** The text before the first '?' of `head + "?" + query`, when `head` has none, is `head`. */
  lemma QueryCut(head: string, query: string)
    requires '?' !in head
    ensures BeforeQuery(head + "?" + query) == head
  {
    var g := head + "?" + query;
    assert g[|head|] == '?' && g[..|head|] == head;
    FirstIndexUnique(g, '?', |head|);
  }

  /** A suggested name that does not look like a file name is ignored: the URL path decides. */
  lemma SuggestionIgnored(path: string, name: string, maxLen: nat)
    requires !LooksLikeFilename(name)
    ensures SanitizeFilename(path, Some(name), maxLen) == SanitizeFilename(path, None, maxLen)
  {
  }

  lemma SanitizeOfPath(path: string, maxLen: nat)
    ensures SanitizeFilename(path, None, maxLen) == Cleaned(PathName(path), maxLen)
  {
    assert !LooksLikeFilename("");
  }

  lemma PathNameOfSegment(path: string, b: string)
    requires Basename(TrimRight(path, {'/'})) == b
    ensures b != [] && '.' in b ==> PathName(path) == b
    ensures b != [] && '.' !in b ==> PathName(path) == b + ".html"
    ensures b == [] ==> PathName(path) == "page.html"
  {
    assert "page" + ".html" == "page.html";
    assert '.' !in "page";
  }

  /** The path with trailing slashes removed is `dir + "/" + name`. */
  lemma SegmentOfPath(dir: string, name: string, slashes: nat)
    requires name != [] && '/' !in name
    ensures Basename(TrimRight(dir + "/" + name + Slashes(slashes), {'/'})) == name
  {
    var body := dir + "/" + name;
    assert body + Slashes(slashes) == dir + "/" + name + Slashes(slashes);
    TrimRightSuffix(body, Slashes(slashes), {'/'});
    assert body[|body| - 1] == name[|name| - 1];
    assert TrimRight(body, {'/'}) == body;
    BasenameAfterSlash(dir, name);
  }

  /** Without a usable suggestion, the last segment of the URL path is the name, trailing slashes aside. */
  lemma PathSegmentKept(dir: string, name: string, slashes: nat, maxLen: nat)
    requires name != [] && '.' in name && IsSafeName(name) && |name| <= maxLen
    ensures SanitizeFilename(dir + "/" + name + Slashes(slashes), None, maxLen) == name
  {
    var path := dir + "/" + name + Slashes(slashes);
    SafeHasNoSlash(name);
    SegmentOfPath(dir, name, slashes);
    PathNameOfSegment(path, name);
    SanitizeOfPath(path, maxLen);
    CleanedOfClean(name, maxLen);
  }

  /** A last segment without a '.' is saved as HTML. */
  lemma PathSegmentWithoutDot(dir: string, name: string, slashes: nat, maxLen: nat)
    requires name != [] && '.' !in name && IsSafeName(name) && |name| + 5 <= maxLen
    ensures SanitizeFilename(dir + "/" + name + Slashes(slashes), None, maxLen) == name + ".html"
  {
    var path := dir + "/" + name + Slashes(slashes);
    SafeHasNoSlash(name);
    SegmentOfPath(dir, name, slashes);
    PathNameOfSegment(path, name);
    SanitizeOfPath(path, maxLen);
    HtmlIsSafe();
    SafeAppend(name, ".html");
    CleanedOfClean(name + ".html", maxLen);
  }

  /** A URL whose path has no segment at all is saved as "page.html". */
  lemma EmptyPathIsPage(slashes: nat, maxLen: nat)
    requires maxLen >= 9
    ensures SanitizeFilename(Slashes(slashes), None, maxLen) == "page.html"
  {
    var path := Slashes(slashes);
    TrimRightSuffix([], path, {'/'});
    assert [] + path == path;
    PathNameOfSegment(path, []);
    SanitizeOfPath(path, maxLen);
    HtmlIsSafe();
    CleanedOfClean("page.html", maxLen);
  }

  lemma HtmlIsSafe()
    ensures IsSafeName(".html") && IsSafeName("page.html")
  {
  }

  lemma SafeAppend(a: string, b: string)
    requires IsSafeName(a) && IsSafeName(b)
    ensures IsSafeName(a + b)
  {
  }

  /** A run of `n` slashes. */
  function Slashes(n: nat): (s: string)
    ensures |s| == n && AllIn(s, {'/'})
  {
    if n == 0 then [] else Slashes(n - 1) + "/"
  }

  /** A sanitized name is a fixpoint: given back as the suggestion, it comes out unchanged. */
  lemma SanitizeIdempotent(path: string, suggested: Option<string>, maxLen: nat, path2: string)
    requires LooksLikeFilename(SanitizeFilename(path, suggested, maxLen))
    ensures var n := SanitizeFilename(path, suggested, maxLen); SanitizeFilename(path2, Some(n), maxLen) == n
  {
    var n := SanitizeFilename(path, suggested, maxLen);
    assert '.' !in Fallback;
    SuggestedNameKept(path2, n, maxLen);
  }

  // ---------------------------------------------------------------------------
  // get_destination

  /** The index of the last `c` in `s`. */
  function LastIndex(s: string, c: char): (r: Option<nat>)
    ensures r.None? <==> c !in s
    ensures r.Some? ==> r.value < |s| && s[r.value] == c
    ensures r.Some? ==> forall k :: r.value < k < |s| ==> s[k] != c
  {
    if s == [] then None
    else if s[|s| - 1] == c then Some(|s| - 1)
    else
      var r := LastIndex(ButLast(s), c);
      assert forall k :: 0 <= k < |s| - 1 ==> ButLast(s)[k] == s[k];
      r
  }

  /**
   * `os.path.splitext(filename)[1]`: from the last '.' of the basename on,
   * unless only dots come before that '.' in the basename (a leading-dot name
   * has no extension).
   */
  function Extension(filename: string): (ext: string)
    ensures ext == [] || (ext[0] == '.' && forall k :: 1 <= k < |ext| ==> ext[k] != '.' && ext[k] != '/')
    ensures |ext| <= |filename|
    ensures forall k :: 0 <= k < |ext| ==> ext[k] == filename[|filename| - |ext| + k]
  {
    var b := Basename(filename);
    var d := LastIndex(b, '.');
    if d.None? || AllIn(b[..d.value], {'.'}) then []
    else b[d.value..]
  }

  /** `get_destination`: the path below the data folder, as its three segments. */
  function Destination(folderName: string, filename: string): (dest: seq<string>)
    ensures |dest| == 3 && dest[0] == folderName && dest[2] == filename
    ensures dest[1] == "forms" <==> Lower(Extension(filename)) in FormExtensions
    ensures dest[1] != "forms" ==> dest[1] == "pages"
  {
    if Lower(Extension(filename)) in FormExtensions then [folderName, "forms", filename]
    else [folderName, "pages", filename]
  }

  /** A single '.' followed by no further '.' or '/'. */
  predicate IsExtension(ext: string)
  {
    ext != [] && ext[0] == '.' && '/' !in ext && forall k :: 1 <= k < |ext| ==> ext[k] != '.'
  }

  /**
   * The extension of `dir + "/" + stem + ext` is `ext` when `stem` has a
   * character other than '.' and no '/'.
   */
  lemma ExtensionOf(dir: string, stem: string, ext: string)
    requires '/' !in stem && !AllIn(stem, {'.'}) && IsExtension(ext)
    ensures Extension(dir + "/" + stem + ext) == ext
  {
    NameUnderDir(dir, stem, ext);
    ExtensionOfName(dir + "/" + stem + ext, stem, ext);
  }

  lemma ExtensionOfName(filename: string, stem: string, ext: string)
    requires Basename(filename) == stem + ext
    requires !AllIn(stem, {'.'}) && IsExtension(ext)
    ensures Extension(filename) == ext
  {
    LastOfExtension(stem, ext);
    PrefixOfConcat(stem, ext);
  }

  lemma LastOfExtension(stem: string, ext: string)
    requires IsExtension(ext)
    ensures LastIndex(stem + ext, '.') == Some(|stem|)
  {
    var s := stem + ext;
    assert s[|stem|] == '.';
    var r := LastIndex(s, '.');
    assert r.Some? && s[r.value] == '.';
    assert r.value >= |stem|;
  }

  /** A name whose basename is dots followed by its only extension-like part has no extension: ".pdf" goes to `pages/`. */
  lemma LeadingDotsNoExtension(dir: string, dots: string, ext: string)
    requires AllIn(dots, {'.'}) && IsExtension(ext)
    ensures Extension(dir + "/" + dots + ext) == []
  {
    NameUnderDir(dir, dots, ext);
    LastOfExtension(dots, ext);
    PrefixOfConcat(dots, ext);
  }

  lemma NameUnderDir(dir: string, stem: string, ext: string)
    requires '/' !in stem && '/' !in ext
    ensures Basename(dir + "/" + stem + ext) == stem + ext
  {
    NoSlashConcat(stem, ext);
    BasenameAfterSlash(dir, stem + ext);
    AppendAssoc3(dir + "/", stem, ext);
  }

  lemma NoSlashConcat(a: string, b: string)
    requires '/' !in a && '/' !in b
    ensures '/' !in a + b
  {
  }

  lemma AppendAssoc3<T>(a: seq<T>, b: seq<T>, c: seq<T>)
    ensures a + b + c == a + (b + c)
  {
  }

  lemma PrefixOfConcat<T>(a: seq<T>, b: seq<T>)
    ensures (a + b)[..|a|] == a && (a + b)[|a|..] == b
  {
  }

  /** The destination folder depends on the extension only, in either case: `forms/` exactly for a form extension. */
  lemma DestinationOf(folderName: string, dir: string, stem: string, ext: string)
    requires '/' !in stem && !AllIn(stem, {'.'}) && IsExtension(ext)
    ensures Destination(folderName, dir + "/" + stem + ext)[1] == if Lower(ext) in FormExtensions then "forms" else "pages"
  {
    ExtensionOf(dir, stem, ext);
  }

  // ---------------------------------------------------------------------------
  // Page file names

  /** The rule for a page's file name: it keeps an ".html" ending, and otherwise loses its trailing dots and gains ".html". */
  function HtmlName(name: string): (f: string)
    ensures EndsWith(f, ".html")
    ensures EndsWith(name, ".html") ==> f == name
    ensures !EndsWith(name, ".html") ==> f == TrimRight(name, {'.'}) + ".html"
    ensures |f| <= |name| + 5
  {
    if EndsWith(name, ".html") then name
    else
      var stem := TrimRight(name, {'.'});
      HtmlEnding(stem);
      stem + ".html"
  }

  lemma HtmlNameKeepsSafe(name: string)
    requires IsSafeName(name)
    ensures IsSafeName(HtmlName(name))
  {
    if !EndsWith(name, ".html") {
      var stem := TrimRight(name, {'.'});
      TrimRightRemoved(name, {'.'});
      assert forall k :: 0 <= k < |stem| ==> stem[k] == name[k];
      HtmlIsSafe();
      SafeAppend(stem, ".html");
    }
  }

  lemma HtmlEnding(stem: string)
    ensures EndsWith(stem + ".html", ".html")
  {
    PrefixOfConcat(stem, ".html");
  }

  /** A name without the ".html" ending loses exactly its trailing dots: "report." and "report..." both give "report.html". */
  lemma HtmlNameOfDotted(stem: string, dots: string)
    requires stem == [] || stem[|stem| - 1] != '.'
    requires AllIn(dots, {'.'}) && !EndsWith(stem + dots, ".html")
    ensures HtmlName(stem + dots) == stem + ".html"
  {
    TrimRightSuffix(stem, dots, {'.'});
  }

  /** A page file name is its own page file name. */
  lemma HtmlNameIdempotent(name: string)
    ensures HtmlName(HtmlName(name)) == HtmlName(name)
  {
  }

  /** The file name a page is saved under, from the path of its URL. */
  function PageFilename(path: string): (f: string)
    ensures EndsWith(f, ".html") && IsSafeName(f) && '/' !in f
    ensures |f| <= MaxLen + 5
  {
    var f := HtmlName(SanitizeFilename(path, None, MaxLen));
    HtmlNameKeepsSafe(SanitizeFilename(path, None, MaxLen));
    SafeHasNoSlash(f);
    f
  }

  // ---------------------------------------------------------------------------
  // The downloads of one state, in the order they are made

  datatype Kind = Asset | Page

  /** One download: what it is, its URL, where it is saved below the data folder, and its description. */
  datatype Target = Target(kind: Kind, url: string, dest: seq<string>, description: string)

  /** The download of an asset: the file name its suggestion or URL gives, in the folder its extension chooses. */
  function AssetTarget(folder: string, a: AssetRef, pathOf: string -> string): Target
  {
    Target(Asset, a.url, Destination(folder, SanitizeFilename(pathOf(a.url), Some(a.suggestedFilename), MaxLen)), a.description)
  }

  /** The download of a page: always under `pages/`, with a name ending in ".html". */
  function PageTarget(folder: string, p: PageRef, pathOf: string -> string): (t: Target)
    ensures t.kind == Page && t.url == p.url && t.description == p.description
    ensures t.dest == [folder, "pages", PageFilename(pathOf(p.url))]
    ensures EndsWith(t.dest[2], ".html") && IsSafeName(t.dest[2])
  {
    Target(Page, p.url, [folder, "pages", PageFilename(pathOf(p.url))], p.description)
  }

  /** The downloads of the assets, in order. */
  function AssetTargetsOf(folder: string, ds: seq<AssetRef>, pathOf: string -> string): (r: seq<Target>)
    ensures |r| == |ds|
  {
    if ds == [] then [] else AssetTargetsOf(folder, ButLast(ds), pathOf) + [AssetTarget(folder, ds[|ds| - 1], pathOf)]
  }

  /** The downloads of the pages, in order. */
  function PageTargetsOf(folder: string, ps: seq<PageRef>, pathOf: string -> string): (r: seq<Target>)
    ensures |r| == |ps|
  {
    if ps == [] then [] else PageTargetsOf(folder, ButLast(ps), pathOf) + [PageTarget(folder, ps[|ps| - 1], pathOf)]
  }

  /** The first loop of `process_state`: one download per asset, in order. */
  method AssetTargets(folder: string, ds: seq<AssetRef>, pathOf: string -> string) returns (targets: seq<Target>)
    ensures targets == AssetTargetsOf(folder, ds, pathOf)
  {
    targets := [];
    for i := 0 to |ds|
      invariant targets == AssetTargetsOf(folder, ds[..i], pathOf)
    {
      ButLastOfTake(ds, i);
      var a := ds[i];
      var filename := SanitizeFilename(pathOf(a.url), Some(a.suggestedFilename), MaxLen);
      var dest := Destination(folder, filename);
      targets := targets + [Target(Asset, a.url, dest, a.description)];
    }
    TakeAll(ds);
  }

  /** The second loop of `process_state`: one download per page, in order. */
  method PageTargets(folder: string, ps: seq<PageRef>, pathOf: string -> string) returns (targets: seq<Target>)
    ensures targets == PageTargetsOf(folder, ps, pathOf)
  {
    targets := [];
    for i := 0 to |ps|
      invariant targets == PageTargetsOf(folder, ps[..i], pathOf)
    {
      ButLastOfTake(ps, i);
      var p := ps[i];
      var filename := SanitizeFilename(pathOf(p.url), None, MaxLen);
      if !EndsWith(filename, ".html") {
        filename := TrimRight(filename, {'.'}) + ".html";
      }
      targets := targets + [Target(Page, p.url, [folder, "pages", filename], p.description)];
    }
    TakeAll(ps);
  }

  /**
   * The downloads `process_state` makes for one state: every downloadable
   * asset, then every page. `pathOf` gives the path part of a URL. A
   * placeholder report (no lists at all) downloads nothing.
   */
  function TargetsOf(folder: string, pages: Option<seq<PageRef>>, downloads: Option<seq<AssetRef>>, pathOf: string -> string): (r: seq<Target>)
    ensures pages.None? && downloads.None? ==> r == []
  {
    if pages.None? && downloads.None? then []
    else
      var ds := if downloads.Some? then downloads.value else [];
      var ps := if pages.Some? then pages.value else [];
      AssetTargetsOf(folder, ds, pathOf) + PageTargetsOf(folder, ps, pathOf)
  }

  /** The loops of `process_state` over the lists of one report. */
  method Targets(folder: string, pages: Option<seq<PageRef>>, downloads: Option<seq<AssetRef>>, pathOf: string -> string)
    returns (targets: seq<Target>)
    ensures targets == TargetsOf(folder, pages, downloads, pathOf)
  {
    if pages.None? && downloads.None? {
      return [];
    }
    var ds := if downloads.Some? then downloads.value else [];
    var ps := if pages.Some? then pages.value else [];
    var assets := AssetTargets(folder, ds, pathOf);
    var visits := PageTargets(folder, ps, pathOf);
    targets := assets + visits;
  }

  /** The `i`th asset download is the `i`th asset's. */
  lemma {:induction false} AssetTargetAt(folder: string, ds: seq<AssetRef>, pathOf: string -> string, i: nat)
    requires i < |ds|
    ensures AssetTargetsOf(folder, ds, pathOf)[i] == AssetTarget(folder, ds[i], pathOf)
    decreases |ds|
  {
    if i < |ds| - 1 {
      AssetTargetAt(folder, ButLast(ds), pathOf, i);
    }
  }

  /** The `i`th page download is the `i`th page's. */
  lemma {:induction false} PageTargetAt(folder: string, ps: seq<PageRef>, pathOf: string -> string, i: nat)
    requires i < |ps|
    ensures PageTargetsOf(folder, ps, pathOf)[i] == PageTarget(folder, ps[i], pathOf)
    decreases |ps|
  {
    if i < |ps| - 1 {
      PageTargetAt(folder, ButLast(ps), pathOf, i);
    }
  }

  /** For a report that is not a placeholder, there is one download per asset and per page. */
  lemma TargetsCount(folder: string, pages: seq<PageRef>, downloads: seq<AssetRef>, pathOf: string -> string)
    ensures |TargetsOf(folder, Some(pages), Some(downloads), pathOf)| == |downloads| + |pages|
  {
  }

  /** The assets come first, in order. */
  lemma TargetsAssetsFirst(folder: string, pages: seq<PageRef>, downloads: seq<AssetRef>, pathOf: string -> string, i: nat)
    requires i < |downloads|
    ensures TargetsOf(folder, Some(pages), Some(downloads), pathOf)[i] == AssetTarget(folder, downloads[i], pathOf)
  {
    AssetTargetAt(folder, downloads, pathOf, i);
    IndexOfConcat(AssetTargetsOf(folder, downloads, pathOf), PageTargetsOf(folder, pages, pathOf), i);
  }

  /** The pages follow, in order (each under `pages/` with a safe name ending in ".html", by `PageTarget`). */
  lemma TargetsPagesAfter(folder: string, pages: seq<PageRef>, downloads: seq<AssetRef>, pathOf: string -> string, i: nat)
    requires i < |pages|
    ensures TargetsOf(folder, Some(pages), Some(downloads), pathOf)[|downloads| + i] == PageTarget(folder, pages[i], pathOf)
  {
    var a := AssetTargetsOf(folder, downloads, pathOf);
    var b := PageTargetsOf(folder, pages, pathOf);
    assert TargetsOf(folder, Some(pages), Some(downloads), pathOf) == a + b;
    AppendIndexRight(a, b, i);
    PageTargetAt(folder, pages, pathOf, i);
  }

  lemma AppendIndexRight<T>(a: seq<T>, b: seq<T>, i: nat)
    requires i < |b|
    ensures (a + b)[|a| + i] == b[i]
  {
  }

  lemma IndexOfConcat<T>(a: seq<T>, b: seq<T>, i: nat)
    requires i < |a| + |b|
    ensures (a + b)[i] == if i < |a| then a[i] else b[i - |a|]
  {
  }
}
