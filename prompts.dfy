/**
 * The per-state prompt: the master template with the state's name and
 * start URL filled in, and a block of notes for the state inserted before
 * the section that lists the data to collect. Reading the template and the
 * list of states and writing the prompt files are left to the caller.
 */
module Prompts {
  import opened StrOps

  /** The start URL used when a state has none recorded. */
  const FallbackUrl := "https://www.fns.usda.gov/snap/state-directory"

  const NamePattern := "{STATE_NAME}"
  const UrlPattern := "{SNAP_URL}"

  /** The heading of the notes block, and the text the block is inserted before. */
  const NotesHeading := "\n---\n\nADDITIONAL CONTEXT FOR THIS STATE\n"
  const Anchor := "\n---\n\nDATA TO COLLECT"

  /**
   * The fields of a state the prompt reads. The name is looked up directly,
   * so a state without one cannot be rendered (see `RenderStatePrompt`); the
   * other fields are read with a default, and one that is absent reads as the
   * empty text or as false. A null or non-string value is not modelled.
   */
  datatype PromptEntry = PromptEntry(
    name: string,
    snapUrl: string,
    countyAdministered: bool,
    requiresLogin: bool,
    loginNotes: string)

  // ---------------------------------------------------------------------------
  // str.replace

  /** `p` occurs in `s` at `i`, character by character. */
  predicate MatchAt(s: string, p: string, i: nat)
  {
    i + |p| <= |s| && forall k :: 0 <= k < |p| ==> s[i + k] == p[k]
  }

  /** `s[i:].replace(p, r)`: a left-to-right scan that replaces each occurrence it meets and resumes after it. */
  function ReplaceFrom(s: string, p: string, r: string, i: nat): string
    requires p != []
    decreases |s| - i
  {
    if i >= |s| then []
    else if MatchAt(s, p, i) then r + ReplaceFrom(s, p, r, i + |p|)
    else [s[i]] + ReplaceFrom(s, p, r, i + 1)
  }

  /** `s.replace(p, r)`. */
  function ReplaceAll(s: string, p: string, r: string): string
    requires p != []
  {
    ReplaceFrom(s, p, r, 0)
  }

  /** The first occurrence of `p` in `s` at or after `i`. */
  function FirstMatch(s: string, p: string, i: nat): (r: Option<nat>)
    ensures r.Some? ==> i <= r.value && MatchAt(s, p, r.value)
    ensures r.Some? ==> forall j :: i <= j < r.value ==> !MatchAt(s, p, j)
    ensures r.None? ==> forall j :: i <= j ==> !MatchAt(s, p, j)
    decreases |s| - i
  {
    if i + |p| > |s| then None
    else if MatchAt(s, p, i) then Some(i)
    else FirstMatch(s, p, i + 1)
  }

  /** `s.replace(p, r, 1)`: only the first occurrence is replaced; without one, `s` is unchanged. */
  function ReplaceFirst(s: string, p: string, r: string): (t: string)
    ensures FirstMatch(s, p, 0).None? ==> t == s
    ensures FirstMatch(s, p, 0).Some? ==>
              var i := FirstMatch(s, p, 0).value; t == s[..i] + r + s[i + |p|..]
  {
    match FirstMatch(s, p, 0)
    case None => s
    case Some(i) => s[..i] + r + s[i + |p|..]
  }

  // ---------------------------------------------------------------------------
  // render_prompt

  /** The note for a state without a recorded URL: it names the state twice. */
  function FallbackNote(name: string): string
  {
    "\nNOTE: No direct state SNAP URL is recorded for " + name + ". "
    + "The START URL above is the USDA SNAP State Directory. "
    + "Your first task is to find and click the " + name + " link on that page, "
    + "then proceed with data collection from the state's own website.\n"
  }

  /** The note for a state whose counties administer SNAP. */
  function CountyNote(name: string): string
  {
    "\nNOTE: " + name + " administers SNAP at the county level. "
    + "The state website provides general policy information. "
    + "Note any county-level variation and mention it in ATLAS NOTES.\n"
  }

  /** The note carrying a state's login notes. */
  function LoginNote(notes: string): string
  {
    "\nNOTE: " + notes + "\n"
  }

  /** The recorded URL with surrounding whitespace removed. */
  function RecordedUrl(entry: PromptEntry): string
  {
    Trim(entry.snapUrl)
  }

  /** The start URL put into the prompt: the recorded one, or the fallback when it is blank. */
  function StartUrl(entry: PromptEntry): (url: string)
    ensures RecordedUrl(entry) == [] ==> url == FallbackUrl
    ensures RecordedUrl(entry) != [] ==> url == RecordedUrl(entry)
  {
    if RecordedUrl(entry) == [] then FallbackUrl else RecordedUrl(entry)
  }

  function FallbackPart(entry: PromptEntry): string
  {
    if RecordedUrl(entry) == [] then FallbackNote(entry.name) else []
  }

  function CountyPart(entry: PromptEntry): string
  {
    if entry.countyAdministered then CountyNote(entry.name) else []
  }

  function LoginPart(entry: PromptEntry): string
  {
    if entry.requiresLogin && entry.loginNotes != [] then LoginNote(entry.loginNotes) else []
  }

  /** The notes of a state, in order: fallback, county, login. */
  function Notes(entry: PromptEntry): string
  {
    FallbackPart(entry) + CountyPart(entry) + LoginPart(entry)
  }

  /** The template with the state's name filled in, then its start URL. */
  function Filled(template: string, entry: PromptEntry): string
  {
    ReplaceAll(ReplaceAll(template, NamePattern, entry.name), UrlPattern, StartUrl(entry))
  }

  /** `render_prompt`. */
  function RenderPrompt(template: string, entry: PromptEntry): (prompt: string)
    ensures Notes(entry) == [] ==> prompt == Filled(template, entry)
    ensures FirstMatch(Filled(template, entry), Anchor, 0).None? ==> prompt == Filled(template, entry)
    ensures Notes(entry) != [] && FirstMatch(Filled(template, entry), Anchor, 0).Some? ==>
              var filled := Filled(template, entry);
              var i := FirstMatch(filled, Anchor, 0).value;
              prompt == filled[..i] + NotesBlock(entry) + filled[i..]
  {
    var filled := Filled(template, entry);
    if Notes(entry) != [] then
      var t := ReplaceFirst(filled, Anchor, NotesBlock(entry) + Anchor);
      InsertBefore(filled, NotesBlock(entry));
      t
    else filled
  }

  /**
   * `render_prompt` on a state whose name may be absent (`None`): then the
   * lookup `state["name"]` raises `KeyError` and there is no prompt; with a
   * name, the prompt of the state with that name and the other fields of
   * `fields`.
   */
  function RenderStatePrompt(template: string, name: Option<string>, fields: PromptEntry): (prompt: Option<string>)
    ensures prompt.None? <==> name.None?
    ensures prompt.Some? ==> prompt.value == RenderPrompt(template, fields.(name := name.value))
  {
    match name
    case None => None
    case Some(n) => Some(RenderPrompt(template, fields.(name := n)))
  }

  /** The block inserted into the prompt: the heading, then the notes. */
  function NotesBlock(entry: PromptEntry): string
  {
    NotesHeading + Notes(entry)
  }

  /** Replacing the first anchor by `block + anchor` inserts `block` just before it. */
  lemma InsertBefore(s: string, block: string)
    ensures FirstMatch(s, Anchor, 0).Some? ==>
              var i := FirstMatch(s, Anchor, 0).value;
              ReplaceFirst(s, Anchor, block + Anchor) == s[..i] + block + s[i..]
  {
    if FirstMatch(s, Anchor, 0).Some? {
      var i := FirstMatch(s, Anchor, 0).value;
      assert s[i..] == s[i..i + |Anchor|] + s[i + |Anchor|..];
      assert s[i..i + |Anchor|] == Anchor;
    }
  }

  // ---------------------------------------------------------------------------
  // What the prompt holds

  /** A URL of whitespace only counts as none: the fallback URL is used and the fallback note comes first. */
  lemma BlankUrlUsesFallback(entry: PromptEntry)
    requires AllIn(entry.snapUrl, Whitespace)
    ensures StartUrl(entry) == FallbackUrl
    ensures Notes(entry) == FallbackNote(entry.name) + CountyPart(entry) + LoginPart(entry)
  {
    TrimSpacePrefix(entry.snapUrl, []);
    assert entry.snapUrl + [] == entry.snapUrl;
  }

  /** A recorded URL is used as it is, without its surrounding whitespace, and no fallback note is added. */
  lemma RecordedUrlUsed(entry: PromptEntry)
    requires RecordedUrl(entry) != []
    ensures StartUrl(entry) == Trim(entry.snapUrl)
    ensures Notes(entry) == CountyPart(entry) + LoginPart(entry)
  {
    assert FallbackPart(entry) == [];
    EmptyLeft(CountyPart(entry));
  }

  lemma EmptyLeft<T>(s: seq<T>)
    ensures [] + s == s
  {
  }

  lemma EmptyRight<T>(s: seq<T>)
    ensures s + [] == s
  {
  }

  /** The county note is there exactly when the state is county-administered, after the fallback note and before the login note. */
  lemma CountyNoteIff(entry: PromptEntry)
    ensures entry.countyAdministered ==> Notes(entry) == FallbackPart(entry) + CountyNote(entry.name) + LoginPart(entry)
    ensures !entry.countyAdministered ==> Notes(entry) == FallbackPart(entry) + LoginPart(entry)
    ensures CountyNote(entry.name) != []
  {
    if !entry.countyAdministered {
      assert CountyPart(entry) == [];
      EmptyRight(FallbackPart(entry));
    }
    assert |CountyNote(entry.name)| > 0;
  }

  /** The login note needs both a login requirement and some login notes; either alone adds nothing. */
  lemma LoginNoteNeedsBoth(template: string, entry: PromptEntry)
    ensures entry.requiresLogin && entry.loginNotes != [] ==> LoginPart(entry) == LoginNote(entry.loginNotes)
    ensures RenderPrompt(template, entry.(loginNotes := [])) == RenderPrompt(template, entry.(requiresLogin := false))
    ensures RenderPrompt(template, entry.(requiresLogin := false))
            == RenderPrompt(template, entry.(requiresLogin := false, loginNotes := []))
  {
    var a := entry.(loginNotes := []);
    var b := entry.(requiresLogin := false);
    var c := entry.(requiresLogin := false, loginNotes := []);
    SameNotesSamePrompt(template, a, b);
    SameNotesSamePrompt(template, b, c);
  }

  /** The prompt depends on the entry only through its name, its start URL and its notes. */
  lemma SameNotesSamePrompt(template: string, e1: PromptEntry, e2: PromptEntry)
    requires e1.name == e2.name && e1.snapUrl == e2.snapUrl && e1.countyAdministered == e2.countyAdministered
    requires LoginPart(e1) == LoginPart(e2)
    ensures RenderPrompt(template, e1) == RenderPrompt(template, e2)
  {
    assert FallbackPart(e1) == FallbackPart(e2) && CountyPart(e1) == CountyPart(e2);
    assert StartUrl(e1) == StartUrl(e2);
  }

  /** Without any note, the prompt is the template with the name and then the recorded URL substituted; nothing else changes. */
  lemma NoNotesIsSubstitution(template: string, entry: PromptEntry)
    requires RecordedUrl(entry) != [] && !entry.countyAdministered
    requires !(entry.requiresLogin && entry.loginNotes != [])
    ensures RenderPrompt(template, entry)
            == ReplaceAll(ReplaceAll(template, NamePattern, entry.name), UrlPattern, Trim(entry.snapUrl))
  {
    assert Notes(entry) == [];
  }

  /** Without the anchor the notes are dropped without a trace. */
  lemma NotesDroppedWithoutAnchor(template: string, entry: PromptEntry)
    requires forall j: nat :: !MatchAt(Filled(template, entry), Anchor, j)
    ensures RenderPrompt(template, entry) == Filled(template, entry)
  {
    var filled := Filled(template, entry);
    NoMatchNoFirst(filled, Anchor);
  }

  lemma NoMatchNoFirst(s: string, p: string)
    requires forall j: nat :: !MatchAt(s, p, j)
    ensures FirstMatch(s, p, 0).None?
  {
  }

  // ---------------------------------------------------------------------------
  // No name pattern survives its replacement

  /** The first character of a match. */
  lemma MatchCons(s: string, q: string, i: nat)
    requires q != [] && i < |s| && s[i] == q[0] && MatchAt(s, q[1..], i + 1)
    ensures MatchAt(s, q, i)
  {
    forall k | 1 <= k < |q|
      ensures s[i + k] == q[k]
    {
      assert s[(i + 1) + (k - 1)] == q[1..][k - 1];
    }
  }

  /** A match at the start of `[c] + o` is `c` followed by a match of the rest. */
  lemma MatchUncons(c: char, o: string, q: string)
    requires q != [] && MatchAt([c] + o, q, 0)
    ensures c == q[0] && MatchAt(o, q[1..], 0)
  {
    assert ([c] + o)[0] == c;
    forall k | 0 <= k < |q| - 1
      ensures o[k] == q[1..][k]
    {
      assert ([c] + o)[k + 1] == o[k];
    }
  }

  /** A match past the end of `a` in `a + b` is a match in `b`. */
  lemma MatchShift(a: string, b: string, p: string, j: nat)
    requires j >= |a| && MatchAt(a + b, p, j)
    ensures MatchAt(b, p, j - |a|)
  {
    forall k | 0 <= k < |p|
      ensures b[j - |a| + k] == p[k]
    {
      assert (a + b)[j + k] == b[j - |a| + k];
    }
  }

  /**
   * If the output of the scan from `i` starts with a text `q` whose last
   * character is not in `r` and which lacks some character of `r`, then `q`
   * was already in `s` at `i`: no replacement can contribute to it.
   */
  lemma {:induction false} MatchFromInput(s: string, p: string, r: string, i: nat, q: string)
    requires p != [] && q != [] && q[|q| - 1] !in r
    requires exists x :: x in r && x !in q
    requires MatchAt(ReplaceFrom(s, p, r, i), q, 0)
    ensures MatchAt(s, q, i)
    decreases |s| - i
  {
    var o := ReplaceFrom(s, p, r, i);
    if i < |s| && MatchAt(s, p, i) {
      var rest := ReplaceFrom(s, p, r, i + |p|);
      assert o == r + rest;
      MatchOverReplacement(r, rest, q);
    } else if i < |s| {
      var rest := ReplaceFrom(s, p, r, i + 1);
      assert o == [s[i]] + rest;
      MatchUncons(s[i], rest, q);
      if |q| > 1 {
        var x :| x in r && x !in q;
        assert x !in q[1..];
        MatchFromInput(s, p, r, i + 1, q[1..]);
        MatchCons(s, q, i);
      }
    }
  }

  /** A match at the start of `r + rest` either ends inside `r` or covers all of `r`. */
  lemma MatchOverReplacement(r: string, rest: string, q: string)
    requires q != [] && MatchAt(r + rest, q, 0)
    ensures q[|q| - 1] in r || forall x :: x in r ==> x in q
  {
    if |r| >= |q| {
      assert (r + rest)[|q| - 1] == r[|q| - 1];
    } else {
      forall x | x in r
        ensures x in q
      {
        var k :| 0 <= k < |r| && r[k] == x;
        assert (r + rest)[k] == r[k] && (r + rest)[k] == q[k];
        assert q[k] in q;
      }
    }
  }

  /**
   * `s.replace(p, r)` leaves no `p` behind when `r` has neither the first nor
   * the last character of `p` and has a character `p` lacks.
   */
  lemma {:induction false} NoMatchLeft(s: string, p: string, r: string, i: nat)
    requires |p| >= 2 && p[0] !in r && p[|p| - 1] !in r
    requires exists x :: x in r && x !in p
    ensures forall j: nat :: !MatchAt(ReplaceFrom(s, p, r, i), p, j)
    decreases |s| - i
  {
    var o := ReplaceFrom(s, p, r, i);
    if i < |s| && MatchAt(s, p, i) {
      var rest := ReplaceFrom(s, p, r, i + |p|);
      assert o == r + rest;
      NoMatchLeft(s, p, r, i + |p|);
      forall j: nat | MatchAt(o, p, j)
        ensures false
      {
        if j >= |r| {
          MatchShift(r, rest, p, j);
        }
      }
    } else if i < |s| {
      var rest := ReplaceFrom(s, p, r, i + 1);
      assert o == [s[i]] + rest;
      NoMatchLeft(s, p, r, i + 1);
      forall j: nat | MatchAt(o, p, j)
        ensures false
      {
        if j == 0 {
          MatchUncons(s[i], rest, p);
          var x :| x in r && x !in p;
          assert x !in p[1..];
          MatchFromInput(s, p, r, i + 1, p[1..]);
          MatchCons(s, p, i);
        } else {
          MatchShift([s[i]], rest, p, j);
        }
      }
    }
  }

  /**
   * Once the name is filled in, no "{STATE_NAME}" is left, provided the name
   * has no brace and some character that does not occur in the pattern (a
   * name made of the pattern's own letters could complete a pattern split
   * around an occurrence, as in "{STATE" + "{STATE_NAME}" + "_NAME}").
   */
  lemma NoNamePatternLeft(template: string, name: string)
    requires '{' !in name && '}' !in name
    requires exists k :: 0 <= k < |name| && name[k] !in NamePattern
    ensures forall j: nat :: !MatchAt(ReplaceAll(template, NamePattern, name), NamePattern, j)
  {
    assert NamePattern[0] == '{' && NamePattern[|NamePattern| - 1] == '}';
    var k :| 0 <= k < |name| && name[k] !in NamePattern;
    assert name[k] in name;
    NoMatchLeft(template, NamePattern, name, 0);
  }
}
