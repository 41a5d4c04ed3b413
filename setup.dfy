/**
 * The one-time setup of the data folders: the checks made on every entry
 * of the list of states, the placeholder report written into a new state
 * folder, and the skeleton metadata beside it. An entry of the list is the
 * map from its field names to their text; only text fields are read.
 * Creating folders and files is left to the caller: the functions here say
 * what would be written, given whether each file already exists.
 */
module Setup {
  import opened StrOps
  import Downloads
  import Assembler

  /** The fields every entry must have, in the order they are checked. */
  const RequiredFields: seq<string> := [
    "name", "abbreviation", "folder_name", "snap_url",
    "snap_portal_url", "county_administered", "requires_login",
    "login_notes", "notes", "status", "last_collected", "known_issues"
  ]

  /** One entry of the list of states. */
  type Entry = map<string, string>

  /** The problems `validate_state` reports, each standing for its message. */
  datatype Issue =
    | MissingField(field: string)
    | FolderHasSpaces(folder: string)
    | FolderHasSpecialChars(folder: string)
    | NotAUrl(url: string)

  /** The text of the warning an issue is reported with. */
  function Message(issue: Issue): string
  {
    match issue
    case MissingField(f) => "Missing field: '" + f + "'"
    case FolderHasSpaces(f) => "folder_name '" + f + "' contains spaces (use underscores)"
    case FolderHasSpecialChars(f) => "folder_name '" + f + "' contains special characters"
    case NotAUrl(u) => "snap_url '" + u + "' does not look like a valid URL"
  }

  /** `state.get(key, "")`. */
  function Get(state: Entry, key: string): (v: string)
    ensures key in state ==> v == state[key]
    ensures key !in state ==> v == []
  {
    if key in state then state[key] else []
  }

  // ---------------------------------------------------------------------------
  // The checks

  /** `s.replace(c, "")`. */
  function Remove(s: string, c: char): (r: string)
    ensures |r| <= |s|
    ensures forall x :: x in r <==> x in s && x != c
  {
    if s == [] then []
    else
      var front := Remove(ButLast(s), c);
      assert forall x :: x in s <==> x in ButLast(s) || x == s[|s| - 1] by {
        SnocButLast(s);
      }
      if s[|s| - 1] == c then front else front + [s[|s| - 1]]
  }

  /** An ASCII letter or digit. */
  predicate IsAlnumChar(c: char)
  {
    'a' <= c <= 'z' || 'A' <= c <= 'Z' || '0' <= c <= '9'
  }

  /** `s.isalnum()`: non-empty, and letters and digits only. */
  predicate IsAlnum(s: string)
  {
    s != [] && forall k :: 0 <= k < |s| ==> IsAlnumChar(s[k])
  }

  /** One issue per required field absent from the entry, in the order of `fields`. */
  function MissingIssues(fields: seq<string>, state: Entry): (r: seq<Issue>)
    ensures |r| <= |fields|
    ensures forall i :: 0 <= i < |r| ==> r[i].MissingField?
    ensures forall f :: MissingField(f) in r <==> f in fields && f !in state
  {
    if fields == [] then []
    else
      var front := MissingIssues(ButLast(fields), state);
      var f := fields[|fields| - 1];
      assert forall x :: x in fields <==> x in ButLast(fields) || x == f by {
        SnocButLast(fields);
      }
      if f !in state then front + [MissingField(f)] else front
  }

  /** The folder name has a space. */
  predicate FolderSpaced(folder: string)
  {
    ' ' in folder
  }

  /** The folder name is not empty, and not letters and digits once its underscores are removed. */
  predicate FolderSpecial(folder: string)
  {
    folder != [] && !IsAlnum(Remove(folder, '_'))
  }

  /** The URL is not empty and does not start with "http". */
  predicate UrlMalformed(url: string)
  {
    url != [] && !StartsWith(url, "http")
  }

  /** The issues of the folder name and the URL, in the order they are checked. */
  function ValueIssues(folder: string, url: string): seq<Issue>
  {
    (if FolderSpaced(folder) then [FolderHasSpaces(folder)] else [])
    + (if FolderSpecial(folder) then [FolderHasSpecialChars(folder)] else [])
    + (if UrlMalformed(url) then [NotAUrl(url)] else [])
  }

  /** The issues `validate_state` finds in an entry, in order. */
  function Issues(state: Entry): seq<Issue>
  {
    MissingIssues(RequiredFields, state)
    + ValueIssues(Get(state, "folder_name"), Get(state, "snap_url"))
  }

  /** `validate_state`: the loop over the required fields, then the checks of the folder name and the URL. */
  method ValidateState(state: Entry) returns (errors: seq<Issue>)
    ensures errors == Issues(state)
  {
    errors := CheckFields(RequiredFields, state);
    var more := CheckValues(Get(state, "folder_name"), Get(state, "snap_url"));
    errors := errors + more;
  }

  /** The checks of the folder name and the URL, in order. */
  method CheckValues(folder: string, url: string) returns (errors: seq<Issue>)
    ensures errors == ValueIssues(folder, url)
  {
    errors := [];
    if ' ' in folder {
      errors := errors + [FolderHasSpaces(folder)];
    }
    if folder != [] && !IsAlnum(Remove(folder, '_')) {
      errors := errors + [FolderHasSpecialChars(folder)];
    }
    if url != [] && !StartsWith(url, "http") {
      errors := errors + [NotAUrl(url)];
    }
  }

  /** The loop over the required fields: one issue per absent field, in order. */
  method CheckFields(fields: seq<string>, state: Entry) returns (errors: seq<Issue>)
    ensures errors == MissingIssues(fields, state)
  {
    errors := [];
    for i := 0 to |fields|
      invariant errors == MissingIssues(fields[..i], state)
    {
      var field := fields[i];
      ButLastOfTake(fields, i);
      if field !in state {
        errors := errors + [MissingField(field)];
      }
    }
    TakeAll(fields);
  }

  // ---------------------------------------------------------------------------
  // What the checks mean

  /** Checking `a` and then `b` reports the absent fields of `a` and then those of `b`. */
  lemma {:induction false} MissingIssuesAppend(a: seq<string>, b: seq<string>, state: Entry)
    ensures MissingIssues(a + b, state) == MissingIssues(a, state) + MissingIssues(b, state)
    decreases |b|
  {
    if b == [] {
      assert a + b == a;
    } else {
      var f := b[|b| - 1];
      SnocButLast(b);
      assert a + b == (a + ButLast(b)) + [f];
      ButLastSnoc(a + ButLast(b), f);
      MissingIssuesAppend(a, ButLast(b), state);
    }
  }

  /** An entry with none of the fields gets one issue per field... */
  lemma {:induction false} AllMissingCount(fields: seq<string>, state: Entry)
    requires forall i :: 0 <= i < |fields| ==> fields[i] !in state
    ensures |MissingIssues(fields, state)| == |fields|
    decreases |fields|
  {
    if fields != [] {
      var front := ButLast(fields);
      assert forall i :: 0 <= i < |front| ==> front[i] == fields[i];
      AllMissingCount(front, state);
    }
  }

  /** ...in the order of the fields. */
  lemma {:induction false} AllMissingAt(fields: seq<string>, state: Entry, i: nat)
    requires forall j :: 0 <= j < |fields| ==> fields[j] !in state
    requires i < |fields|
    ensures |MissingIssues(fields, state)| == |fields|
    ensures MissingIssues(fields, state)[i] == MissingField(fields[i])
    decreases |fields|
  {
    var front := ButLast(fields);
    assert forall j :: 0 <= j < |front| ==> front[j] == fields[j];
    AllMissingCount(front, state);
    var r := MissingIssues(front, state);
    assert MissingIssues(fields, state) == r + [MissingField(fields[|fields| - 1])];
    if i < |front| {
      AllMissingAt(front, state, i);
      AppendIndex(r, MissingField(fields[|fields| - 1]));
    }
  }

  lemma AppendIndex<T>(a: seq<T>, x: T)
    ensures forall i :: 0 <= i < |a| ==> (a + [x])[i] == a[i]
    ensures (a + [x])[|a|] == x
  {
  }

  /** An entry with all of the fields gets no missing-field issue. */
  lemma {:induction false} NoneMissing(fields: seq<string>, state: Entry)
    requires forall i :: 0 <= i < |fields| ==> fields[i] in state
    ensures MissingIssues(fields, state) == []
    decreases |fields|
  {
    if fields != [] {
      var front := ButLast(fields);
      assert forall i :: 0 <= i < |front| ==> front[i] == fields[i];
      NoneMissing(front, state);
    }
  }

  /** A space is neither a letter nor a digit, so a folder name with a space gets both folder issues, spaces first. */
  lemma SpaceGivesBothIssues(folder: string, url: string)
    requires ' ' in folder
    ensures ValueIssues(folder, url)[..2] == [FolderHasSpaces(folder), FolderHasSpecialChars(folder)]
  {
    var r := Remove(folder, '_');
    assert ' ' in r;
    var k :| 0 <= k < |r| && r[k] == ' ';
    assert !IsAlnumChar(r[k]);
  }

  /** An empty or absent folder name gets no folder issue. */
  lemma EmptyFolderAccepted(url: string)
    ensures ValueIssues([], url) == if UrlMalformed(url) then [NotAUrl(url)] else []
  {
  }

  /** A non-empty folder name without spaces is accepted exactly when it is letters, digits and '_' with at least one letter or digit. */
  lemma FolderAccepted(folder: string)
    requires folder != [] && ' ' !in folder
    ensures !FolderSpecial(folder) <==>
              (forall k :: 0 <= k < |folder| ==> IsAlnumChar(folder[k]) || folder[k] == '_')
              && (exists k :: 0 <= k < |folder| && IsAlnumChar(folder[k]))
  {
    var r := Remove(folder, '_');
    if IsAlnum(r) {
      forall k | 0 <= k < |folder|
        ensures IsAlnumChar(folder[k]) || folder[k] == '_'
      {
        if folder[k] != '_' {
          assert folder[k] in r;
        }
      }
      assert r[0] in folder;
      var k :| 0 <= k < |folder| && folder[k] == r[0];
      assert IsAlnumChar(folder[k]);
    } else if r == [] {
      forall k | 0 <= k < |folder|
        ensures folder[k] == '_'
      {
        assert folder[k] in folder;
      }
    } else {
      var j :| 0 <= j < |r| && !IsAlnumChar(r[j]);
      assert r[j] in folder && r[j] != '_';
    }
  }

  /** A folder name of underscores only is reported: nothing is left to be letters or digits. */
  lemma UnderscoresOnlyRejected(folder: string)
    requires folder != [] && forall k :: 0 <= k < |folder| ==> folder[k] == '_'
    ensures FolderSpecial(folder)
  {
    NothingLeft(folder, '_');
  }

  lemma NothingLeft(s: string, c: char)
    requires forall k :: 0 <= k < |s| ==> s[k] == c
    ensures Remove(s, c) == []
  {
  }

  /** The URL issue is reported exactly for a non-empty URL that does not start with "http". */
  lemma UrlIssue(folder: string, url: string)
    ensures NotAUrl(url) in ValueIssues(folder, url) <==> url != [] && !StartsWith(url, "http")
  {
  }

  /** An entry is valid (no issue at all) exactly when it has every field, its folder name passes both checks and its URL looks like one. */
  lemma ValidIff(state: Entry)
    ensures Issues(state) == [] <==>
              (forall i :: 0 <= i < |RequiredFields| ==> RequiredFields[i] in state)
              && !FolderSpaced(Get(state, "folder_name"))
              && !FolderSpecial(Get(state, "folder_name"))
              && !UrlMalformed(Get(state, "snap_url"))
  {
    var m := MissingIssues(RequiredFields, state);
    if forall i :: 0 <= i < |RequiredFields| ==> RequiredFields[i] in state {
      NoneMissing(RequiredFields, state);
    } else {
      var i :| 0 <= i < |RequiredFields| && RequiredFields[i] !in state;
      assert MissingField(RequiredFields[i]) in m;
    }
  }

  // ---------------------------------------------------------------------------
  // The files of a new state folder

  /** The text after the state's name in the placeholder report, from its marker on. */
  const PlaceholderTail := " Paste ChatGPT Atlas output here after running the prompt for this state.\n"

  /** The placeholder report of a state: a heading with its name, then the marker sentence. */
  function PlaceholderText(stateName: string): (text: string)
    ensures Contains(text, Downloads.PlaceholderMarker)
  {
    var pre := "# Pending \U{2014} " + stateName + "\n\n";
    ContainsMiddle(pre, Downloads.PlaceholderMarker, PlaceholderTail);
    pre + Downloads.PlaceholderMarker + PlaceholderTail
  }

  lemma ContainsMiddle(pre: string, p: string, post: string)
    ensures Contains(pre + p + post, p)
  {
    var s := pre + p + post;
    assert s[|pre|..|pre| + |p|] == p;
    ContainsIntro(s, p, |pre|);
  }

  /** Both readers of a report recognise the placeholder: the downloader skips it and the parser reports it. */
  lemma PlaceholderRecognised(stateName: string)
    ensures Downloads.IsPlaceholder(PlaceholderText(stateName))
    ensures Contains(PlaceholderText(stateName), Assembler.PlaceholderMarker)
  {
    SameMarker();
  }

  lemma SameMarker()
    ensures Assembler.PlaceholderMarker == Downloads.PlaceholderMarker
  {
  }

  /** The metadata written into a new state folder. */
  datatype Metadata = Metadata(state: string, abbreviation: string, status: string, parsed: bool)

  /** The skeleton metadata, filled in with the name and abbreviation of the entry. */
  function Skeleton(state: Entry): (meta: Metadata)
    requires "name" in state && "abbreviation" in state
    ensures meta.status == "pending" && !meta.parsed
    ensures meta.state == state["name"] && meta.abbreviation == state["abbreviation"]
  {
    Metadata(state["name"], state["abbreviation"], "pending", false)
  }

  /**
   * What `create_state_structure` leaves in a state folder: the report and the
   * metadata it writes (`None`: left as it was), and the key whose lookup
   * raised `KeyError` and stopped it, if one did. A file written before the
   * failure stays written, and a report whose file was opened before the
   * name lookup failed stays empty.
   */
  datatype Created = Created(report: Option<string>, metadata: Option<Metadata>, keyError: Option<string>)

  /**
   * `create_state_structure`, given whether each file exists already. The
   * folder name is read first, the name only for a new report, and the name
   * and then the abbreviation only for new metadata. An existing file is
   * never overwritten.
   */
  function StateFiles(state: Entry, reportExists: bool, metadataExists: bool): (c: Created)
    ensures c.keyError.None? <==>
      "folder_name" in state && (reportExists || "name" in state) &&
      (metadataExists || ("name" in state && "abbreviation" in state))
    ensures c.keyError.Some? ==> c.keyError.value !in state && c.keyError.value in {"folder_name", "name", "abbreviation"}
    ensures c.keyError == Some("folder_name") ==> c.report.None? && c.metadata.None?
    ensures c.keyError.None? ==> (c.report.Some? <==> !reportExists) && (c.metadata.Some? <==> !metadataExists)
    ensures "folder_name" in state ==> (c.report.Some? <==> !reportExists)
    ensures c.report.Some? && "name" in state ==> !reportExists && c.report.value == PlaceholderText(state["name"])
    ensures c.report.Some? && "name" !in state ==> !reportExists && c.report.value == "" && c.keyError == Some("name")
    ensures c.metadata.Some? ==> !metadataExists && c.keyError.None?
    ensures c.metadata.Some? ==> "name" in state && "abbreviation" in state && c.metadata.value == Skeleton(state)
  {
    if "folder_name" !in state then Created(None, None, Some("folder_name"))
    else if !reportExists && "name" !in state then Created(Some(""), None, Some("name"))
    else
      var report := if reportExists then None else Some(PlaceholderText(state["name"]));
      if metadataExists then Created(report, None, None)
      else if "name" !in state then Created(report, None, Some("name"))
      else if "abbreviation" !in state then Created(report, None, Some("abbreviation"))
      else Created(report, Some(Skeleton(state)), None)
  }

  /** Running the setup again writes nothing into a folder it has already filled. */
  lemma RerunWritesNothing(state: Entry)
    ensures var c := StateFiles(state, true, true);
      c.report.None? && c.metadata.None? && (c.keyError.None? <==> "folder_name" in state)
  {
  }

  /**
   * A new folder for an entry without a name gets an empty report: the file is
   * opened for writing before the name is looked up. The empty report is no
   * placeholder, so a later run keeps it and both readers take it for a real one.
   */
  lemma MissingNameLeavesEmptyReport(state: Entry, metadataExists: bool)
    requires "folder_name" in state && "name" !in state
    ensures StateFiles(state, false, metadataExists) == Created(Some(""), None, Some("name"))
    ensures !Downloads.IsPlaceholder("")
  {
  }

  /** A new folder for an entry without an abbreviation gets its report, and then the setup stops. */
  lemma MissingAbbreviationStopsAfterReport(state: Entry)
    requires "folder_name" in state && "name" in state && "abbreviation" !in state
    ensures StateFiles(state, false, false) == Created(Some(PlaceholderText(state["name"])), None, Some("abbreviation"))
  {
  }
}
