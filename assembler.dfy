/**
 * The record assembler of the report parser: from the text of one state's
 * `agent_output.md` to its metadata record, its warnings and its errors.
 * Reading and writing files, the directory listing behind the asset counts
 * and the clock are inputs here.
 */
module Assembler {
  import opened StrOps
  import opened Normalizer
  import opened Sections
  import opened Locators
  import opened Extractors
  import opened Forms

  const PlaceholderMarker := "Not yet collected."
  const NotFoundMessage := "agent_output.md not found"
  const PlaceholderMessage := "agent_output.md is a placeholder \U{2014} not yet collected"

  const CollectedWarning := "Collected date not found in preamble"
  const SourceWarning := "Source URL not found in preamble"
  const StepsWarning := "No numbered steps found in APPLICATION PROCESS"
  const InferredWarning := "Total Forms Found field missing; inferred from table row count"
  const ComplexityWarning := "COMPLEXITY ASSESSMENT section missing"

  /** The sections whose absence is an error, in the order they are checked. */
  const ApplicationSection := "APPLICATION PROCESS"
  const DocumentsSection := "REQUIRED DOCUMENTS"
  const InterviewSection := "INTERVIEW REQUIREMENTS"
  const FormsSection := "FORMS"
  const LanguageSection := "LANGUAGE ACCESS"
  const ComplexitySection := "COMPLEXITY ASSESSMENT"
  const UrlsSection := "URLS REFERENCED"
  const RequiredSections := [ApplicationSection, DocumentsSection, InterviewSection, FormsSection, LanguageSection]

  datatype Application = Application(
    onlineAvailable: Option<bool>, onlineUrl: Option<string>,
    onlineDocSubmission: Option<bool>, onlineDocSubmissionNotes: Option<string>,
    stepsCount: Option<nat>, steps: seq<string>)

  datatype Documents = Documents(specifiedOnWebsite: bool, documentList: seq<string>)

  datatype Interview = Interview(
    required: Option<bool>, typeOptions: Option<seq<string>>,
    schedulingWhoInitiates: Option<string>, schedulingUrl: Option<string>,
    hoursSpecified: bool, hoursDescription: Option<string>,
    eveningWeekendHours: Option<bool>, hoursNotes: Option<string>,
    remindersSent: Option<bool>, reminderMethod: Option<string>,
    rescheduleAvailable: Option<bool>, rescheduleMethod: Option<string>, rescheduleUrl: Option<string>,
    missedInterviewPenalty: Option<string>, goodCauseExceptions: Option<bool>, goodCauseNotes: Option<string>)

  datatype FormsInfo = FormsInfo(totalCount: Option<nat>, formList: seq<FormRow>)

  datatype LanguageAccess = LanguageAccess(
    websiteLanguages: Option<seq<string>>, formLanguages: Option<seq<string>>,
    translationMethod: Option<string>, notes: Option<string>)

  datatype Complexity = Complexity(
    stepsCount: Option<nat>, formsToComplete: Option<nat>,
    readingLevel: Option<string>, readingLevelNotes: Option<string>)

  datatype Assets = Assets(pagesReferenced: nat, downloadsReferenced: nat, pagesDownloaded: nat, formsDownloaded: nat)

  datatype ParseStatus = ParseStatus(parsed: bool, timestamp: string, warnings: seq<string>, errors: seq<string>)

  datatype Metadata = Metadata(
    state: string, abbreviation: string,
    collectedDate: Option<string>, sourceUrl: Option<string>,
    application: Application, documents: Documents, interview: Interview,
    forms: FormsInfo, languageAccess: LanguageAccess, complexity: Complexity,
    assets: Assets, parseStatus: ParseStatus)

  /** `sections.get(key, "")`. */
  function Get(sections: map<string, string>, key: string): (v: string)
    ensures key !in sections ==> v == ""
  {
    if key in sections then sections[key] else ""
  }

  /** A present, non-empty value: Python's truth test on a string or None. */
  predicate Truthy(v: Option<string>)
  {
    v.Some? && v.value != []
  }

  // ---------------------------------------------------------------------------
  // Errors for the required sections

  /** The error for a required section that is absent or empty. */
  function MissingError(section: string): string
  {
    section + " section missing"
  }

  /** One "<NAME> section missing" error per required section that is absent or empty, in list order. */
  function MissingSections(sections: map<string, string>, names: seq<string>): (errors: seq<string>)
    ensures |errors| <= |names|
  {
    if names == [] then []
    else
      MissingSections(sections, ButLast(names)) +
      Flag(Get(sections, names[|names| - 1]) == "", MissingError(names[|names| - 1]))
  }

  /** No error exactly when every required section is present and non-empty. */
  lemma {:induction false} NoMissingIff(sections: map<string, string>, names: seq<string>)
    ensures MissingSections(sections, names) == [] <==> forall i :: 0 <= i < |names| ==> Get(sections, names[i]) != ""
    decreases |names|
  {
    if names != [] {
      NoMissingIff(sections, ButLast(names));
      assert forall i :: 0 <= i < |names| - 1 ==> ButLast(names)[i] == names[i];
    }
  }

  /** Every error names one of the sections, so there are at most as many errors as sections. */
  lemma {:induction false} MissingNamesASection(sections: map<string, string>, names: seq<string>, i: nat)
    requires i < |MissingSections(sections, names)|
    ensures exists j :: 0 <= j < |names| && MissingSections(sections, names)[i] == MissingError(names[j])
    decreases |names|
  {
    var p := ButLast(names);
    var e := MissingSections(sections, p);
    if i < |e| {
      MissingNamesASection(sections, p, i);
      var j :| 0 <= j < |p| && e[i] == MissingError(p[j]);
      assert names[j] == p[j];
    } else {
      assert MissingSections(sections, names)[i] == MissingError(names[|names| - 1]);
    }
  }

  // ---------------------------------------------------------------------------
  // Interview types and languages

  const InterviewWords: set<string> := {"phone", "in-person", "in person", "both"}

  /** The word one piece of "Interview Type Options" contributes: a known kind, spelled "in-person". */
  function InterviewType(piece: string): (r: Option<string>)
    ensures r.Some? ==> r.value in {"phone", "in-person", "both"}
  {
    var t := Lower(Trim(piece));
    if t in InterviewWords then Some(if t == "in person" then "in-person" else t) else None
  }

  /** The kinds named in the field, split on ',' and '/', in order and with repeats. */
  function InterviewTypes(raw: Option<string>): (r: seq<string>)
  {
    if Truthy(raw) then FilterMap(InterviewType, SplitOnAny(raw.value, {',', '/'})) else []
  }

  predicate IsInterviewKind(t: string)
  {
    t in {"phone", "in-person", "both"}
  }

  /** Every kind recorded is "phone", "in-person" or "both". */
  lemma InterviewTypesCanonical(raw: Option<string>)
    ensures forall i :: 0 <= i < |InterviewTypes(raw)| ==> IsInterviewKind(InterviewTypes(raw)[i])
  {
    if Truthy(raw) {
      FilterMapAll(InterviewType, IsInterviewKind, SplitOnAny(raw.value, {',', '/'}));
    }
  }

  /**
   * Spelled with a space or a hyphen, in any case and with any padding, the
   * in-person kind is recorded as "in-person"; no other piece is.
   */
  lemma InPersonSpelling(piece: string)
    ensures InterviewType(piece) == Some("in-person") <==> Lower(Trim(piece)) in {"in person", "in-person"}
  {
  }

  /** A stripped, non-empty piece of a language list. */
  function Language(piece: string): (r: Option<string>)
    ensures r.Some? ==> r.value != [] && IsTrimmed(r.value)
  {
    TrimIsTrimmed(piece);
    if Trim(piece) != [] then Some(Trim(piece)) else None
  }

  predicate IsLanguage(l: string)
  {
    l != [] && IsTrimmed(l)
  }

  /** `split_langs`: absent stays absent; "English only" is English; otherwise the pieces between ',' and ';'. */
  function SplitLangs(raw: Option<string>): (r: Option<seq<string>>)
    ensures !Truthy(raw) <==> r.None?
  {
    if !Truthy(raw) then None
    else if Lower(raw.value) == "english only" then Some(["English"])
    else Some(FilterMap(Language, SplitOnAny(raw.value, {',', ';'})))
  }

  lemma EnglishOnly()
    ensures SplitLangs(Some("English only")) == Some(["English"])
  {
    LowerPointwise("English only", "english only");
  }

  /** Every language listed is non-empty and stripped. */
  lemma LanguagesAreClean(raw: Option<string>)
    ensures SplitLangs(raw).Some? ==> forall i :: 0 <= i < |SplitLangs(raw).value| ==> IsLanguage(SplitLangs(raw).value[i])
  {
    if Truthy(raw) && Lower(raw.value) != "english only" {
      FilterMapAll(Language, IsLanguage, SplitOnAny(raw.value, {',', ';'}));
    }
  }

  // ---------------------------------------------------------------------------
  // parse_state

  /** The one message a guarded `append` adds when its condition holds, or nothing. */
  function Flag(b: bool, message: string): (r: seq<string>)
    ensures |r| <= 1 && (r != [] <==> b)
  {
    if b then [message] else []
  }

  /** The warnings in the order they are raised, from the five conditions that raise them. */
  function Warnings(noDate: bool, noSource: bool, noSteps: bool, inferred: bool, noComplexity: bool): seq<string>
  {
    Flag(noDate, CollectedWarning) + Flag(noSource, SourceWarning) + Flag(noSteps, StepsWarning) +
    Flag(inferred, InferredWarning) + Flag(noComplexity, ComplexityWarning)
  }

  /** Each warning is raised exactly when its condition holds, at most once, and there are at most five. */
  lemma WarningsMeaning(noDate: bool, noSource: bool, noSteps: bool, inferred: bool, noComplexity: bool)
    ensures var w := Warnings(noDate, noSource, noSteps, inferred, noComplexity);
      (CollectedWarning in w <==> noDate) && (SourceWarning in w <==> noSource) &&
      (StepsWarning in w <==> noSteps) && (InferredWarning in w <==> inferred) &&
      (ComplexityWarning in w <==> noComplexity) && |w| <= 5
  {
    WarningsDistinct();
  }

  lemma WarningsDistinct()
    ensures CollectedWarning != SourceWarning && CollectedWarning != StepsWarning
    ensures CollectedWarning != InferredWarning && CollectedWarning != ComplexityWarning
    ensures SourceWarning != StepsWarning && SourceWarning != InferredWarning && SourceWarning != ComplexityWarning
    ensures StepsWarning != InferredWarning && StepsWarning != ComplexityWarning
    ensures InferredWarning != ComplexityWarning
  {
    assert |CollectedWarning| == 36 && |SourceWarning| == 32 && |StepsWarning| == 46;
    assert |InferredWarning| == 62 && |ComplexityWarning| == 37;
    assert CollectedWarning[1] != ComplexityWarning[1];
  }

  /** The steps of the "Steps" subsection, or of the whole section when that has none. */
  function StepsOf(app: string): (steps: seq<string>)
    ensures steps == [] ==> Steps(GetSubsection(app, "Steps")) == [] && Steps(app) == []
  {
    var fromSub := Steps(GetSubsection(app, "Steps"));
    if fromSub != [] then fromSub else Steps(app)
  }

  /** The interview-type loop: each piece of the field, stripped and lower-cased, kept when it names a kind. */
  method CollectInterviewTypes(raw: Option<string>) returns (types: seq<string>)
    ensures types == InterviewTypes(raw)
  {
    types := [];
    if Truthy(raw) {
      var pieces := SplitOnAny(raw.value, {',', '/'});
      var k := 0;
      while k < |pieces|
        invariant 0 <= k <= |pieces|
        invariant types == FilterMap(InterviewType, pieces[..k])
      {
        FilterMapStep(InterviewType, pieces, k);
        var t := Lower(Trim(pieces[k]));
        if t in InterviewWords {
          types := types + [if t == "in person" then "in-person" else t];
        }
        k := k + 1;
      }
      TakeAll(pieces);
    }
  }

  /** The "application" part of the record. */
  function ApplicationOf(app: string, stepsCount: Option<nat>, steps: seq<string>): (r: Application)
    ensures r.stepsCount == stepsCount && r.steps == steps
  {
    Application(
      ToBool(ExtractField(app, "Online Application Available")), ExtractField(app, "Online Application URL"),
      ToBool(ExtractField(app, "Online Document Submission Available")),
      ExtractField(app, "Online Document Submission Notes"),
      stepsCount, steps)
  }

  /** The "interview" part of the record; `types` are the kinds found, absent when there are none. */
  function InterviewOf(interview: string, types: seq<string>): (r: Interview)
    ensures r.typeOptions.None? <==> types == []
    ensures r.typeOptions.Some? ==> r.typeOptions.value == types
    ensures r.hoursSpecified <==> r.hoursDescription.Some?
  {
    var sched := GetSubsection(interview, "Scheduling");
    var timing := GetSubsection(interview, "Timing and Hours");
    var reminder := GetSubsection(interview, "Reminder Process");
    var reschedule := GetSubsection(interview, "Rescheduling");
    var penalty := GetSubsection(interview, "Missed Interview Penalties");
    var whenConducted := ExtractField(timing, "When Interviews Are Conducted");
    Interview(
      ToBool(ExtractField(interview, "Interview Required")), if types == [] then None else Some(types),
      ExtractField(sched, "How to Schedule"), ExtractField(sched, "Scheduling URL"),
      whenConducted.Some?, whenConducted,
      ToBool(ExtractField(timing, "Evening or Weekend Hours Available")), ExtractField(timing, "Hours Notes"),
      ToBool(ExtractField(reminder, "Reminders Sent")), ExtractField(reminder, "Reminder Method"),
      ToBool(ExtractField(reschedule, "Reschedule Available")), ExtractField(reschedule, "How to Reschedule"),
      ExtractField(reschedule, "Reschedule URL"),
      ExtractField(penalty, "Penalty for Missing Interview"), ToBool(ExtractField(penalty, "Good Cause Exceptions")),
      ExtractField(penalty, "Good Cause Notes"))
  }

  /** The "language_access" part of the record. */
  function LanguageAccessOf(lang: string): (r: LanguageAccess)
    ensures r.websiteLanguages.None? <==> ExtractField(lang, "Languages Supported on Website").None?
    ensures r.formLanguages.None? <==> ExtractField(lang, "Languages Supported on Forms").None?
  {
    LanguageAccess(
      SplitLangs(ExtractField(lang, "Languages Supported on Website")),
      SplitLangs(ExtractField(lang, "Languages Supported on Forms")),
      ExtractField(lang, "Translation Method"), ExtractField(lang, "Language Access Notes"))
  }

  /** The "complexity" part of the record, with the step count already settled. */
  function ComplexityOf(complexity: string, stepsCount: Option<nat>): (r: Complexity)
    ensures r.stepsCount == stepsCount
  {
    Complexity(
      stepsCount, IntegerField(ExtractField(complexity, "Estimated Total Forms to Complete")),
      ExtractField(complexity, "Estimated Reading Level"), ExtractField(complexity, "Reading Level Notes"))
  }

  /** The number of forms: the "Total Forms Found" field, else the number of table rows when there are any. */
  function TotalForms(forms: string): (r: Option<nat>)
    ensures IntegerField(ExtractField(forms, "Total Forms Found")).Some? ==>
      r == IntegerField(ExtractField(forms, "Total Forms Found"))
    ensures FormsInferred(forms) ==> r == Some(|FormTable(forms)|)
    ensures r.None? ==> FormTable(forms) == []
  {
    var declared := IntegerField(ExtractField(forms, "Total Forms Found"));
    if declared.None? && FormTable(forms) != [] then Some(|FormTable(forms)|) else declared
  }

  /** The count is inferred from the table: the field gives no number and the table has rows. */
  predicate FormsInferred(forms: string)
  {
    IntegerField(ExtractField(forms, "Total Forms Found")).None? && FormTable(forms) != []
  }

  /** The number of steps: "Estimated Number of Steps", else the number of steps found when there are any. */
  function StepsCount(complexity: string, steps: seq<string>): (r: Option<nat>)
    ensures IntegerField(ExtractField(complexity, "Estimated Number of Steps")).Some? ==>
      r == IntegerField(ExtractField(complexity, "Estimated Number of Steps"))
    ensures IntegerField(ExtractField(complexity, "Estimated Number of Steps")).None? ==>
      r == if steps == [] then None else Some(|steps|)
  {
    var declared := IntegerField(ExtractField(complexity, "Estimated Number of Steps"));
    if declared.None? && steps != [] then Some(|steps|) else declared
  }

  /** The two counts of the URLS REFERENCED section, zero when it is absent or empty. */
  function UrlCounts(urls: string): (r: (nat, nat))
    ensures urls == "" ==> r == (0, 0)
  {
    if urls != "" then ParseUrlsSection(urls) else (0, 0)
  }

  /** The record `parse_state` builds from the sections of a report that is neither missing nor a placeholder. */
  function Record(name: string, abbreviation: string, sections: map<string, string>,
                  pagesDownloaded: nat, formsDownloaded: nat, timestamp: string): (m: Metadata)
    ensures m.state == name && m.abbreviation == abbreviation
  {
    var preamble := Get(sections, Preamble);
    var app := Get(sections, ApplicationSection);
    var docs := Get(sections, DocumentsSection);
    var interview := Get(sections, InterviewSection);
    var forms := Get(sections, FormsSection);
    var lang := Get(sections, LanguageSection);
    var complexity := Get(sections, ComplexitySection);
    var collectedDate := ExtractField(preamble, "Collected");
    var sourceUrl := ExtractField(preamble, "Source URL");
    var steps := StepsOf(app);
    var stepsCount := StepsCount(complexity, steps);
    var docItems := ListItems(docs);
    var errors := MissingSections(sections, RequiredSections);
    var warnings := Warnings(collectedDate.None?, sourceUrl.None?, steps == [], FormsInferred(forms), complexity == "");
    var referenced := UrlCounts(Get(sections, UrlsSection));
    Metadata(
      name, abbreviation, collectedDate, sourceUrl,
      ApplicationOf(app, stepsCount, steps),
      Documents(|docItems| > 0, docItems),
      InterviewOf(interview, InterviewTypes(ExtractField(interview, "Interview Type Options"))),
      FormsInfo(TotalForms(forms), FormTable(forms)),
      LanguageAccessOf(lang),
      ComplexityOf(complexity, stepsCount),
      Assets(referenced.0, referenced.1, pagesDownloaded, formsDownloaded),
      ParseStatus(|errors| == 0, timestamp, warnings, errors))
  }

  /** The errors are one per required section that is absent or empty, in the order the sections are checked. */
  lemma RecordErrors(name: string, abbreviation: string, sections: map<string, string>,
                     pagesDownloaded: nat, formsDownloaded: nat, timestamp: string)
    ensures Record(name, abbreviation, sections, pagesDownloaded, formsDownloaded, timestamp).parseStatus.errors ==
      Flag(Get(sections, ApplicationSection) == "", MissingError(ApplicationSection)) +
      Flag(Get(sections, DocumentsSection) == "", MissingError(DocumentsSection)) +
      Flag(Get(sections, InterviewSection) == "", MissingError(InterviewSection)) +
      Flag(Get(sections, FormsSection) == "", MissingError(FormsSection)) +
      Flag(Get(sections, LanguageSection) == "", MissingError(LanguageSection))
  {
    MissingFive(sections);
  }

  /** `parsed` holds exactly when every required section is present and non-empty. */
  lemma RecordParsed(name: string, abbreviation: string, sections: map<string, string>,
                     pagesDownloaded: nat, formsDownloaded: nat, timestamp: string)
    ensures var status := Record(name, abbreviation, sections, pagesDownloaded, formsDownloaded, timestamp).parseStatus;
      (status.parsed <==> forall i :: 0 <= i < |RequiredSections| ==> Get(sections, RequiredSections[i]) != "") &&
      status.timestamp == timestamp
  {
    NoMissingIff(sections, RequiredSections);
  }

  /** Each warning is present exactly when the record shows the gap it reports. */
  lemma RecordWarnings(name: string, abbreviation: string, sections: map<string, string>,
                       pagesDownloaded: nat, formsDownloaded: nat, timestamp: string)
    ensures var m := Record(name, abbreviation, sections, pagesDownloaded, formsDownloaded, timestamp);
      var w := m.parseStatus.warnings;
      (CollectedWarning in w <==> m.collectedDate.None?) && (SourceWarning in w <==> m.sourceUrl.None?) &&
      (StepsWarning in w <==> m.application.steps == []) &&
      (InferredWarning in w <==> FormsInferred(Get(sections, FormsSection))) &&
      (ComplexityWarning in w <==> Get(sections, ComplexitySection) == "") && |w| <= 5
  {
    var m := Record(name, abbreviation, sections, pagesDownloaded, formsDownloaded, timestamp);
    WarningsMeaning(m.collectedDate.None?, m.sourceUrl.None?, m.application.steps == [],
                    FormsInferred(Get(sections, FormsSection)), Get(sections, ComplexitySection) == "");
  }

  /**
   * The step count is shared by the application and complexity parts: the
   * declared count when there is one, else the number of steps found, and
   * absent only when neither exists.
   */
  lemma RecordStepCount(name: string, abbreviation: string, sections: map<string, string>,
                        pagesDownloaded: nat, formsDownloaded: nat, timestamp: string)
    ensures var m := Record(name, abbreviation, sections, pagesDownloaded, formsDownloaded, timestamp);
      var declared := IntegerField(ExtractField(Get(sections, ComplexitySection), "Estimated Number of Steps"));
      m.application.stepsCount == m.complexity.stepsCount &&
      (declared.Some? ==> m.application.stepsCount == declared) &&
      (declared.None? ==> m.application.stepsCount == if m.application.steps == [] then None else Some(|m.application.steps|))
  {
  }

  /** The form count is the declared one, else the table's row count; without either the table is empty. */
  lemma RecordFormCount(name: string, abbreviation: string, sections: map<string, string>,
                        pagesDownloaded: nat, formsDownloaded: nat, timestamp: string)
    ensures var m := Record(name, abbreviation, sections, pagesDownloaded, formsDownloaded, timestamp);
      var declared := IntegerField(ExtractField(Get(sections, FormsSection), "Total Forms Found"));
      (declared.Some? ==> m.forms.totalCount == declared) &&
      (declared.None? && m.forms.formList != [] ==> m.forms.totalCount == Some(|m.forms.formList|)) &&
      (m.forms.totalCount.None? ==> m.forms.formList == []) &&
      (m.documents.specifiedOnWebsite <==> m.documents.documentList != [])
  {
  }

  // The steps of parse_state, in the order the source takes them. Each guarded
  // `append` sits in a small method of its own, so that the record is
  // assembled by straight-line code.

  /** `sections.get(key, "")`, with the error for a required section that is absent or empty. */
  method RequireSection(sections: map<string, string>, key: string, errors0: seq<string>)
    returns (text: string, errors: seq<string>)
    ensures text == Get(sections, key)
    ensures errors == errors0 + Flag(text == "", MissingError(key))
  {
    text := Get(sections, key);
    errors := errors0;
    if text == "" {
      errors := errors + [MissingError(key)];
    }
  }

  /** Preamble: the "Collected" and "Source URL" fields, with a warning for each that is missing. */
  method ReadPreamble(preamble: string, warnings0: seq<string>)
    returns (collectedDate: Option<string>, sourceUrl: Option<string>, warnings: seq<string>)
    ensures collectedDate == ExtractField(preamble, "Collected")
    ensures sourceUrl == ExtractField(preamble, "Source URL")
    ensures warnings == warnings0 + Flag(collectedDate.None?, CollectedWarning) + Flag(sourceUrl.None?, SourceWarning)
  {
    warnings := warnings0;
    collectedDate := ExtractField(preamble, "Collected");
    sourceUrl := ExtractField(preamble, "Source URL");
    if !Truthy(collectedDate) {
      warnings := warnings + [CollectedWarning];
    }
    if !Truthy(sourceUrl) {
      warnings := warnings + [SourceWarning];
    }
  }

  /** The numbered steps of APPLICATION PROCESS, with a warning when there are none. */
  method FindSteps(app: string, warnings0: seq<string>) returns (steps: seq<string>, warnings: seq<string>)
    ensures steps == StepsOf(app)
    ensures warnings == warnings0 + Flag(steps == [], StepsWarning)
  {
    warnings := warnings0;
    steps := ExtractNumberedSteps(GetSubsection(app, "Steps"));
    if steps == [] {
      steps := ExtractNumberedSteps(app);
    }
    if steps == [] {
      warnings := warnings + [StepsWarning];
    }
  }

  /** FORMS: the declared count, the table, and the inferred count with its warning. */
  method ReadForms(forms: string, warnings0: seq<string>)
    returns (totalForms: Option<nat>, formList: seq<FormRow>, warnings: seq<string>)
    ensures totalForms == TotalForms(forms) && formList == FormTable(forms)
    ensures warnings == warnings0 + Flag(FormsInferred(forms), InferredWarning)
  {
    warnings := warnings0;
    totalForms := IntegerField(ExtractField(forms, "Total Forms Found"));
    formList := ExtractFormTable(forms);
    if totalForms.None? && formList != [] {
      totalForms := Some(|formList|);
      warnings := warnings + [InferredWarning];
    }
  }

  /** COMPLEXITY ASSESSMENT: the section, with a warning when it is absent or empty. */
  method ReadComplexity(sections: map<string, string>, warnings0: seq<string>)
    returns (complexity: string, warnings: seq<string>)
    ensures complexity == Get(sections, ComplexitySection)
    ensures warnings == warnings0 + Flag(complexity == "", ComplexityWarning)
  {
    complexity := Get(sections, ComplexitySection);
    warnings := warnings0;
    if complexity == "" {
      warnings := warnings + [ComplexityWarning];
    }
  }

  /** The step count: the declared one, else the number of steps found when there are any. */
  method CountSteps(complexity: string, steps: seq<string>) returns (stepsCount: Option<nat>)
    ensures stepsCount == StepsCount(complexity, steps)
  {
    stepsCount := IntegerField(ExtractField(complexity, "Estimated Number of Steps"));
    if stepsCount.None? && steps != [] {
      stepsCount := Some(|steps|);
    }
  }

  /** Everything after the split: the record, with the warnings and errors it carries. */
  method Assemble(name: string, abbreviation: string, sections: map<string, string>,
                  pagesDownloaded: nat, formsDownloaded: nat, timestamp: string)
    returns (meta: Metadata, warnings: seq<string>, errors: seq<string>)
    ensures meta == Record(name, abbreviation, sections, pagesDownloaded, formsDownloaded, timestamp)
    ensures warnings == meta.parseStatus.warnings && errors == meta.parseStatus.errors
  {
    warnings := [];
    errors := [];

    var collectedDate, sourceUrl;
    collectedDate, sourceUrl, warnings := ReadPreamble(Get(sections, Preamble), warnings);

    assert warnings == Flag(collectedDate.None?, CollectedWarning) + Flag(sourceUrl.None?, SourceWarning);
    var app;
    app, errors := RequireSection(sections, ApplicationSection, errors);
    assert errors == Flag(app == "", MissingError(ApplicationSection));
    var steps;
    steps, warnings := FindSteps(app, warnings);

    var docs;
    docs, errors := RequireSection(sections, DocumentsSection, errors);
    var docItems := ExtractListItems(docs);

    var interview;
    interview, errors := RequireSection(sections, InterviewSection, errors);
    var interviewTypes := CollectInterviewTypes(ExtractField(interview, "Interview Type Options"));

    var formsSection;
    formsSection, errors := RequireSection(sections, FormsSection, errors);
    var totalForms, formList;
    totalForms, formList, warnings := ReadForms(formsSection, warnings);

    var lang;
    lang, errors := RequireSection(sections, LanguageSection, errors);

    var complexity;
    complexity, warnings := ReadComplexity(sections, warnings);
    var stepsCount := CountSteps(complexity, steps);

    var referenced := UrlCounts(Get(sections, UrlsSection));

    MissingFive(sections);
    meta := Metadata(
      name, abbreviation, collectedDate, sourceUrl,
      ApplicationOf(app, stepsCount, steps),
      Documents(|docItems| > 0, docItems),
      InterviewOf(interview, interviewTypes),
      FormsInfo(totalForms, formList),
      LanguageAccessOf(lang),
      ComplexityOf(complexity, stepsCount),
      Assets(referenced.0, referenced.1, pagesDownloaded, formsDownloaded),
      ParseStatus(|errors| == 0, timestamp, warnings, errors));
  }

  /** `parse_state` on the file's content (absent when the file does not exist). */
  method ParseState(name: string, abbreviation: string, content: Option<string>,
                    pagesDownloaded: nat, formsDownloaded: nat, timestamp: string)
    returns (meta: Option<Metadata>, warnings: seq<string>, errors: seq<string>)
    ensures content.None? ==> meta.None? && warnings == [NotFoundMessage] && errors == []
    ensures content.Some? && Contains(content.value, PlaceholderMarker) ==>
      meta.None? && warnings == [] && errors == [PlaceholderMessage]
    ensures content.Some? && !Contains(content.value, PlaceholderMarker) ==>
      meta == Some(Record(name, abbreviation, Sections.Sections(content.value), pagesDownloaded, formsDownloaded, timestamp))
    ensures meta.Some? ==> warnings == meta.value.parseStatus.warnings && errors == meta.value.parseStatus.errors
  {
    if content.None? {
      return None, [NotFoundMessage], [];
    }
    var text := content.value;
    if Contains(text, PlaceholderMarker) {
      return None, [], [PlaceholderMessage];
    }
    var sections := SplitSections(text);
    var m;
    m, warnings, errors := Assemble(name, abbreviation, sections, pagesDownloaded, formsDownloaded, timestamp);
    meta := Some(m);
  }

  /** The five checks in the order they are made. */
  lemma MissingFive(sections: map<string, string>)
    ensures MissingSections(sections, RequiredSections) ==
      Flag(Get(sections, ApplicationSection) == "", MissingError(ApplicationSection)) +
      Flag(Get(sections, DocumentsSection) == "", MissingError(DocumentsSection)) +
      Flag(Get(sections, InterviewSection) == "", MissingError(InterviewSection)) +
      Flag(Get(sections, FormsSection) == "", MissingError(FormsSection)) +
      Flag(Get(sections, LanguageSection) == "", MissingError(LanguageSection))
  {
    var n1: seq<string> := [ApplicationSection];
    var n2 := n1 + [DocumentsSection];
    var n3 := n2 + [InterviewSection];
    var n4 := n3 + [FormsSection];
    assert RequiredSections == n4 + [LanguageSection];
    MissingSnoc(sections, [], ApplicationSection);
    assert [] + n1 == n1;
    MissingSnoc(sections, n1, DocumentsSection);
    MissingSnoc(sections, n2, InterviewSection);
    MissingSnoc(sections, n3, FormsSection);
    MissingSnoc(sections, n4, LanguageSection);
  }

  lemma MissingSnoc(sections: map<string, string>, names: seq<string>, name: string)
    ensures MissingSections(sections, names + [name]) ==
      MissingSections(sections, names) + Flag(Get(sections, name) == "", MissingError(name))
  {
    assert ButLast(names + [name]) == names;
  }
}
