/**
 * The summary line of one state's download run: how many results were
 * downloaded, skipped or failed, counted from the status each download
 * reported. A status the download never set counts as the empty text.
 */
module Statuses {
  import opened StrOps

  /** The statuses a download reports. */
  const DryRun := "dry-run"
  const Exists := "skipped (already exists)"
  const TooLarge := "skipped (>50MB)"
  const Success := "success"
  const Retried := "success (after 429 retry)"
  const Failed := "error"

  /** `r.get("status") or ""`. */
  function StatusText(status: Option<string>): (t: string)
    ensures status.Some? ==> t == status.value
    ensures status.None? ==> t == []
  {
    if status.Some? then status.value else ""
  }

  predicate IsSuccess(status: Option<string>) { Contains(StatusText(status), Success) }
  predicate IsSkipped(status: Option<string>) { Contains(StatusText(status), "skipped") }
  predicate IsError(status: Option<string>) { status == Some(Failed) }

  /** The number of results counted as downloaded. */
  function SuccessCount(statuses: seq<Option<string>>): nat
  {
    if statuses == [] then 0
    else SuccessCount(ButLast(statuses)) + if IsSuccess(statuses[|statuses| - 1]) then 1 else 0
  }

  /** The number of results counted as skipped. */
  function SkippedCount(statuses: seq<Option<string>>): nat
  {
    if statuses == [] then 0
    else SkippedCount(ButLast(statuses)) + if IsSkipped(statuses[|statuses| - 1]) then 1 else 0
  }

  /** The number of results counted as errors. */
  function ErrorCount(statuses: seq<Option<string>>): nat
  {
    if statuses == [] then 0
    else ErrorCount(ButLast(statuses)) + if IsError(statuses[|statuses| - 1]) then 1 else 0
  }

  /** The three counts of the summary line, over the results in order. */
  method CountStatuses(statuses: seq<Option<string>>) returns (success: nat, skipped: nat, errors: nat)
    ensures success == SuccessCount(statuses)
    ensures skipped == SkippedCount(statuses)
    ensures errors == ErrorCount(statuses)
  {
    success, skipped, errors := 0, 0, 0;
    for i := 0 to |statuses|
      invariant success == SuccessCount(statuses[..i])
      invariant skipped == SkippedCount(statuses[..i])
      invariant errors == ErrorCount(statuses[..i])
    {
      ButLastOfTake(statuses, i);
      var text := StatusText(statuses[i]);
      if Contains(text, Success) {
        success := success + 1;
      }
      if Contains(text, "skipped") {
        skipped := skipped + 1;
      }
      if statuses[i] == Some(Failed) {
        errors := errors + 1;
      }
    }
    TakeAll(statuses);
  }

  /** A text without some character of `p` does not contain `p`. */
  lemma CharMissing(s: string, p: string, k: nat)
    requires k < |p| && p[k] !in s
    ensures !Contains(s, p)
  {
  }

  /** A text that starts with `p` contains it. */
  lemma PrefixContained(s: string, p: string)
    requires StartsWith(s, p)
    ensures Contains(s, p)
  {
    ContainsIntro(s, p, 0);
  }

  /** The statuses a download can end with. */
  predicate IsKnown(status: Option<string>)
  {
    status == Some(DryRun) || status == Some(Exists) || status == Some(TooLarge)
    || status == Some(Success) || status == Some(Retried) || status == Some(Failed)
  }

  predicate IsDryRun(status: Option<string>) { status == Some(DryRun) }

  /** Each status a download can end with falls in exactly one class: downloaded, skipped, error or dry run. */
  lemma KnownStatusClass(status: Option<string>)
    requires IsKnown(status)
    ensures IsSuccess(status) ==> !IsSkipped(status) && !IsError(status) && !IsDryRun(status)
    ensures IsSkipped(status) ==> !IsError(status) && !IsDryRun(status)
    ensures IsSuccess(status) || IsSkipped(status) || IsError(status) || IsDryRun(status)
    ensures IsSuccess(status) <==> status == Some(Success) || status == Some(Retried)
    ensures IsSkipped(status) <==> status == Some(Exists) || status == Some(TooLarge)
  {
    var t := status.value;
    if status == Some(DryRun) {
      NeitherSuccessNorSkipped(t);
    } else if status == Some(Failed) {
      NeitherSuccessNorSkipped(t);
    } else if status == Some(Exists) {
      SkippedOnly(t);
    } else if status == Some(TooLarge) {
      SkippedOnly(t);
    } else if status == Some(Success) {
      SuccessOnly(t);
    } else {
      SuccessOnly(t);
    }
  }

  lemma NeitherSuccessNorSkipped(t: string)
    requires t == DryRun || t == Failed
    ensures !Contains(t, Success) && !Contains(t, "skipped")
  {
    CharMissing(t, Success, 0);
    CharMissing(t, "skipped", 1);
  }

  lemma SkippedOnly(t: string)
    requires t == Exists || t == TooLarge
    ensures !Contains(t, Success) && Contains(t, "skipped")
  {
    assert StartsWith(t, "skipped");
    PrefixContained(t, "skipped");
    CharMissing(t, Success, 2);
  }

  lemma SuccessOnly(t: string)
    requires t == Success || t == Retried
    ensures Contains(t, Success) && !Contains(t, "skipped")
  {
    assert StartsWith(t, Success);
    PrefixContained(t, Success);
    CharMissing(t, "skipped", 1);
  }

  /** The number of dry-run results, which the summary line does not show. */
  function DryRunCount(statuses: seq<Option<string>>): nat
  {
    if statuses == [] then 0
    else DryRunCount(ButLast(statuses)) + if IsDryRun(statuses[|statuses| - 1]) then 1 else 0
  }

  /**
   * When every status is one a download can end with, each result is counted
   * exactly once: as downloaded, skipped, an error, or (not shown) a dry run.
   */
  lemma {:induction false} StatusesPartition(statuses: seq<Option<string>>)
    requires forall i :: 0 <= i < |statuses| ==> IsKnown(statuses[i])
    ensures SuccessCount(statuses) + SkippedCount(statuses) + ErrorCount(statuses) + DryRunCount(statuses) == |statuses|
    decreases |statuses|
  {
    if statuses != [] {
      var front := ButLast(statuses);
      assert forall i :: 0 <= i < |front| ==> front[i] == statuses[i];
      StatusesPartition(front);
      KnownStatusClass(statuses[|statuses| - 1]);
    }
  }

  /** For any statuses at all, no count exceeds the number of results. */
  lemma {:induction false} CountsBounded(statuses: seq<Option<string>>)
    ensures SuccessCount(statuses) <= |statuses| && SkippedCount(statuses) <= |statuses|
    ensures ErrorCount(statuses) <= |statuses|
    ensures ErrorCount(statuses) + SkippedCount(statuses) <= |statuses|
    decreases |statuses|
  {
    if statuses != [] {
      CountsBounded(ButLast(statuses));
      var last := statuses[|statuses| - 1];
      if IsError(last) {
        NeitherSuccessNorSkipped(last.value);
      }
    }
  }
}
