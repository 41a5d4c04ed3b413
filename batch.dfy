/**
 * The batch loop of the report parser's `main`: the outcome of parsing each
 * state in turn is folded into four counters and appended to the parse log.
 * Printing, the log file itself and the clock are left to the caller: each
 * outcome carries the timestamp its log entry would be stamped with.
 */
module Batch {
  import opened StrOps

  /** The name and abbreviation of one state of the list. */
  datatype StateEntry = StateEntry(name: string, abbreviation: string)

  /** What `parse_state` returned for one state: whether there is a record, and its warnings and errors. */
  datatype Outcome = Outcome(
    entry: StateEntry,
    recorded: bool,
    warnings: seq<string>,
    errors: seq<string>,
    timestamp: string)

  /** One entry appended to the parse log. */
  datatype LogEntry = LogEntry(
    state: string,
    abbreviation: string,
    timestamp: string,
    warnings: seq<string>,
    errors: seq<string>)

  /** The four counters of the loop. */
  datatype Totals = Totals(processed: nat, skipped: nat, warnings: nat, errors: nat)

  /** The number of outcomes with a record: the states parsed. */
  function Processed(outcomes: seq<Outcome>): nat
  {
    if outcomes == [] then 0
    else Processed(ButLast(outcomes)) + if outcomes[|outcomes| - 1].recorded then 1 else 0
  }

  /** The number of outcomes without a record: the states skipped. */
  function Skipped(outcomes: seq<Outcome>): nat
  {
    if outcomes == [] then 0
    else Skipped(ButLast(outcomes)) + if outcomes[|outcomes| - 1].recorded then 0 else 1
  }

  /** The warnings of the parsed states, counted; a skipped state's warnings are not. */
  function WarningTotal(outcomes: seq<Outcome>): nat
  {
    if outcomes == [] then 0
    else
      var o := outcomes[|outcomes| - 1];
      WarningTotal(ButLast(outcomes)) + if o.recorded then |o.warnings| else 0
  }

  /** The errors of the parsed states, counted; a skipped state's errors are not. */
  function ErrorTotal(outcomes: seq<Outcome>): nat
  {
    if outcomes == [] then 0
    else
      var o := outcomes[|outcomes| - 1];
      ErrorTotal(ButLast(outcomes)) + if o.recorded then |o.errors| else 0
  }

  /** The counters after a run over `outcomes`. */
  function Tally(outcomes: seq<Outcome>): Totals
  {
    Totals(Processed(outcomes), Skipped(outcomes), WarningTotal(outcomes), ErrorTotal(outcomes))
  }

  /** The log entry an outcome contributes: only one with a record is logged. */
  function EntryOf(o: Outcome): (r: seq<LogEntry>)
    ensures |r| <= 1 && (r != [] <==> o.recorded)
  {
    if o.recorded then [LogEntry(o.entry.name, o.entry.abbreviation, o.timestamp, o.warnings, o.errors)]
    else []
  }

  /** The entries a run over `outcomes` appends, in the order of the states. */
  function LogOf(outcomes: seq<Outcome>): seq<LogEntry>
  {
    if outcomes == [] then []
    else LogOf(ButLast(outcomes)) + EntryOf(outcomes[|outcomes| - 1])
  }

  /** The loop of `main`, from the log loaded before the run. */
  method RunBatch(log0: seq<LogEntry>, outcomes: seq<Outcome>) returns (log: seq<LogEntry>, totals: Totals)
    ensures log == log0 + LogOf(outcomes)
    ensures totals == Tally(outcomes)
  {
    log := log0;
    var processed: nat, skipped: nat, totalWarnings: nat, totalErrors: nat := 0, 0, 0, 0;
    assert outcomes[..0] == [] && log0 + [] == log0;
    var i := 0;
    while i < |outcomes|
      invariant 0 <= i <= |outcomes|
      invariant log == log0 + LogOf(outcomes[..i])
      invariant processed == Processed(outcomes[..i]) && skipped == Skipped(outcomes[..i])
      invariant totalWarnings == WarningTotal(outcomes[..i]) && totalErrors == ErrorTotal(outcomes[..i])
    {
      var o := outcomes[i];
      ghost var done := outcomes[..i];
      ButLastOfTake(outcomes, i);
      assert outcomes[..i + 1][i] == o;
      if !o.recorded && o.errors == [] {
        skipped := skipped + 1;
        AppendNothing(LogOf(done), EntryOf(o));
      } else if !o.recorded {
        skipped := skipped + 1;
        AppendNothing(LogOf(done), EntryOf(o));
      } else {
        processed := processed + 1;
        totalWarnings := totalWarnings + |o.warnings|;
        totalErrors := totalErrors + |o.errors|;
        log := log + [LogEntry(o.entry.name, o.entry.abbreviation, o.timestamp, o.warnings, o.errors)];
        AppendAssoc(log0, LogOf(done), EntryOf(o));
      }
      i := i + 1;
    }
    TakeAll(outcomes);
    totals := Totals(processed, skipped, totalWarnings, totalErrors);
  }

  lemma AppendNothing<T>(a: seq<T>, b: seq<T>)
    requires b == []
    ensures a + b == a
  {
  }

  lemma AppendAssoc<T>(a: seq<T>, b: seq<T>, c: seq<T>)
    ensures a + (b + c) == (a + b) + c
  {
  }

  /** `--strict` makes the run fail exactly when some parsed state had errors. */
  function ExitCode(strict: bool, totals: Totals): (code: int)
    ensures code == 0 || code == 1
    ensures code == 1 <==> strict && totals.errors > 0
  {
    if strict && totals.errors > 0 then 1 else 0
  }

  // ---------------------------------------------------------------------------
  // What the counters mean

  /** Every state is either parsed or skipped, and every parsed state has one log entry. */
  lemma {:induction false} EveryStateCounted(outcomes: seq<Outcome>)
    ensures Processed(outcomes) + Skipped(outcomes) == |outcomes|
    ensures Processed(outcomes) == |LogOf(outcomes)|
    decreases |outcomes|
  {
    if outcomes != [] {
      EveryStateCounted(ButLast(outcomes));
    }
  }

  /** The totals are the sums of the logged entries' counts. */
  lemma {:induction false} TotalsAreLogged(outcomes: seq<Outcome>)
    ensures WarningTotal(outcomes) == WarningCount(LogOf(outcomes))
    ensures ErrorTotal(outcomes) == ErrorCount(LogOf(outcomes))
    decreases |outcomes|
  {
    if outcomes != [] {
      var front := ButLast(outcomes);
      var last := outcomes[|outcomes| - 1];
      TotalsAreLogged(front);
      CountsAppend(LogOf(front), EntryOf(last));
    }
  }

  function WarningCount(log: seq<LogEntry>): nat
  {
    if log == [] then 0 else WarningCount(ButLast(log)) + |log[|log| - 1].warnings|
  }

  function ErrorCount(log: seq<LogEntry>): nat
  {
    if log == [] then 0 else ErrorCount(ButLast(log)) + |log[|log| - 1].errors|
  }

  lemma {:induction false} CountsAppend(a: seq<LogEntry>, b: seq<LogEntry>)
    requires |b| <= 1
    ensures WarningCount(a + b) == WarningCount(a) + WarningCount(b)
    ensures ErrorCount(a + b) == ErrorCount(a) + ErrorCount(b)
  {
    if b == [] {
      assert a + b == a;
    } else {
      ButLastSnoc(a, b[0]);
      assert a + b == a + [b[0]];
      assert ButLast(b) == [];
    }
  }

  /** The outcome adds no error: a skipped state, or a parsed one without errors. */
  predicate Clean(o: Outcome)
  {
    !o.recorded || o.errors == []
  }

  /** No error in total exactly when no state with a record had an error; skipped states never count. */
  lemma {:induction false} NoErrorsIff(outcomes: seq<Outcome>)
    ensures ErrorTotal(outcomes) == 0 <==> forall i :: 0 <= i < |outcomes| ==> Clean(outcomes[i])
    decreases |outcomes|
  {
    if outcomes != [] {
      var front := ButLast(outcomes);
      NoErrorsIff(front);
      forall i | 0 <= i < |front|
        ensures front[i] == outcomes[i]
      {
      }
    }
  }

  /** Runs compose: the counters of a run over `a + b` are those of `a` plus those of `b`. */
  lemma {:induction false} TallyAppend(a: seq<Outcome>, b: seq<Outcome>)
    ensures Processed(a + b) == Processed(a) + Processed(b) && Skipped(a + b) == Skipped(a) + Skipped(b)
    ensures WarningTotal(a + b) == WarningTotal(a) + WarningTotal(b)
    ensures ErrorTotal(a + b) == ErrorTotal(a) + ErrorTotal(b)
    ensures LogOf(a + b) == LogOf(a) + LogOf(b)
    decreases |b|
  {
    if b == [] {
      assert a + b == a;
    } else {
      var c := a + b;
      var y := b[|b| - 1];
      SnocButLast(b);
      assert c == (a + ButLast(b)) + [y];
      ButLastSnoc(a + ButLast(b), y);
      TallyAppend(a, ButLast(b));
    }
  }
}
