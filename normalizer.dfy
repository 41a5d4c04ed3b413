/**
 * Canonicalisation of the raw strings pulled out of a report: sentinel values
 * become absent, yes/no words become a tri-state boolean, and a count is the
 * first run of decimal digits in its field.
 */
module Normalizer {
  import opened StrOps

  const NotSpecified := "not specified on website"

  /** The lower-cased, trimmed values that mean "not specified". */
  const Sentinels: set<string> := {NotSpecified, "n/a", "none", "unclear", ""}

  const TrueWords: set<string> := {"yes", "true", "1"}
  const FalseWords: set<string> := {"no", "false", "0"}

  /**
   * `normalize`: absent stays absent; otherwise the trimmed value, unless it is
   * a sentinel ignoring case, in which case the value is absent.
   */
  function Normalize(value: Option<string>): (r: Option<string>)
    ensures value.None? ==> r.None?
    ensures value.Some? ==> (r.None? <==> Lower(Trim(value.value)) in Sentinels)
    ensures r.Some? ==> r.value == Trim(value.value)
    ensures r.Some? ==> r.value != [] && IsTrimmed(r.value) && Lower(r.value) !in Sentinels
  {
    match value
    case None => None
    case Some(s) =>
      TrimIsTrimmed(s);
      var v := Trim(s);
      if Lower(v) in Sentinels then None else Some(v)
  }

  /** Normalising a normalised value changes nothing. */
  lemma NormalizeIdempotent(value: Option<string>)
    ensures Normalize(Normalize(value)) == Normalize(value)
  {
    var r := Normalize(value);
    if r.Some? {
      StrippedFixpoint(r.value, Whitespace);
    }
  }

  /** A value that is already trimmed is normalised by its lower-case form alone. */
  lemma NormalizeOfTrimmed(s: string)
    requires IsTrimmed(s)
    ensures Normalize(Some(s)) == if Lower(s) in Sentinels then None else Some(s)
  {
    StrippedFixpoint(s, Whitespace);
  }

  /** A padded sentinel in capitals becomes absent. */
  lemma NormalizePaddedSentinel()
    ensures Normalize(Some(" N/A ")) == None
  {
    TrimPadded(" ", "N/A", " ");
    assert " " + "N/A" + " " == " N/A ";
    var v := Trim(" N/A ");
    assert v == "N/A";
    assert Lower(v) == "n/a";
  }

  /** The empty string is a sentinel. */
  lemma NormalizeEmpty()
    ensures Normalize(Some("")) == None
  {
    assert Trim("") == "";
    assert Lower("") == "";
  }

  /** An ordinary value is kept, trimmed. */
  lemma NormalizeKeepsWords()
    ensures Normalize(Some(" Weekly ")) == Some("Weekly")
  {
    TrimPadded(" ", "Weekly", " ");
    assert " " + "Weekly" + " " == " Weekly ";
    assert Trim(" Weekly ") == "Weekly";
    WeeklyNotSentinel();
  }

  lemma WeeklyNotSentinel()
    ensures Lower("Weekly") !in Sentinels
  {
    assert Lower("Weekly") == "weekly";
  }

  /**
   * `to_bool`: a tri-state result. "yes"/"true"/"1" give true and
   * "no"/"false"/"0" give false, trimmed and ignoring case; anything else,
   * absent included, gives unknown.
   */
  function ToBool(value: Option<string>): (r: Option<bool>)
    ensures r == Some(true) <==> value.Some? && Lower(Trim(value.value)) in TrueWords
    ensures r == Some(false) <==> value.Some? && Lower(Trim(value.value)) in FalseWords
    ensures r.None? <==> value.None? || Lower(Trim(value.value)) !in TrueWords + FalseWords
  {
    match value
    case None => None
    case Some(s) =>
      var v := Lower(Trim(s));
      if v in TrueWords then Some(true)
      else if v in FalseWords then Some(false)
      else None
  }

  /** A field value is normalised before it is read as a boolean; normalising first makes no difference. */
  lemma ToBoolAfterNormalize(value: Option<string>)
    ensures ToBool(Normalize(value)) == ToBool(value)
  {
    if value.Some? {
      var w := Lower(Trim(value.value));
      if w in Sentinels {
        SentinelIsNotBoolean(w);
      } else {
        TrimIdempotent(value.value);
      }
    }
  }

  /** No sentinel reads as a boolean. */
  lemma SentinelIsNotBoolean(w: string)
    requires w in Sentinels
    ensures w !in TrueWords && w !in FalseWords
  {
  }

  // ---------------------------------------------------------------------------
  // The first-integer rule: `re.search(r'\d+', raw)` followed by `int(...)`.

  /** The index of the first digit at or after `i`. */
  function FirstDigitFrom(s: string, i: nat): (r: Option<nat>)
    requires i <= |s|
    ensures r.Some? ==> i <= r.value < |s| && IsDigit(s[r.value])
    ensures r.Some? ==> forall k :: i <= k < r.value ==> !IsDigit(s[k])
    ensures r.None? ==> forall k :: i <= k < |s| ==> !IsDigit(s[k])
    decreases |s| - i
  {
    if i == |s| then None
    else if IsDigit(s[i]) then Some(i)
    else FirstDigitFrom(s, i + 1)
  }

  /** The end of the run of digits that starts at `i`. */
  function DigitRunEnd(s: string, i: nat): (e: nat)
    requires i <= |s|
    ensures i <= e <= |s|
    ensures forall k :: i <= k < e ==> IsDigit(s[k])
    ensures e < |s| ==> !IsDigit(s[e])
    decreases |s| - i
  {
    if i < |s| && IsDigit(s[i]) then DigitRunEnd(s, i + 1) else i
  }

  /** The value of the leftmost maximal run of digits in `s`; absent when `s` has no digit. */
  function FirstInteger(s: string): (r: Option<nat>)
    ensures r.None? <==> forall k :: 0 <= k < |s| ==> !IsDigit(s[k])
  {
    match FirstDigitFrom(s, 0)
    case None => None
    case Some(i) => Some(DigitsValue(s[i..DigitRunEnd(s, i)]))
  }

  /** The rule as the assembler applies it to an extracted field: absent stays absent. */
  function IntegerField(raw: Option<string>): (r: Option<nat>)
    ensures raw.None? ==> r.None?
    ensures raw.Some? ==> (r.None? <==> forall k :: 0 <= k < |raw.value| ==> !IsDigit(raw.value[k]))
  {
    if raw.None? then None else FirstInteger(raw.value)
  }

  /** A number printed after digit-free text and before a non-digit is read back exactly. */
  lemma FirstIntegerOfDecimal(p: string, n: nat, q: string)
    requires forall k :: 0 <= k < |p| ==> !IsDigit(p[k])
    requires q == [] || !IsDigit(q[0])
    ensures FirstInteger(p + Decimal(n) + q) == Some(n)
  {
    var d := Decimal(n);
    var s := p + d + q;
    assert s[|p|] == d[0];
    var i := FirstDigitFrom(s, 0);
    assert forall k :: 0 <= k < |p| ==> s[k] == p[k];
    assert i == Some(|p|);
    var e := DigitRunEnd(s, |p|);
    assert forall k :: |p| <= k < |p| + |d| ==> s[k] == d[k - |p|];
    assert q != [] ==> s[|p| + |d|] == q[0];
    assert e == |p| + |d|;
    assert s[|p|..e] == d;
    DecimalValue(n);
  }
}
