/**
 * The parts of Python's `str` behaviour that the scripts rely on, restricted to
 * ASCII text: `strip`, `lower`/`upper`, `split` on one character, `splitlines`
 * on '\n', `join`, `startswith`, the `in` substring test and decimal digits.
 */
module StrOps {

  datatype Option<T> = None | Some(value: T)

  /**
   * The ASCII characters that `str.isspace()`, `str.strip()` and the regex
   * class `\s` accept: space, tab, '\n', vertical tab, form feed, '\r' and the
   * four separators 0x1C-0x1F.
   */
  predicate IsSpace(c: char) { c == ' ' || '\t' <= c <= '\r' || '\U{1C}' <= c <= '\U{1F}' }

  const Whitespace: set<char> := set c: char | '\t' <= c <= ' ' && IsSpace(c)

  predicate AllIn(s: string, cs: set<char>) { forall i :: 0 <= i < |s| ==> s[i] in cs }

  // ---------------------------------------------------------------------------
  // Stripping

  /** `s.lstrip(cs)`: the longest suffix of `s` that does not start with a character of `cs`. */
  function TrimLeft(s: string, cs: set<char>): (r: string)
    ensures |r| <= |s|
    ensures r == [] || r[0] !in cs
    decreases |s|
  {
    if s != [] && s[0] in cs then TrimLeft(s[1..], cs) else s
  }

  /** What `lstrip` keeps is a suffix, and what it removes is made of characters of `cs` only. */
  lemma {:induction false} TrimLeftRemoved(s: string, cs: set<char>)
    ensures TrimLeft(s, cs) == s[|s| - |TrimLeft(s, cs)|..]
    ensures forall i :: 0 <= i < |s| - |TrimLeft(s, cs)| ==> s[i] in cs
    decreases |s|
  {
    if s != [] && s[0] in cs {
      TrimLeftRemoved(s[1..], cs);
      assert forall i :: 1 <= i < |s| ==> s[i] == s[1..][i - 1];
    }
  }

  /** `s.rstrip(cs)`: the longest prefix of `s` that does not end with a character of `cs`. */
  function TrimRight(s: string, cs: set<char>): (r: string)
    ensures |r| <= |s|
    ensures r == [] || r[|r| - 1] !in cs
    decreases |s|
  {
    if s != [] && s[|s| - 1] in cs then TrimRight(s[..|s| - 1], cs) else s
  }

  /** What `rstrip` keeps is a prefix, and what it removes is made of characters of `cs` only. */
  lemma {:induction false} TrimRightRemoved(s: string, cs: set<char>)
    ensures TrimRight(s, cs) == s[..|TrimRight(s, cs)|]
    ensures forall i :: |TrimRight(s, cs)| <= i < |s| ==> s[i] in cs
    decreases |s|
  {
    if s != [] && s[|s| - 1] in cs {
      TrimRightRemoved(s[..|s| - 1], cs);
    }
  }

  /** `s.strip(cs)`. */
  function Strip(s: string, cs: set<char>): string
  {
    TrimRight(TrimLeft(s, cs), cs)
  }

  /** `s.strip()`. */
  function Trim(s: string): string
  {
    Strip(s, Whitespace)
  }

  /** Neither end of `s` is a character of `cs`. */
  predicate IsStripped(s: string, cs: set<char>)
  {
    s == [] || (s[0] !in cs && s[|s| - 1] !in cs)
  }

  predicate IsTrimmed(s: string)
  {
    IsStripped(s, Whitespace)
  }

  lemma StripIsStripped(s: string, cs: set<char>)
    ensures IsStripped(Strip(s, cs), cs)
  {
    var l := TrimLeft(s, cs);
    var r := TrimRight(l, cs);
    TrimRightRemoved(l, cs);
    if r != [] {
      assert r[0] == l[0];
    }
  }

  lemma TrimIsTrimmed(s: string)
    ensures IsTrimmed(Trim(s))
  {
    StripIsStripped(s, Whitespace);
  }

  lemma StrippedFixpoint(s: string, cs: set<char>)
    requires IsStripped(s, cs)
    ensures Strip(s, cs) == s
  {
  }

  /** Stripping twice is stripping once. */
  lemma StripIdempotent(s: string, cs: set<char>)
    ensures Strip(Strip(s, cs), cs) == Strip(s, cs)
  {
    StripIsStripped(s, cs);
    StrippedFixpoint(Strip(s, cs), cs);
  }

  lemma TrimIdempotent(s: string)
    ensures Trim(Trim(s)) == Trim(s)
  {
    StripIdempotent(s, Whitespace);
  }

  /** A prefix of stripped characters does not change the stripped result. */
  lemma {:induction false} TrimLeftPrefix(w: string, s: string, cs: set<char>)
    requires AllIn(w, cs)
    ensures TrimLeft(w + s, cs) == TrimLeft(s, cs)
    decreases |w|
  {
    if w != [] {
      assert (w + s)[1..] == w[1..] + s;
      TrimLeftPrefix(w[1..], s, cs);
    } else {
      assert w + s == s;
    }
  }

  /** A suffix of stripped characters does not change the stripped result. */
  lemma {:induction false} TrimRightSuffix(s: string, w: string, cs: set<char>)
    requires AllIn(w, cs)
    ensures TrimRight(s + w, cs) == TrimRight(s, cs)
    decreases |w|
  {
    if w != [] {
      assert (s + w)[..|s + w| - 1] == s + w[..|w| - 1];
      TrimRightSuffix(s, w[..|w| - 1], cs);
    } else {
      assert s + w == s;
    }
  }

  lemma TrimSpacePrefix(w: string, s: string)
    requires AllIn(w, Whitespace)
    ensures Trim(w + s) == Trim(s)
  {
    TrimLeftPrefix(w, s, Whitespace);
  }

  /** Whitespace padding on either side is what `strip()` removes. */
  lemma TrimPadded(w1: string, s: string, w2: string)
    requires AllIn(w1, Whitespace) && AllIn(w2, Whitespace)
    requires IsTrimmed(s)
    ensures Trim(w1 + s + w2) == s
  {
    assert w1 + s + w2 == w1 + (s + w2);
    TrimLeftPrefix(w1, s + w2, Whitespace);
    if s == [] {
      assert s + w2 == w2;
      StripEmptyIff(w2, Whitespace);
    } else {
      assert TrimLeft(s + w2, Whitespace) == s + w2;
      TrimRightSuffix(s, w2, Whitespace);
    }
  }

  /** The stripped result is empty exactly when every character is stripped. */
  lemma StripEmptyIff(s: string, cs: set<char>)
    ensures Strip(s, cs) == [] <==> AllIn(s, cs)
  {
    var l := TrimLeft(s, cs);
    TrimLeftRemoved(s, cs);
    TrimRightRemoved(l, cs);
  }

  /** A non-empty result when `s` ends in a character that is not stripped. */
  lemma StripNonEmpty(s: string, cs: set<char>)
    requires s != [] && s[|s| - 1] !in cs
    ensures Strip(s, cs) != []
  {
    StripEmptyIff(s, cs);
  }

  // ---------------------------------------------------------------------------
  // Case mapping (ASCII letters only)

  function LowerChar(c: char): char
  {
    if 'A' <= c <= 'Z' then (c as int + 32) as char else c
  }

  function UpperChar(c: char): char
  {
    if 'a' <= c <= 'z' then (c as int - 32) as char else c
  }

  /** `s.lower()`. */
  function Lower(s: string): (r: string)
    ensures |r| == |s|
    ensures forall i :: 0 <= i < |s| ==> r[i] == LowerChar(s[i])
  {
    if s == [] then [] else Lower(ButLast(s)) + [LowerChar(s[|s| - 1])]
  }

  /** `s.upper()`. */
  function Upper(s: string): (r: string)
    ensures |r| == |s|
    ensures forall i :: 0 <= i < |s| ==> r[i] == UpperChar(s[i])
    ensures forall i :: 0 <= i < |s| ==> !('a' <= r[i] <= 'z')
  {
    if s == [] then [] else Upper(ButLast(s)) + [UpperChar(s[|s| - 1])]
  }

  lemma LowerIdempotent(s: string)
    ensures Lower(Lower(s)) == Lower(s)
  {
    LowerPointwise(Lower(s), Lower(s));
  }

  /** `Lower(s)` is the string whose characters are the lower-cased characters of `s`. */
  lemma LowerPointwise(s: string, t: string)
    requires |s| == |t| && forall i :: 0 <= i < |s| ==> LowerChar(s[i]) == t[i]
    ensures Lower(s) == t
  {
    assert forall i :: 0 <= i < |s| ==> Lower(s)[i] == t[i];
  }

  // ---------------------------------------------------------------------------
  // Prefixes and substrings

  predicate StartsWith(s: string, p: string)
  {
    |p| <= |s| && s[..|p|] == p
  }

  predicate EndsWith(s: string, p: string)
  {
    |p| <= |s| && s[|s| - |p|..] == p
  }

  /** `p` occurs in `s` at index `i`. */
  predicate ContainsAt(s: string, p: string, i: nat)
  {
    i + |p| <= |s| && s[i..i + |p|] == p
  }

  /** `s.find(p, from)`: the first occurrence of `p` at or after `from`. */
  function FindFrom(s: string, p: string, from: nat): (r: Option<nat>)
    ensures r.Some? ==> from <= r.value && ContainsAt(s, p, r.value)
    ensures r.Some? ==> forall j :: from <= j < r.value ==> !ContainsAt(s, p, j)
    ensures r.None? ==> forall j :: from <= j ==> !ContainsAt(s, p, j)
    decreases |s| - from
  {
    if from + |p| > |s| then None
    else if s[from..from + |p|] == p then Some(from)
    else FindFrom(s, p, from + 1)
  }

  /** Python's `p in s`. */
  predicate Contains(s: string, p: string)
  {
    FindFrom(s, p, 0).Some?
  }

  lemma ContainsIntro(s: string, p: string, i: nat)
    requires ContainsAt(s, p, i)
    ensures Contains(s, p)
  {
  }

  // ---------------------------------------------------------------------------
  // Splitting and joining on one character

  function FirstIndex(s: string, c: char): (i: nat)
    requires c in s
    ensures i < |s| && s[i] == c && c !in s[..i]
  {
    if s[0] == c then 0 else
      assert c in s[1..] by { var k :| 0 <= k < |s| && s[k] == c; assert s[1..][k - 1] == c; }
      var j := FirstIndex(s[1..], c);
      assert s[..j + 1] == [s[0]] + s[1..][..j];
      j + 1
  }

  /** `sep.join(parts)`. */
  function JoinWith(parts: seq<string>, sep: char): string
  {
    if |parts| == 0 then []
    else if |parts| == 1 then parts[0]
    else parts[0] + [sep] + JoinWith(parts[1..], sep)
  }

  /** `s.split(sep)`: joining the pieces again gives back `s`. */
  function SplitOn(s: string, sep: char): (parts: seq<string>)
    ensures |parts| >= 1
    ensures forall i :: 0 <= i < |parts| ==> sep !in parts[i]
    ensures JoinWith(parts, sep) == s
    decreases |s|
  {
    if sep !in s then [s]
    else
      var i := FirstIndex(s, sep);
      var rest := SplitOn(s[i + 1..], sep);
      assert s == s[..i] + [sep] + s[i + 1..];
      [s[..i]] + rest
  }

  /** Splitting a join of separator-free pieces gives the pieces back. */
  lemma {:induction false} SplitJoin(parts: seq<string>, sep: char)
    requires |parts| >= 1
    requires forall i :: 0 <= i < |parts| ==> sep !in parts[i]
    ensures SplitOn(JoinWith(parts, sep), sep) == parts
    decreases |parts|
  {
    if |parts| > 1 {
      var p0 := parts[0];
      var tail := JoinWith(parts[1..], sep);
      var s := p0 + [sep] + tail;
      assert JoinWith(parts, sep) == s;
      assert s[..|p0|] == p0;
      FirstIndexUnique(s, sep, |p0|);
      assert s[|p0| + 1..] == tail;
      SplitJoin(parts[1..], sep);
      assert SplitOn(s, sep) == [p0] + SplitOn(tail, sep);
      assert parts == [p0] + parts[1..];
    }
  }

  lemma FirstIndexUnique(s: string, c: char, i: nat)
    requires i < |s| && s[i] == c && c !in s[..i]
    ensures FirstIndex(s, c) == i
  {
  }

  /** `text.splitlines()` for text whose only line break is '\n': a final '\n' does not start a new line. */
  function SplitLines(text: string): (lines: seq<string>)
    ensures forall i :: 0 <= i < |lines| ==> '\n' !in lines[i]
    ensures text == [] <==> lines == []
  {
    if text == [] then []
    else if text[|text| - 1] == '\n' then SplitOn(text[..|text| - 1], '\n')
    else SplitOn(text, '\n')
  }

  /** `"\n".join(lines)`. */
  function Join(lines: seq<string>): string
  {
    JoinWith(lines, '\n')
  }

  /** Joining the lines again gives the text back, up to one final line break. */
  lemma SplitLinesJoin(text: string)
    ensures text == Join(SplitLines(text)) || text == Join(SplitLines(text)) + "\n"
  {
    if text != [] && text[|text| - 1] == '\n' {
      assert text == text[..|text| - 1] + "\n";
    }
  }

  // ---------------------------------------------------------------------------
  // Slices of a sequence extended by one element

  function ButLast<T>(s: seq<T>): seq<T>
    requires s != []
  {
    s[..|s| - 1]
  }

  lemma ButLastSnoc<T>(s: seq<T>, x: T)
    ensures ButLast(s + [x]) == s
  {
  }

  lemma ButLastOfTake<T>(s: seq<T>, i: nat)
    requires i < |s|
    ensures ButLast(s[..i + 1]) == s[..i]
  {
  }

  lemma ButLastPrefix<T>(s: seq<T>, k: nat)
    requires k < |s|
    ensures ButLast(s)[..k] == s[..k]
  {
  }

  lemma ButLastSlice<T>(s: seq<T>, i: nat, j: nat)
    requires i <= j < |s|
    ensures ButLast(s)[i..j] == s[i..j]
  {
  }

  lemma TakeAll<T>(s: seq<T>)
    ensures s[..|s|] == s && s[0..] == s
  {}

  lemma DropAll<T>(s: seq<T>, i: nat)
    requires i <= |s|
    ensures s[i..|s|] == s[i..]
  {}

  lemma SnocButLast<T>(s: seq<T>)
    requires s != []
    ensures ButLast(s) + [s[|s| - 1]] == s
  {}

  lemma ButLastSuffix<T>(s: seq<T>, i: nat)
    requires i < |s|
    ensures s[i..] == ButLast(s)[i..] + [s[|s| - 1]]
  {
  }

  // ---------------------------------------------------------------------------
  // Decimal digits

  predicate IsDigit(c: char) { '0' <= c <= '9' }

  /** `int(s)` for a string of decimal digits. */
  function DigitsValue(s: string): nat
    requires forall i :: 0 <= i < |s| ==> IsDigit(s[i])
  {
    if s == [] then 0
    else
      assert IsDigit(s[|s| - 1]);
      DigitsValue(s[..|s| - 1]) * 10 + (s[|s| - 1] as int - '0' as int)
  }

  /** `str(n)`. */
  function Decimal(n: nat): (s: string)
    ensures s != [] && forall i :: 0 <= i < |s| ==> IsDigit(s[i])
  {
    if n < 10 then [('0' as int + n) as char]
    else Decimal(n / 10) + [('0' as int + n % 10) as char]
  }

  /** `int(str(n)) == n`. */
  lemma {:induction false} DecimalValue(n: nat)
    ensures DigitsValue(Decimal(n)) == n
  {
    if n >= 10 {
      var s := Decimal(n);
      assert s[..|s| - 1] == Decimal(n / 10);
      DecimalValue(n / 10);
    }
  }

  /** No character of `s` is in `cs`. */
  predicate NoneIn(s: string, cs: set<char>)
  {
    forall k :: 0 <= k < |s| ==> s[k] !in cs
  }

  /** `re.split("[...]", s)` for a class of single characters: the pieces between separators. */
  function SplitOnAny(s: string, cs: set<char>): (parts: seq<string>)
    ensures |parts| >= 1
    ensures forall i :: 0 <= i < |parts| ==> NoneIn(parts[i], cs)
  {
    if s == [] then [[]]
    else
      var p := SplitOnAny(ButLast(s), cs);
      var c := s[|s| - 1];
      if c in cs then p + [[]]
      else
        var last := p[|p| - 1];
        assert forall k :: 0 <= k < |last| ==> (last + [c])[k] == last[k];
        ButLast(p) + [last + [c]]
  }

  /** A separator followed by separator-free text starts a last piece that is that text. */
  lemma {:induction false} SplitOnAnyAfter(a: string, c: char, b: string, cs: set<char>)
    requires c in cs && NoneIn(b, cs)
    ensures SplitOnAny(a + [c] + b, cs) == SplitOnAny(a, cs) + [b]
    decreases |b|
  {
    if b == [] {
      assert a + [c] + b == a + [c];
      ButLastSnoc(a, c);
    } else {
      var b' := ButLast(b);
      var d := b[|b| - 1];
      assert NoneIn(b', cs);
      SplitOnAnyAfter(a, c, b', cs);
      SnocButLast(b);
      assert a + [c] + b == (a + [c] + b') + [d];
      ButLastSnoc(a + [c] + b', d);
      ButLastSnoc(SplitOnAny(a, cs), b');
    }
  }

  lemma {:induction false} SplitOnAnyNone(s: string, cs: set<char>)
    requires NoneIn(s, cs)
    ensures SplitOnAny(s, cs) == [s]
    decreases |s|
  {
    if s != [] {
      assert NoneIn(ButLast(s), cs);
      SplitOnAnyNone(ButLast(s), cs);
      SnocButLast(s);
    }
  }

  // ---------------------------------------------------------------------------
  // Keeping and transforming elements one at a time

  /** The element an optional value contributes to a list: none, or the one it holds. */
  function Opt<T>(o: Option<T>): (r: seq<T>)
    ensures |r| <= 1 && (r == [] <==> o.None?)
  {
    match o
    case None => []
    case Some(x) => [x]
  }

  /** What a loop that appends `f(x)` for each `x` whenever it is present builds. */
  function FilterMap<A, B>(f: A -> Option<B>, xs: seq<A>): (r: seq<B>)
    ensures |r| <= |xs|
  {
    if xs == [] then [] else FilterMap(f, ButLast(xs)) + Opt(f(xs[|xs| - 1]))
  }

  /** One more element processed. */
  lemma FilterMapStep<A, B>(f: A -> Option<B>, xs: seq<A>, i: nat)
    requires i < |xs|
    ensures FilterMap(f, xs[..i + 1]) == FilterMap(f, xs[..i]) + Opt(f(xs[i]))
  {
    ButLastOfTake(xs, i);
  }

  /** Processing two lists one after the other is processing their concatenation. */
  lemma {:induction false} FilterMapAppend<A, B>(f: A -> Option<B>, xs: seq<A>, ys: seq<A>)
    ensures FilterMap(f, xs + ys) == FilterMap(f, xs) + FilterMap(f, ys)
    decreases |ys|
  {
    if ys == [] {
      assert xs + ys == xs;
    } else {
      var y := ys[|ys| - 1];
      assert xs + ys == (xs + ButLast(ys)) + [y];
      ButLastSnoc(xs + ButLast(ys), y);
      FilterMapAppend(f, xs, ButLast(ys));
    }
  }

  lemma FilterMapSingle<A, B>(f: A -> Option<B>, x: A)
    ensures FilterMap(f, [x]) == Opt(f(x))
  {
    assert ButLast([x]) == [];
  }

  /** Every element kept satisfies whatever `f` promises of what it returns. */
  lemma {:induction false} FilterMapAll<A, B>(f: A -> Option<B>, p: B -> bool, xs: seq<A>)
    requires forall x :: f(x).Some? ==> p(f(x).value)
    ensures forall i :: 0 <= i < |FilterMap(f, xs)| ==> p(FilterMap(f, xs)[i])
    decreases |xs|
  {
    if xs != [] {
      FilterMapAll(f, p, ButLast(xs));
    }
  }
}
