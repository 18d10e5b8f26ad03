/** rpmvercmp, the order in which the loader sorts kernel versions. */
module Versions {

  predicate IsDigit(c: char) {
    '0' <= c <= '9'
  }

  predicate IsAlpha(c: char) {
    'a' <= c <= 'z' || 'A' <= c <= 'Z'
  }

  predicate IsAlnum(c: char) {
    IsDigit(c) || IsAlpha(c)
  }

  predicate IsSeparator(c: char) {
    !IsAlnum(c)
  }

  // ---------- what a version means ----------

  datatype Segment = Num(value: nat) | Word(text: string)

  function Pow10(n: nat): (p: nat)
    ensures p > 0
  {
    if n == 0 then 1 else 10 * Pow10(n - 1)
  }

  function DigitOf(c: char): (d: nat)
    requires IsDigit(c)
    ensures d <= 9
  {
    c as int - '0' as int
  }

  function Scale(d: nat, p: nat): (n: nat) {
    d * p
  }

  lemma {:induction false} ScaleBounds(d: nat, e: nat, p: nat)
    requires d <= 9
    ensures Scale(d, p) <= 9 * p && (d > 0 ==> p <= Scale(d, p)) && Scale(0, p) == 0
    ensures d > e ==> Scale(d, p) >= Scale(e, p) + p
  {
  }

  /** The number a run of digits stands for, however long. */
  function Value(s: string): (v: nat)
    requires forall i :: 0 <= i < |s| ==> IsDigit(s[i])
  {
    if s == "" then 0 else Scale(DigitOf(s[0]), Pow10(|s| - 1)) + Value(s[1..])
  }

  /** The end of the longest run of characters with a property, from `i` on. */
  function RunEnd(s: string, i: nat, p: char -> bool): (e: nat)
    requires i <= |s|
    ensures i <= e <= |s|
    ensures forall k :: i <= k < e ==> p(s[k])
    ensures e < |s| ==> !p(s[e])
    decreases |s| - i
  {
    if i < |s| && p(s[i]) then RunEnd(s, i + 1, p) else i
  }

  function SegmentStart(s: string, i: nat): (e: nat)
    requires i <= |s|
    ensures i <= e <= |s| && (e < |s| ==> IsAlnum(s[e]))
  {
    RunEnd(s, i, IsSeparator)
  }

  /** The maximal run of digits or of letters that starts at `i`. */
  function SegmentEnd(s: string, i: nat): (e: nat)
    requires i < |s| && IsAlnum(s[i])
    ensures i < e <= |s|
  {
    if IsDigit(s[i]) then RunEnd(s, i, IsDigit) else RunEnd(s, i, IsAlpha)
  }

  function SegmentAt(s: string, i: nat): (g: Segment)
    requires i < |s| && IsAlnum(s[i])
  {
    var t := s[i..SegmentEnd(s, i)];
    if IsDigit(s[i]) then Num(Value(t)) else Word(t)
  }

  /** The numbers and words of a version from `i` on; separators only divide them. */
  function Segments(s: string, i: nat): (gs: seq<Segment>)
    requires i <= |s|
    decreases |s| - i
  {
    var at := SegmentStart(s, i);
    if at == |s| then [] else [SegmentAt(s, at)] + Segments(s, SegmentEnd(s, at))
  }

  /** Separators stand at the end. */
  predicate Trails(s: string) {
    s != "" && !IsAlnum(s[|s| - 1])
  }

  function Sign(n: int): (r: int) {
    if n < 0 then -1 else if n > 0 then 1 else 0
  }

  /** The sign of strcmp. */
  function StrCmp(a: string, b: string): (r: int)
    ensures -1 <= r <= 1
  {
    if a == "" || b == "" then Sign(|a| - |b|)
    else if a[0] != b[0] then Sign(a[0] as int - b[0] as int)
    else StrCmp(a[1..], b[1..])
  }

  /** Numbers by value, words by their characters, and any number above any word. */
  function CompareSegment(a: Segment, b: Segment): (r: int)
    ensures -1 <= r <= 1
  {
    match (a, b)
    case (Num(v), Num(w)) => Sign(v - w)
    case (Num(_), Word(_)) => 1
    case (Word(_), Num(_)) => -1
    case (Word(s), Word(t)) => StrCmp(s, t)
  }

  /** Lexicographic order of segment lists; a proper prefix comes first. */
  function Lexicographic(a: seq<Segment>, b: seq<Segment>): (r: int)
    ensures -1 <= r <= 1
  {
    if a == [] || b == [] then Sign(|a| - |b|)
    else
      var c := CompareSegment(a[0], b[0]);
      if c != 0 then c else Lexicographic(a[1..], b[1..])
  }

  /** What the code answers once separators may also stand at the end (`ta`, `tb`). */
  function WithTrailers(a: seq<Segment>, ta: bool, b: seq<Segment>, tb: bool): (r: int)
    ensures -1 <= r <= 1
  {
    if a == [] && b == [] then
      if tb then -1 else if ta then 1 else 0
    else if a == [] then -1
    else if b == [] then
      if tb && a[0].Word? then -1 else 1
    else
      var c := CompareSegment(a[0], b[0]);
      if c != 0 then c else WithTrailers(a[1..], ta, b[1..], tb)
  }

  /** The result of rpmvercmp on any two strings. */
  function Compare(a: string, b: string): (r: int)
  {
    if a == b then 0 else WithTrailers(Segments(a, 0), Trails(a), Segments(b, 0), Trails(b))
  }

  // ---------- numbers of any length ----------

  ghost predicate AllDigits(s: string) {
    forall i :: 0 <= i < |s| ==> IsDigit(s[i])
  }

  lemma {:induction false} ValueBound(s: string)
    requires AllDigits(s)
    ensures Value(s) < Pow10(|s|)
  {
    hide Scale;
    if s != "" {
      ValueBound(s[1..]);
      ScaleBounds(DigitOf(s[0]), 0, Pow10(|s| - 1));
    }
  }

  lemma {:induction false} PowMonotone(m: nat, n: nat)
    requires m <= n
    ensures Pow10(m) <= Pow10(n)
    decreases n - m
  {
    if m < n {
      PowMonotone(m, n - 1);
    }
  }

  /** Without leading zeros, more digits make a larger number. */
  lemma {:induction false} LongerIsLarger(s: string, t: string)
    requires AllDigits(s) && AllDigits(t) && |s| > |t| && s[0] != '0'
    ensures Value(s) > Value(t)
  {
    hide Scale;
    ValueBound(t);
    PowMonotone(|t|, |s| - 1);
    ScaleBounds(DigitOf(s[0]), 0, Pow10(|s| - 1));
  }

  /** With equally many digits, the order of the characters is the order of the numbers. */
  lemma {:induction false} SameLengthOrder(s: string, t: string)
    requires AllDigits(s) && AllDigits(t) && |s| == |t|
    ensures StrCmp(s, t) == Sign(Value(s) - Value(t))
  {
    hide Scale;
    if s != "" {
      SameLengthOrder(s[1..], t[1..]);
      ValueBound(s[1..]);
      ValueBound(t[1..]);
      var d, e, p := DigitOf(s[0]), DigitOf(t[0]), Pow10(|s| - 1);
      ScaleBounds(d, e, p);
      ScaleBounds(e, d, p);
    }
  }

  lemma {:induction false} LeadingZeros(s: string, k: nat)
    requires AllDigits(s) && k <= |s| && forall i :: 0 <= i < k ==> s[i] == '0'
    ensures Value(s[k..]) == Value(s)
  {
    hide Scale;
    if k > 0 {
      ScaleBounds(0, 0, Pow10(|s| - 1));
      LeadingZeros(s[1..], k - 1);
      assert s[1..][k - 1..] == s[k..];
    } else {
      assert s[k..] == s;
    }
  }

  /** Dropping zeros, then comparing lengths, then characters, compares the numbers. */
  lemma {:induction false} DigitsCompare(s: string, t: string, i: nat, j: nat)
    requires AllDigits(s) && AllDigits(t) && i <= |s| && j <= |t|
    requires (forall k :: 0 <= k < i ==> s[k] == '0') && (i < |s| ==> s[i] != '0')
    requires (forall k :: 0 <= k < j ==> t[k] == '0') && (j < |t| ==> t[j] != '0')
    ensures Sign(Value(s) - Value(t))
         == if |s| - i != |t| - j then Sign((|s| - i) - (|t| - j)) else StrCmp(s[i..], t[j..])
  {
    LeadingZeros(s, i);
    LeadingZeros(t, j);
    var u, v := s[i..], t[j..];
    if |u| > |v| {
      LongerIsLarger(u, v);
    } else if |v| > |u| {
      LongerIsLarger(v, u);
    } else {
      SameLengthOrder(u, v);
    }
  }

  // ---------- the code ----------

  /** The pointer loops that walk to the end of a run. */
  method Walk(s: string, i: nat, p: char -> bool) returns (e: nat)
    requires i <= |s|
    ensures e == RunEnd(s, i, p)
  {
    e := i;
    while e < |s| && p(s[e])
      invariant i <= e <= |s| && RunEnd(s, e, p) == RunEnd(s, i, p)
    {
      e := e + 1;
    }
  }

  /** What is still to be compared: both strings from these positions on. */
  ghost function Rest(a: string, one: nat, b: string, two: nat): (r: int)
    requires one <= |a| && two <= |b|
  {
    WithTrailers(Segments(a, one), one < |a| && Trails(a), Segments(b, two), two < |b| && Trails(b))
  }

  /** Separators are skipped without changing the segments; if nothing follows, they were trailing. */
  lemma {:induction false} AfterSeparators(s: string, i: nat)
    requires i < |s|
    ensures
      var at := SegmentStart(s, i);
      if at == |s| then Segments(s, i) == [] && Trails(s)
      else Segments(s, i) == [SegmentAt(s, at)] + Segments(s, SegmentEnd(s, at)) && at < SegmentEnd(s, at)
  {
  }

  /** One segment against another of the same kind: zeros dropped, lengths, then characters. */
  method CompareRuns(s: string, t: string, isnum: bool) returns (rc: int)
    requires isnum ==> AllDigits(s) && AllDigits(t)
    ensures rc == if isnum then Sign(Value(s) - Value(t)) else StrCmp(s, t)
  {
    var one, two := 0, 0;
    if isnum {
      one := Walk(s, 0, IsZero);
      two := Walk(t, 0, IsZero);
      DigitsCompare(s, t, one, two);
      if |s| - one > |t| - two {
        return 1;
      }
      if |t| - two > |s| - one {
        return -1;
      }
    }
    assert !isnum ==> s[one..] == s && t[two..] == t;
    rc := StrCmp(s[one..], t[two..]);
  }

  predicate IsZero(c: char) {
    c == '0'
  }

  /** Only separators were left in the first string. */
  lemma {:induction false} FirstExhausted(a: string, i: nat, b: string, j: nat)
    requires i < |a| && j < |b| && SegmentStart(a, i) == |a|
    ensures Rest(a, i, b, j) == -1
  {
    AfterSeparators(a, i);
    AfterSeparators(b, j);
  }

  /** Only separators were left in the second string, or a segment of the other kind follows. */
  lemma {:induction false} OtherKind(a: string, i: nat, b: string, j: nat)
    requires i < |a| && j < |b| && SegmentStart(a, i) < |a|
    requires SegmentStart(b, j) < |b| ==> IsDigit(a[SegmentStart(a, i)]) != IsDigit(b[SegmentStart(b, j)])
    ensures Rest(a, i, b, j) == if IsDigit(a[SegmentStart(a, i)]) then 1 else -1
  {
    AfterSeparators(a, i);
    AfterSeparators(b, j);
  }

  /** One round of the loop: a result, or positions behind two equal segments. */
  method CompareRound(a: string, b: string, i: nat, j: nat) returns (rc: int, one: nat, two: nat)
    requires i < |a| && j < |b|
    ensures rc != 0 ==> rc == Rest(a, i, b, j)
    ensures rc == 0 ==> i < one <= |a| && j < two <= |b| && Rest(a, one, b, two) == Rest(a, i, b, j)
  {
    hide Rest, Value, StrCmp;
    one := Walk(a, i, IsSeparator);
    two := Walk(b, j, IsSeparator);
    var str1, str2, isnum := one, two, false;
    if one < |a| && IsDigit(a[one]) {
      str1 := Walk(a, one, IsDigit);
      str2 := Walk(b, two, IsDigit);
      isnum := true;
    } else {
      str1 := Walk(a, one, IsAlpha);
      str2 := Walk(b, two, IsAlpha);
    }
    if one == str1 {
      FirstExhausted(a, i, b, j);
      return -1, one, two;
    }
    if two == str2 {
      OtherKind(a, i, b, j);
      return if isnum then 1 else -1, one, two;
    }
    rc := CompareRuns(a[one..str1], b[two..str2], isnum);
    SameKind(a, i, one, str1, b, j, two, str2, isnum, rc);
    one, two := str1, str2;
  }

  /** Two segments of one kind: their comparison decides, or the rest does. */
  lemma {:induction false} SameKind(a: string, i: nat, one: nat, str1: nat, b: string, j: nat, two: nat, str2: nat,
                                    isnum: bool, rc: int)
    requires i < |a| && j < |b| && one == SegmentStart(a, i) < |a| && two == SegmentStart(b, j) < |b|
    requires str1 == SegmentEnd(a, one) && str2 == SegmentEnd(b, two)
    requires isnum == IsDigit(a[one]) == IsDigit(b[two])
    requires rc == CompareSegment(SegmentAt(a, one), SegmentAt(b, two))
    ensures Rest(a, i, b, j) == if rc != 0 then rc else Rest(a, str1, b, str2)
  {
    TrailsBehind(a, one);
    TrailsBehind(b, two);
    AfterSeparators(a, i);
    AfterSeparators(b, j);
    assert Segments(a, i)[1..] == Segments(a, str1) && Segments(b, j)[1..] == Segments(b, str2);
  }

  /** A segment that ends the string leaves no trailing separators. */
  lemma {:induction false} TrailsBehind(s: string, at: nat)
    requires at < |s| && IsAlnum(s[at])
    ensures (SegmentEnd(s, at) < |s| && Trails(s)) == Trails(s)
  {
    var e := SegmentEnd(s, at);
    if e == |s| {
      assert IsAlnum(s[e - 1]);
    }
  }

  /** rpmvercmp. */
  method RpmVerCmp(a: string, b: string) returns (rc: int)
    ensures rc == Compare(a, b)
  {
    if a == b {
      return 0;
    }
    var one, two := 0, 0;
    while one < |a| && two < |b|
      invariant 0 <= one <= |a| && 0 <= two <= |b|
      invariant Rest(a, one, b, two) == Compare(a, b)
    {
      var i, j;
      rc, i, j := CompareRound(a, b, one, two);
      if rc != 0 {
        return;
      }
      one, two := i, j;
    }
    NothingBehind(a);
    NothingBehind(b);
    if one == |a| && two == |b| {
      return 0;
    }
    if one == |a| {
      SomethingBehind(b, two);
      return -1;
    } else {
      SomethingBehind(a, one);
      return 1;
    }
  }

  lemma {:induction false} NothingBehind(s: string)
    ensures Segments(s, |s|) == []
  {
  }

  /** An unread rest holds a segment or trailing separators. */
  lemma {:induction false} SomethingBehind(s: string, i: nat)
    requires i < |s|
    ensures Segments(s, i) != [] || Trails(s)
  {
    AfterSeparators(s, i);
  }

  // ---------- reading a version ----------

  /** 'A' to 'Z' and 'a' to 'z'. */
  predicate Letter(c: char) {
    65 <= c as int <= 90 || 97 <= c as int <= 122
  }

  /** '0' to '9'. */
  predicate Numeral(c: char) {
    48 <= c as int <= 57
  }

  ghost predicate Letters(s: string) {
    forall i :: 0 <= i < |s| ==> Letter(s[i])
  }

  ghost predicate Numerals(s: string) {
    forall i :: 0 <= i < |s| ==> Numeral(s[i])
  }

  ghost predicate Marks(s: string) {
    forall i :: 0 <= i < |s| ==> !Letter(s[i]) && !Numeral(s[i])
  }

  lemma {:induction false} RunEndIs(s: string, i: nat, e: nat, p: char -> bool)
    requires i <= e <= |s| && (forall k :: i <= k < e ==> p(s[k])) && (e < |s| ==> !p(s[e]))
    ensures RunEnd(s, i, p) == e
    decreases e - i
  {
    if i < e {
      RunEndIs(s, i + 1, e, p);
    }
  }

  lemma {:induction false} RunEndBehind(a: string, s: string, i: nat, p: char -> bool)
    requires i <= |s|
    ensures RunEnd(a + s, |a| + i, p) == |a| + RunEnd(s, i, p)
  {
    var e := RunEnd(s, i, p);
    assert forall k :: |a| + i <= k < |a| + e ==> (a + s)[k] == s[k - |a|];
    RunEndIs(a + s, |a| + i, |a| + e, p);
  }

  lemma {:induction false} SegmentBehind(a: string, s: string, at: nat)
    requires at < |s| && IsAlnum(s[at])
    ensures (a + s)[|a| + at] == s[at] && SegmentEnd(a + s, |a| + at) == |a| + SegmentEnd(s, at)
    ensures SegmentAt(a + s, |a| + at) == SegmentAt(s, at)
  {
    hide RunEnd, Value;
    RunEndBehind(a, s, at, IsDigit);
    RunEndBehind(a, s, at, IsAlpha);
    var e := SegmentEnd(s, at);
    assert (a + s)[|a| + at..|a| + e] == s[at..e];
  }

  /** Segments do not depend on what stands before them. */
  lemma {:induction false} SegmentsBehind(a: string, s: string, i: nat)
    requires i <= |s|
    ensures Segments(a + s, |a| + i) == Segments(s, i)
    decreases |s| - i
  {
    hide RunEnd, SegmentEnd, SegmentAt;
    RunEndBehind(a, s, i, IsSeparator);
    var at := SegmentStart(s, i);
    if at < |s| {
      SegmentBehind(a, s, at);
      SegmentsBehind(a, s, SegmentEnd(s, at));
    }
  }

  /** The first segment: numerals, or letters, up to a character of another class. */
  lemma {:induction false} FirstSegment(s: string, at: nat, e: nat, numeric: bool)
    requires at < e <= |s| && (forall k :: 0 <= k < at ==> IsSeparator(s[k]))
    requires forall k :: at <= k < e ==> if numeric then IsDigit(s[k]) else IsAlpha(s[k])
    requires e < |s| ==> if numeric then !IsDigit(s[e]) else !IsAlpha(s[e])
    ensures Segments(s, 0) == [if numeric then Num(Value(s[at..e])) else Word(s[at..e])] + Segments(s, e)
  {
    hide Value;
    RunEndIs(s, 0, at, IsSeparator);
    if numeric {
      RunEndIs(s, at, e, IsDigit);
    } else {
      RunEndIs(s, at, e, IsAlpha);
    }
  }

  /** Behind other characters, a run of numerals is one number; then the rest follows. */
  lemma {:induction false} NumberFirst(marks: string, run: string, rest: string)
    requires Marks(marks) && run != "" && Numerals(run) && (rest != "" ==> !Numeral(rest[0]))
    ensures AllDigits(run) && Segments(marks + run + rest, 0) == [Num(Value(run))] + Segments(rest, 0)
  {
    hide Value, Segments;
    var s, at, e := marks + run + rest, |marks|, |marks| + |run|;
    assert forall k :: at <= k < e ==> s[k] == run[k - at];
    assert rest != "" ==> s[e] == rest[0];
    FirstSegment(s, at, e, true);
    assert s[at..e] == run;
    SegmentsBehind(marks + run, rest, 0);
  }

  /** Behind other characters, a run of letters is one word; then the rest follows. */
  lemma {:induction false} WordFirst(marks: string, run: string, rest: string)
    requires Marks(marks) && run != "" && Letters(run) && (rest != "" ==> !Letter(rest[0]))
    ensures Segments(marks + run + rest, 0) == [Word(run)] + Segments(rest, 0)
  {
    hide Value, Segments;
    var s, at, e := marks + run + rest, |marks|, |marks| + |run|;
    assert forall k :: at <= k < e ==> s[k] == run[k - at];
    assert rest != "" ==> s[e] == rest[0];
    FirstSegment(s, at, e, false);
    assert s[at..e] == run;
    SegmentsBehind(marks + run, rest, 0);
  }

  lemma {:induction false} RunEndBefore(s: string, rest: string, i: nat, p: char -> bool)
    requires i <= |s| && (rest != "" ==> !p(rest[0]))
    ensures RunEnd(s + rest, i, p) == RunEnd(s, i, p)
  {
    var e := RunEnd(s, i, p);
    assert forall k :: i <= k < e ==> (s + rest)[k] == s[k];
    assert e < |s| ==> (s + rest)[e] == s[e];
    assert e == |s| && rest != "" ==> (s + rest)[e] == rest[0];
    RunEndIs(s + rest, i, e, p);
  }

  lemma {:induction false} SegmentBefore(s: string, rest: string, at: nat)
    requires at < |s| && IsAlnum(s[at]) && rest != "" && !IsAlnum(rest[0])
    ensures (s + rest)[at] == s[at] && SegmentEnd(s + rest, at) == SegmentEnd(s, at)
    ensures SegmentAt(s + rest, at) == SegmentAt(s, at)
  {
    hide RunEnd, Value;
    RunEndBefore(s, rest, at, IsDigit);
    RunEndBefore(s, rest, at, IsAlpha);
    var e := SegmentEnd(s, at);
    assert (s + rest)[at..e] == s[at..e];
  }

  lemma {:induction false} SegmentsBefore(s: string, rest: string, i: nat)
    requires i <= |s| && rest != "" && !IsAlnum(rest[0])
    ensures Segments(s + rest, i) == Segments(s, i) + Segments(rest, 0)
    decreases |s| - i
  {
    hide SegmentEnd, SegmentAt;
    var at := SegmentStart(s, i);
    if at < |s| {
      assert forall k :: i <= k < at ==> (s + rest)[k] == s[k];
      assert (s + rest)[at] == s[at];
      RunEndIs(s + rest, i, at, IsSeparator);
      SegmentBefore(s, rest, at);
      SegmentsBefore(s, rest, SegmentEnd(s, at));
    } else {
      SegmentsBehind(s, rest, 0);
      SkipMarks(s + rest, i, |s|);
    }
  }

  lemma {:induction false} SkipMarks(s: string, i: nat, j: nat)
    requires i <= j <= |s| && forall k :: i <= k < j ==> IsSeparator(s[k])
    ensures Segments(s, i) == Segments(s, j)
  {
    var at := SegmentStart(s, j);
    RunEndIs(s, i, at, IsSeparator);
  }

  /** A separator divides a version into two, read one after the other. */
  lemma {:induction false} SegmentsJoined(a: string, mark: char, b: string)
    requires !Letter(mark) && !Numeral(mark)
    ensures Segments(a + [mark] + b, 0) == Segments(a, 0) + Segments(b, 0)
  {
    hide Segments;
    var rest := [mark] + b;
    assert a + [mark] + b == a + rest;
    SegmentsBefore(a, rest, 0);
    SkipMarks(rest, 0, 1);
    SegmentsBehind([mark], b, 0);
  }

  /** The same version with another number or word behind it is newer. */
  lemma {:induction false} LongerIsNewer(a: string, mark: char, run: string)
    requires !Letter(mark) && !Numeral(mark) && run != "" && (Letters(run) || Numerals(run))
    requires a == "" || Letter(a[|a| - 1]) || Numeral(a[|a| - 1])
    ensures Compare(a, a + [mark] + run) == -1 && Compare(a + [mark] + run, a) == 1
  {
    hide Segments;
    var b := a + [mark] + run;
    SegmentsJoined(a, mark, run);
    OneRun(run);
    assert !Trails(a) && !Trails(b) by {
      assert b[|b| - 1] == run[|run| - 1];
    }
    CompareIsLexicographic(a, b);
    CompareIsLexicographic(b, a);
    PrefixFirst(Segments(a, 0), Segments(run, 0));
    LexicographicAntisymmetric(Segments(a, 0), Segments(b, 0));
  }

  /** A run of one class is one segment. */
  lemma {:induction false} OneRun(run: string)
    requires run != ""
    ensures Letters(run) ==> Segments(run, 0) == [Word(run)]
    ensures Numerals(run) ==> AllDigits(run) && Segments(run, 0) == [Num(Value(run))]
  {
    hide Segments;
    assert "" + run + "" == run;
    NothingBehind("");
    if Letters(run) {
      WordFirst("", run, "");
    }
    if Numerals(run) {
      NumberFirst("", run, "");
    }
  }

  lemma {:induction false} PrefixFirst(a: seq<Segment>, b: seq<Segment>)
    requires b != []
    ensures Lexicographic(a, a + b) == -1
  {
    if a != [] {
      SegmentAntisymmetric(a[0], a[0]);
      assert (a + b)[1..] == a[1..] + b;
      PrefixFirst(a[1..], b);
    }
  }

  /** Where one version has a number and the other a word, the number is newer; two numbers compare by value. */
  lemma {:induction false} RunsCompare(m: string, n: string, w: string)
    requires m != "" && n != "" && w != "" && Numerals(m) && Numerals(n) && Letters(w)
    ensures Compare(n, w) == 1 && Compare(w, n) == -1
    ensures AllDigits(m) && AllDigits(n)
    ensures Compare(m, n) == if Value(m) < Value(n) then -1 else if Value(m) > Value(n) then 1 else 0
  {
    hide Segments, Value;
    OneRun(m);
    OneRun(n);
    OneRun(w);
    assert n[0] != w[0];
    CompareIsLexicographic(m, n);
    CompareIsLexicographic(n, w);
    CompareIsLexicographic(w, n);
  }

  lemma {:induction false} TrailersDecide(a: seq<Segment>, ta: bool, b: seq<Segment>, tb: bool)
    ensures WithTrailers(a, ta, a, tb) == if tb then -1 else if ta then 1 else 0
    ensures b != [] ==> WithTrailers(a, ta, a + b, tb) == -1
    ensures b != [] ==> WithTrailers(a + b, ta, a, tb) == if tb && b[0].Word? then -1 else 1
  {
    if a == [] {
      assert a + b == b;
    } else {
      SegmentAntisymmetric(a[0], a[0]);
      assert (a + b)[1..] == a[1..] + b;
      TrailersDecide(a[1..], ta, b, tb);
    }
  }

  /**
   * A separator at the end makes a version newer than without it, and older than with anything behind it; read the
   * other way round, a word behind the separator is older again.
   */
  lemma {:induction false} TrailingMark(a: string, mark: char, run: string)
    requires !Letter(mark) && !Numeral(mark) && run != "" && (Letters(run) || Numerals(run))
    requires a == "" || Letter(a[|a| - 1]) || Numeral(a[|a| - 1])
    ensures Compare(a, a + [mark]) == -1 && Compare(a + [mark], a) == 1
    ensures Compare(a + [mark], a + [mark] + run) == -1
    ensures Compare(a + [mark] + run, a + [mark]) == if Letters(run) then -1 else 1
  {
    hide Segments, WithTrailers;
    var b := a + [mark] + run;
    assert a + [mark] + "" == a + [mark];
    SegmentsJoined(a, mark, "");
    SegmentsJoined(a, mark, run);
    NothingBehind("");
    OneRun(run);
    assert b[|b| - 1] == run[|run| - 1] && !Trails(a) && !Trails(b) && Trails(a + [mark]);
    assert Segments(a, 0) + [] == Segments(a, 0);
    TrailersDecide(Segments(a, 0), false, Segments(run, 0), true);
    TrailersDecide(Segments(a, 0), true, Segments(run, 0), false);
    NotBoth(run);
  }

  lemma {:induction false} NotBoth(run: string)
    requires run != ""
    ensures !(Letters(run) && Numerals(run))
  {
    assert !(Letter(run[0]) && Numeral(run[0]));
  }

  /** One more digit makes ten times the number and the digit. */
  lemma {:induction false} ValueAppend(s: string, c: char)
    requires AllDigits(s) && Numeral(c)
    ensures AllDigits(s + [c]) && Value(s + [c]) == 10 * Value(s) + (c as int - 48)
  {
    if s == "" {
      assert s + [c] == [c] && [c][1..] == "";
    } else {
      ValueAppend(s[1..], c);
      assert (s + [c])[1..] == s[1..] + [c];
      TenTimes(DigitOf(s[0]), Pow10(|s| - 1));
    }
  }

  lemma {:induction false} TenTimes(d: nat, p: nat)
    ensures Scale(d, 10 * p) == 10 * Scale(d, p)
  {
  }

  /** A word is older than another when it is a proper part at its start, or has the smaller character first. */
  lemma {:induction false} StrCmpExactly(a: string, b: string, k: nat)
    requires k <= |a| && k <= |b| && a[..k] == b[..k]
    ensures k == |a| < |b| ==> StrCmp(a, b) == -1
    ensures k < |a| && k < |b| && (a[k] as int) < b[k] as int ==> StrCmp(a, b) == -1
    ensures k == |b| < |a| ==> StrCmp(a, b) == 1
    ensures k < |a| && k < |b| && a[k] as int > b[k] as int ==> StrCmp(a, b) == 1
  {
    if k > 0 {
      assert a[0] == a[..k][0] && b[0] == b[..k][0];
      assert a[1..][..k - 1] == a[..k][1..] && b[1..][..k - 1] == b[..k][1..];
      StrCmpExactly(a[1..], b[1..], k - 1);
    }
  }

  /** Two versions that differ in one letter between two numbers. */
  lemma {:induction false} LetterDecides(c: char, d: char)
    requires Letter(c) && Letter(d) && (c as int) < d as int
    ensures Compare("1.0" + [c] + "1", "1.0" + [d] + "1") == -1 && Compare("1.0" + [d] + "1", "1.0" + [c] + "1") == 1
  {
    hide Segments, StrCmp;
    LetterSegments(c);
    LetterSegments(d);
    StrCmpExactly([c], [d], 0);
    StrCmpExactly([d], [c], 0);
    assert ("1.0" + [c] + "1")[3] != ("1.0" + [d] + "1")[3];
    DecidedAtThird(Num(1), Num(0), Word([c]), Word([d]), Num(1));
    DecidedAtThird(Num(1), Num(0), Word([d]), Word([c]), Num(1));
  }

  lemma {:induction false} DecidedAtThird(a: Segment, b: Segment, c: Segment, d: Segment, e: Segment)
    requires CompareSegment(c, d) != 0 && a.Num? && b.Num?
    ensures forall t, u :: WithTrailers([a, b, c, e], t, [a, b, d, e], u) == CompareSegment(c, d)
  {
    var l, r := [a, b, c, e], [a, b, d, e];
    assert l[1..] == [b, c, e] && r[1..] == [b, d, e];
    assert l[1..][1..] == [c, e] && r[1..][1..] == [d, e];
    forall t, u
      ensures WithTrailers(l, t, r, u) == CompareSegment(c, d)
    {
      assert WithTrailers(l, t, r, u) == WithTrailers(l[1..], t, r[1..], u);
      assert WithTrailers(l[1..], t, r[1..], u) == WithTrailers(l[1..][1..], t, r[1..][1..], u);
    }
  }

  lemma {:induction false} LetterSegments(c: char)
    requires Letter(c)
    ensures Segments("1.0" + [c] + "1", 0) == [Num(1), Num(0), Word([c]), Num(1)]
  {
    hide Value, Segments;
    var s := "1.0" + [c] + "1";
    assert s == "" + "1" + (".0" + [c] + "1");
    NumberFirst("", "1", ".0" + [c] + "1");
    assert ".0" + [c] + "1" == "." + "0" + ([c] + "1");
    NumberFirst(".", "0", [c] + "1");
    assert [c] + "1" == "" + [c] + "1";
    WordFirst("", [c], "1");
    assert "1" == "" + "1" + "";
    NumberFirst("", "1", "");
    NothingBehind("");
    OneDigit();
  }

  lemma {:induction false} OneDigit()
    ensures Value("0") == 0 && Value("1") == 1
  {
    assert Value("") == 0 && Pow10(0) == 1;
    assert "0"[1..] == "" && "1"[1..] == "";
  }

  // ---------- the order ----------

  lemma {:induction false} StrCmpAntisymmetric(a: string, b: string)
    ensures StrCmp(a, b) == -StrCmp(b, a) && (StrCmp(a, b) == 0 <==> a == b)
  {
    if a != "" && b != "" && a[0] == b[0] {
      StrCmpAntisymmetric(a[1..], b[1..]);
      assert a == [a[0]] + a[1..] && b == [b[0]] + b[1..];
    }
  }

  lemma {:induction false} StrCmpTransitive(a: string, b: string, c: string)
    requires StrCmp(a, b) <= 0 && StrCmp(b, c) <= 0
    ensures StrCmp(a, c) <= 0 && (StrCmp(a, b) < 0 || StrCmp(b, c) < 0 ==> StrCmp(a, c) < 0)
  {
    if a != "" && b != "" && c != "" && a[0] == b[0] == c[0] {
      StrCmpTransitive(a[1..], b[1..], c[1..]);
    }
  }

  lemma {:induction false} SegmentAntisymmetric(a: Segment, b: Segment)
    ensures CompareSegment(a, b) == -CompareSegment(b, a) && (CompareSegment(a, b) == 0 <==> a == b)
  {
    if a.Word? && b.Word? {
      StrCmpAntisymmetric(a.text, b.text);
    }
  }

  lemma {:induction false} SegmentTransitive(a: Segment, b: Segment, c: Segment)
    requires CompareSegment(a, b) <= 0 && CompareSegment(b, c) <= 0
    ensures CompareSegment(a, c) <= 0
    ensures CompareSegment(a, b) < 0 || CompareSegment(b, c) < 0 ==> CompareSegment(a, c) < 0
  {
    if a.Word? && b.Word? && c.Word? {
      StrCmpTransitive(a.text, b.text, c.text);
    }
  }

  lemma {:induction false} LexicographicAntisymmetric(a: seq<Segment>, b: seq<Segment>)
    ensures Lexicographic(a, b) == -Lexicographic(b, a) && (Lexicographic(a, b) == 0 <==> a == b)
  {
    if a != [] && b != [] {
      SegmentAntisymmetric(a[0], b[0]);
      LexicographicAntisymmetric(a[1..], b[1..]);
      assert a == [a[0]] + a[1..] && b == [b[0]] + b[1..];
    }
  }

  lemma {:induction false} LexicographicTransitive(a: seq<Segment>, b: seq<Segment>, c: seq<Segment>)
    requires Lexicographic(a, b) <= 0 && Lexicographic(b, c) <= 0
    ensures Lexicographic(a, c) <= 0
  {
    if a != [] && b != [] && c != [] {
      SegmentTransitive(a[0], b[0], c[0]);
      SegmentAntisymmetric(a[0], b[0]);
      SegmentAntisymmetric(b[0], c[0]);
      SegmentAntisymmetric(a[0], c[0]);
      if a[0] == b[0] == c[0] {
        LexicographicTransitive(a[1..], b[1..], c[1..]);
      }
    }
  }

  lemma {:induction false} WithoutTrailers(a: seq<Segment>, b: seq<Segment>)
    ensures WithTrailers(a, false, b, false) == Lexicographic(a, b)
  {
    if a != [] && b != [] {
      WithoutTrailers(a[1..], b[1..]);
    }
  }

  /** On versions that do not end in a separator, the code is the lexicographic order of their segments. */
  lemma {:induction false} CompareIsLexicographic(a: string, b: string)
    requires !Trails(a) && !Trails(b)
    ensures Compare(a, b) == Lexicographic(Segments(a, 0), Segments(b, 0))
  {
    WithoutTrailers(Segments(a, 0), Segments(b, 0));
    LexicographicAntisymmetric(Segments(a, 0), Segments(b, 0));
  }

  /** It is then a total preorder, as qsort needs. */
  lemma {:induction false} CompareIsPreorder(a: string, b: string, c: string)
    requires !Trails(a) && !Trails(b) && !Trails(c)
    ensures Compare(a, b) == -Compare(b, a)
    ensures Compare(a, b) <= 0 && Compare(b, c) <= 0 ==> Compare(a, c) <= 0
  {
    CompareIsLexicographic(a, b);
    CompareIsLexicographic(b, a);
    CompareIsLexicographic(b, c);
    CompareIsLexicographic(a, c);
    var p, q, r := Segments(a, 0), Segments(b, 0), Segments(c, 0);
    LexicographicAntisymmetric(p, q);
    if Lexicographic(p, q) <= 0 && Lexicographic(q, r) <= 0 {
      LexicographicTransitive(p, q, r);
    }
  }

  /** One list ends in separators where the other is also at its end, or goes on with a word. */
  ghost predicate Clash(a: seq<Segment>, ta: bool, b: seq<Segment>, tb: bool)
  {
    || (a == b && ta && tb)
    || (|b| < |a| && a[..|b|] == b && tb && a[|b|].Word?)
    || (|a| < |b| && b[..|a|] == a && ta && b[|a|].Word?)
  }

  lemma {:induction false} ClashExactly(a: seq<Segment>, ta: bool, b: seq<Segment>, tb: bool)
    ensures WithTrailers(a, ta, b, tb) == -WithTrailers(b, tb, a, ta) <==> !Clash(a, ta, b, tb)
  {
    if a != [] && b != [] {
      SegmentAntisymmetric(a[0], b[0]);
      if a[0] == b[0] {
        ClashExactly(a[1..], ta, b[1..], tb);
        assert a == [a[0]] + a[1..] && b == [b[0]] + b[1..];
        ClashOfTails(a, ta, b, tb);
      } else {
        HeadsDiffer(a, b);
      }
    }
  }

  lemma {:induction false} ClashOfTails(a: seq<Segment>, ta: bool, b: seq<Segment>, tb: bool)
    requires a != [] && b != [] && a[0] == b[0]
    ensures Clash(a, ta, b, tb) <==> Clash(a[1..], ta, b[1..], tb)
  {
    assert a == [a[0]] + a[1..] && b == [b[0]] + b[1..];
    if |b| < |a| {
      assert a[..|b|] == [a[0]] + a[1..][..|b[1..]|];
    }
    if |a| < |b| {
      assert b[..|a|] == [b[0]] + b[1..][..|a[1..]|];
    }
  }

  lemma {:induction false} HeadsDiffer(a: seq<Segment>, b: seq<Segment>)
    requires a != [] && b != [] && a[0] != b[0]
    ensures a != b && (|b| < |a| ==> a[..|b|] != b) && (|a| < |b| ==> b[..|a|] != a)
  {
    if |b| < |a| {
      assert a[..|b|][0] == a[0];
    }
    if |a| < |b| {
      assert b[..|a|][0] == b[0];
    }
  }

  /** For any two strings, exchanging the arguments changes the sign unless they clash. */
  lemma {:induction false} AntisymmetricExactly(a: string, b: string)
    ensures Compare(a, b) == -Compare(b, a)
       <==> a == b || !Clash(Segments(a, 0), Trails(a), Segments(b, 0), Trails(b))
  {
    ClashExactly(Segments(a, 0), Trails(a), Segments(b, 0), Trails(b));
  }

  /** A clash: each of "-" and "." is reported older than the other. */
  lemma {:induction false} SeparatorsClash()
    ensures Compare("-", ".") == -1 && Compare(".", "-") == -1
  {
    assert Segments("-", 0) == [] && Segments(".", 0) == [];
  }
}
