/** The text kept in the Application Use field of the primary volume descriptor. */
module IsoText {
  import opened Words

  const FIELD_SIZE := 512
  const FRAGMENT_SUM_LENGTH := 60
  const FRAGMENT_COUNT := 20
  const SKIPSECTORS := 15
  const NUL: char := 0 as char

  const MD5_KEY := "ISO MD5SUM = "
  const SKIP_KEY := "SKIPSECTORS = "
  const SUPPORTED_KEY := "RHLISOSTATUS=1"
  const UNSUPPORTED_KEY := "RHLISOSTATUS=0"
  const SUMS_KEY := "FRAGMENT SUMS = "
  const COUNT_KEY := "FRAGMENT COUNT = "
  const WARNING := "THIS IS NOT " + "THE SAME AS " + "RUNNING MD5SUM " + "ON THIS ISO!!"

  // ---------- numbers in text ----------

  function HexDigit(n: nat): (c: char)
    requires n < 16
    ensures c != '=' && c != ';' && c != NUL && c < 128 as char
  {
    if n < 10 then '0' + n as char else 'a' + (n - 10) as char
  }

  /** Conversion %02x. */
  function Hex2(b: byte): (s: string)
    ensures |s| == 2
  {
    [HexDigit(b / 16), HexDigit(b % 16)]
  }

  /** Conversion %01x cut to one character by its two-byte buffer: the leading digit. */
  function LeadingHex(b: byte): (c: char)
    ensures c != NUL && c < 128 as char
  {
    if b < 16 then HexDigit(b) else HexDigit(b / 16)
  }

  function HexString(d: seq<byte>): (s: string)
    ensures |s| == 2 * |d|
    ensures forall c :: c in s ==> c < 128 as char
  {
    if d == [] then "" else Hex2(d[0]) + HexString(d[1..])
  }

  /** The leading digits of the first `n` digest bytes. */
  function LeadingDigits(d: seq<byte>, n: nat): (s: string)
    requires n <= |d|
    ensures |s| == n
    ensures forall c :: c in s ==> c != NUL && c < 128 as char
  {
    seq(n, i requires 0 <= i < n => LeadingHex(d[i]))
  }

  lemma {:induction false} HexDigitIs(n: nat)
    requires n < 16
    ensures HexDigit(n) == "0123456789abcdef"[n]
  {
  }

  /** Byte `k` is printed as its high and its low digit. */
  lemma {:induction false} HexStringAt(d: seq<byte>, k: nat)
    requires k < |d|
    ensures HexString(d)[2 * k] == "0123456789abcdef"[d[k] / 16]
    ensures HexString(d)[2 * k + 1] == "0123456789abcdef"[d[k] % 16]
  {
    hide HexDigit;
    if k == 0 {
      HexDigitIs(d[0] / 16);
      HexDigitIs(d[0] % 16);
    } else {
      HexStringAt(d[1..], k - 1);
      assert HexString(d)[2 * k] == HexString(d[1..])[2 * (k - 1)];
      assert HexString(d)[2 * k + 1] == HexString(d[1..])[2 * (k - 1) + 1];
    }
  }

  /** Of each byte one digit is kept: the only one below 16, the high one from there on. */
  lemma {:induction false} LeadingDigitsAt(d: seq<byte>, n: nat, k: nat)
    requires k < n <= |d|
    ensures LeadingDigits(d, n)[k] == "0123456789abcdef"[if d[k] < 16 then d[k] else d[k] / 16]
  {
    hide HexDigit;
    HexDigitIs(if d[k] < 16 then d[k] else d[k] / 16);
  }

  /** Digests of one length that are printed alike are equal. */
  lemma {:induction false} HexStringInjective(d: seq<byte>, e: seq<byte>)
    requires |d| == |e| && HexString(d) == HexString(e)
    ensures d == e
  {
    hide HexString;
    forall k | 0 <= k < |d|
      ensures d[k] == e[k]
    {
      HexStringAt(d, k);
      HexStringAt(e, k);
      DigitsDistinct(d[k] / 16, e[k] / 16);
      DigitsDistinct(d[k] % 16, e[k] % 16);
    }
  }

  lemma {:induction false} DigitsDistinct(m: nat, n: nat)
    requires m < 16 && n < 16 && "0123456789abcdef"[m] == "0123456789abcdef"[n]
    ensures m == n
  {
  }

  predicate IsSpace(c: char) {
    c == ' ' || 9 as char <= c <= 13 as char
  }

  predicate IsDigit(c: char) {
    '0' <= c <= '9'
  }

  function CutAtNul(s: string): (t: string)
    ensures t <= s && NUL !in t
  {
    if s == "" || s[0] == NUL then "" else [s[0]] + CutAtNul(s[1..])
  }

  function DigitsValue(s: string, sofar: nat): (r: (nat, string))
  {
    if s == "" || !IsDigit(s[0]) then (sofar, s)
    else DigitsValue(s[1..], 10 * sofar + (s[0] - '0') as nat)
  }

  function AfterSpaces(s: string): (t: string)
  {
    if s != "" && IsSpace(s[0]) then AfterSpaces(s[1..]) else s
  }

  /** Out-of-range values become the nearest long. */
  function Saturated(n: int): (r: int)
    ensures FitsLong(r) && (FitsLong(n) ==> r == n)
    ensures (n > 0x7fff_ffff_ffff_ffff ==> r == 0x7fff_ffff_ffff_ffff)
      && (n < -0x8000_0000_0000_0000 ==> r == -0x8000_0000_0000_0000)
  {
    if n >= 0x8000_0000_0000_0000 then 0x7fff_ffff_ffff_ffff
    else if n < -0x8000_0000_0000_0000 then -0x8000_0000_0000_0000 else n
  }

  /** strtol in base ten; None when characters are left over. */
  function Strtol(text: string): (r: Option<int>)
  {
    var s := CutAtNul(text);
    var t := AfterSpaces(s);
    var negative := t != "" && t[0] == '-';
    var u := if t != "" && (t[0] == '-' || t[0] == '+') then t[1..] else t;
    if u == "" || !IsDigit(u[0]) then
      if s == "" then Some(0) else None
    else
      var (v, rest) := DigitsValue(u, 0);
      if rest != "" then None else Some(Saturated(if negative then 0 - v else v))
  }

  /** The number that decimal digits spell, the last one counting once and each one before it ten times more. */
  function Decimal(d: string): (n: nat)
    requires forall i :: 0 <= i < |d| ==> '0' <= d[i] <= '9'
  {
    if d == "" then 0 else 10 * Decimal(d[..|d| - 1]) + (d[|d| - 1] as int - 48)
  }

  ghost predicate AllDecimal(d: string) {
    forall i :: 0 <= i < |d| ==> '0' <= d[i] <= '9'
  }

  lemma {:induction false} DigitsRead(p: string, d: string, rest: string)
    requires AllDecimal(p) && AllDecimal(d) && (rest == "" || !('0' <= rest[0] <= '9'))
    ensures AllDecimal(p + d) && DigitsValue(d + rest, Decimal(p)) == (Decimal(p + d), rest)
    decreases |d|
  {
    if d == "" {
      assert d + rest == rest && p + d == p;
    } else {
      var p' := p + [d[0]];
      assert p'[..|p|] == p;
      assert p' + d[1..] == p + d;
      DigitsRead(p', d[1..], rest);
      assert (d + rest)[1..] == d[1..] + rest;
    }
  }

  lemma {:induction false} CutBehind(s: string, rest: string)
    requires NUL !in s
    ensures CutAtNul(s + rest) == s + CutAtNul(rest)
  {
    if s == "" {
      assert s + rest == rest;
    } else {
      assert s[0] in s;
      assert (s + rest)[1..] == s[1..] + rest;
      CutBehind(s[1..], rest);
    }
  }

  lemma {:induction false} SpacesSkipped(sp: string, t: string)
    requires (forall i :: 0 <= i < |sp| ==> sp[i] == ' ' || 9 <= sp[i] as int <= 13)
    requires t != "" && t[0] != ' ' && !(9 <= t[0] as int <= 13)
    ensures AfterSpaces(sp + t) == t
  {
    if sp == "" {
      assert sp + t == t;
    } else {
      assert (sp + t)[1..] == sp[1..] + t;
      SpacesSkipped(sp[1..], t);
    }
  }

  /** White space, a sign and digits. */
  ghost predicate Spelled(sp: string, sign: string, d: string) {
    && (forall i :: 0 <= i < |sp| ==> sp[i] == ' ' || 9 <= sp[i] as int <= 13)
    && (sign == "" || sign == ['+'] || sign == ['-']) && d != "" && AllDecimal(d)
  }

  lemma {:induction false} StrtolOf(text: string, sp: string, sign: string, d: string, junk: string)
    requires Spelled(sp, sign, d) && CutAtNul(text) == sp + (sign + (d + junk))
    requires junk == "" || !('0' <= junk[0] <= '9')
    ensures Strtol(text)
         == if junk != "" then None else Some(Saturated(if sign == ['-'] then 0 - Decimal(d) else Decimal(d)))
  {
    hide CutAtNul, DigitsValue, Decimal, Saturated, AfterSpaces;
    var u := d + junk;
    var t := sign + u;
    SpacesSkipped(sp, t);
    assert t[|sign|..] == u && u[0] == d[0];
    DigitsRead("", d, junk);
    assert "" + d == d;
    NoDigits();
  }

  /** They are read as the number they spell, cut to a long; with anything else behind them, as nothing. */
  lemma {:induction false} StrtolReads(sp: string, sign: string, d: string, rest: string)
    requires Spelled(sp, sign, d) && (rest == "" || !('0' <= rest[0] <= '9'))
    ensures Strtol(sp + sign + d + rest)
         == if rest != "" && rest[0] != NUL then None
            else Some(Saturated(if sign == ['-'] then 0 - Decimal(d) else Decimal(d)))
  {
    hide CutAtNul, Strtol, Decimal, Saturated;
    var s, junk := sp + sign + d, CutAtNul(rest);
    CutBehind(s, rest);
    CutStarts(rest);
    assert s + junk == sp + (sign + (d + junk));
    StrtolOf(s + rest, sp, sign, d, junk);
  }

  lemma {:induction false} CutStarts(s: string)
    ensures CutAtNul(s) == "" <==> s == "" || s[0] == NUL
    ensures CutAtNul(s) != "" ==> CutAtNul(s)[0] == s[0]
  {
  }

  lemma {:induction false} NoDigits()
    ensures Decimal("") == 0
  {
  }

  // ---------- the parser ----------

  datatype Values = Values(mediasum: string, skipsectors: int, supported: bool, fragmentsums: string,
    fragmentcount: int)

  /** Overrun marks a copy that would leave the field, which C does not define. */
  datatype Parse = NotFound | Overrun | Parsed(values: Values)

  datatype Found = Found(md5: bool, skip: bool, supported: bool, fragsum: bool, fragcnt: bool)

  const NOTHING := Found(false, false, false, false, false)
  const BLANK := Values("", 0, false, "", 0)

  /** The field as the parser sees it: its last byte is overwritten with a terminator. */
  function Terminated(field: string): (s: string)
    requires |field| == FIELD_SIZE
    ensures |s| == FIELD_SIZE
  {
    field[..511] + [NUL]
  }

  /** strncmp of a key against the text at `loc`; no key reaches over the terminator. */
  predicate Matches(s: string, loc: nat, key: string)
    requires |s| == FIELD_SIZE
  {
    loc + |key| <= 511 && s[loc..loc + |key|] == key
  }

  function SkipToSemicolon(s: string, loc: nat): (l: nat)
    requires |s| == FIELD_SIZE
    ensures loc <= l && (loc <= FIELD_SIZE ==> l <= FIELD_SIZE) && (loc > FIELD_SIZE ==> l == loc)
    ensures forall k :: loc <= k < l && k < FIELD_SIZE ==> s[k] != ';'
    ensures l < FIELD_SIZE ==> s[l] == ';'
    decreases FIELD_SIZE - loc
  {
    if loc >= FIELD_SIZE || s[loc] == ';' then loc else SkipToSemicolon(s, loc + 1)
  }

  /** One pass of the loop body: where the scan goes on, or how it ends. */
  datatype Advance = Stop(result: Parse) | Next(loc: nat, found: Found, values: Values)

  function Recognise(s: string, loc: nat, found: Found, values: Values): (a: Advance)
    requires |s| == FIELD_SIZE && loc < FIELD_SIZE
    ensures a.Next? ==> a.loc > loc
  {
    if Matches(s, loc, MD5_KEY) then
      if loc + 32 + 13 > 511 then Stop(NotFound)
      else Next(SkipToSemicolon(s, loc + 45), found.(md5 := true), values.(mediasum := s[loc + 13..loc + 45]))
    else if Matches(s, loc, SKIP_KEY) then
      var stop := SkipToSemicolon(s, loc + 14);
      (match Strtol(s[loc + 14..stop])
       case None => Stop(NotFound)
       case Some(n) => Next(stop, found.(skip := true), values.(skipsectors := Signed32(n))))
    else if Matches(s, loc, SUPPORTED_KEY) then
      KeyHasNoSemicolon(s, loc, SUPPORTED_KEY);
      Next(SkipToSemicolon(s, loc), found.(supported := true), values.(supported := true))
    else if Matches(s, loc, UNSUPPORTED_KEY) then
      KeyHasNoSemicolon(s, loc, UNSUPPORTED_KEY);
      Next(SkipToSemicolon(s, loc), found.(supported := true), values.(supported := false))
    else if Matches(s, loc, SUMS_KEY) then
      if loc + FRAGMENT_SUM_LENGTH > 511 then Stop(NotFound)
      else if loc + 16 + FRAGMENT_SUM_LENGTH > FIELD_SIZE then Stop(Overrun)
      else Next(SkipToSemicolon(s, loc + FRAGMENT_SUM_LENGTH + 16), found.(fragsum := true),
                values.(fragmentsums := s[loc + 16..loc + 16 + FRAGMENT_SUM_LENGTH]))
    else if Matches(s, loc, COUNT_KEY) then
      var stop := SkipToSemicolon(s, loc + 17);
      (match Strtol(s[loc + 17..stop])
       case None => Stop(NotFound)
       case Some(n) => Next(stop, found.(fragcnt := true), values.(fragmentcount := n)))
    else
      Next(loc + 1, found, values)
  }

  /** Where a key stands decides whether its value still fits: the text ends the scan, or the copy leaves the field. */
  lemma {:induction false} KeysNearTheEnd(s: string, loc: nat, found: Found, values: Values)
    requires |s| == FIELD_SIZE && loc < FIELD_SIZE
    ensures Matches(s, loc, "ISO MD5SUM = ") ==>
      if loc <= 466 then Recognise(s, loc, found, values).Next? else Recognise(s, loc, found, values) == Stop(NotFound)
    ensures Matches(s, loc, "FRAGMENT SUMS = ") ==>
      var a := Recognise(s, loc, found, values);
      if loc <= 436 then a.Next? else if loc <= 451 then a == Stop(Overrun) else a == Stop(NotFound)
  {
    hide Strtol, SkipToSemicolon;
    if Matches(s, loc, "FRAGMENT SUMS = ") {
      assert s[loc] == s[loc..loc + 16][0] == 'F';
      KeyCharacter(s, loc, MD5_KEY, 0);
      KeyCharacter(s, loc, SKIP_KEY, 0);
      KeyCharacter(s, loc, SUPPORTED_KEY, 0);
      KeyCharacter(s, loc, UNSUPPORTED_KEY, 0);
    }
  }

  lemma {:induction false} KeyHasNoSemicolon(s: string, loc: nat, key: string)
    requires |s| == FIELD_SIZE && Matches(s, loc, key) && 0 < |key| && key[0] != ';'
    ensures SkipToSemicolon(s, loc) > loc
  {
    assert s[loc] == s[loc..loc + |key|][0];
  }

  predicate Complete(found: Found) {
    found.md5 && found.skip && found.supported && found.fragsum && found.fragcnt
  }

  /** What the scan from `loc` on will return. */
  function ScanFrom(s: string, loc: nat, found: Found, values: Values): (r: Parse)
    requires |s| == FIELD_SIZE
    decreases FIELD_SIZE - loc
  {
    if loc >= FIELD_SIZE then
      if found.skip && found.md5 then Parsed(values) else NotFound
    else
      match Recognise(s, loc, found, values)
      case Stop(r) => r
      case Next(loc', found', values') =>
        if Complete(found') then Parsed(values') else ScanFrom(s, loc', found', values')
  }

  function ParseField(field: string): (r: Parse)
    requires |field| == FIELD_SIZE
  {
    ScanFrom(Terminated(field), 0, NOTHING, BLANK)
  }

  /** The scanning loop of the checker's parsepvd. */
  method Scan(field: string) returns (r: Parse)
    requires |field| == FIELD_SIZE
    ensures r == ParseField(field)
  {
    var s := Terminated(field);
    var loc, found, values := 0, NOTHING, BLANK;
    while loc < FIELD_SIZE
      invariant ScanFrom(s, loc, found, values) == ParseField(field)
      invariant !Complete(found)
      decreases FIELD_SIZE - loc
    {
      match Recognise(s, loc, found, values) {
        case Stop(e) =>
          return e;
        case Next(loc', found', values') =>
          loc, found, values := loc', found', values';
      }
      if Complete(found) {
        return Parsed(values);
      }
    }
    r := if found.skip && found.md5 then Parsed(values) else NotFound;
  }

  // ---------- where the values come from ----------

  ghost predicate KeyAt(s: string, loc: nat, key: string) {
    loc + |key| <= 511 <= |s| && s[loc..loc + |key|] == key
  }

  /** The 32 characters behind a key, all before the terminator. */
  ghost predicate SumAt(s: string, loc: nat, sum: string) {
    KeyAt(s, loc, "ISO MD5SUM = ") && loc + 45 <= 511 && sum == s[loc + 13..loc + 45]
  }

  ghost predicate StatusAt(s: string, loc: nat, supported: bool) {
    if supported then KeyAt(s, loc, "RHLISOSTATUS=1") else KeyAt(s, loc, "RHLISOSTATUS=0")
  }

  ghost predicate FragmentsAt(s: string, loc: nat, sums: string) {
    KeyAt(s, loc, "FRAGMENT SUMS = ") && loc + 76 <= |s| && sums == s[loc + 16..loc + 76]
  }

  /** The text between a key and the next semicolon, or the end, is this number. */
  ghost predicate NumberAt(s: string, loc: nat, key: string, stop: nat, n: int) {
    && KeyAt(s, loc, key) && loc + |key| <= stop <= |s| && ';' !in s[loc + |key|..stop]
    && (stop < |s| ==> s[stop] == ';') && Strtol(s[loc + |key|..stop]) == Some(n)
  }

  /** Every value that was found stands in the text behind its key; the others are as they were. */
  ghost predicate Backed(s: string, found: Found, v: Values) {
    && (if found.md5 then exists loc :: SumAt(s, loc, v.mediasum) else v.mediasum == "")
    && (if found.skip
        then exists loc, stop, n :: NumberAt(s, loc, "SKIPSECTORS = ", stop, n) && v.skipsectors == Signed32(n)
        else v.skipsectors == 0)
    && (if found.supported then exists loc :: StatusAt(s, loc, v.supported) else !v.supported)
    && (if found.fragsum then exists loc :: FragmentsAt(s, loc, v.fragmentsums) else v.fragmentsums == "")
    && (if found.fragcnt then exists loc, stop :: NumberAt(s, loc, "FRAGMENT COUNT = ", stop, v.fragmentcount)
        else v.fragmentcount == 0)
  }

  lemma {:induction false} NumberFound(s: string, loc: nat, key: string, n: int)
    requires |s| == FIELD_SIZE && Matches(s, loc, key)
    requires Strtol(s[loc + |key|..SkipToSemicolon(s, loc + |key|)]) == Some(n)
    ensures NumberAt(s, loc, key, SkipToSemicolon(s, loc + |key|), n)
  {
    hide Strtol;
  }

  lemma {:induction false} BacksSum(s: string, loc: nat, found: Found, v: Values)
    requires |s| == FIELD_SIZE && Backed(s, found, v) && Matches(s, loc, MD5_KEY) && loc + 45 <= 511
    ensures Backed(s, found.(md5 := true), v.(mediasum := s[loc + 13..loc + 45]))
  {
    hide Strtol;
    assert SumAt(s, loc, s[loc + 13..loc + 45]);
  }

  lemma {:induction false} BacksSkip(s: string, loc: nat, found: Found, v: Values, n: int)
    requires |s| == FIELD_SIZE && Backed(s, found, v) && Matches(s, loc, SKIP_KEY)
    requires Strtol(s[loc + 14..SkipToSemicolon(s, loc + 14)]) == Some(n)
    ensures Backed(s, found.(skip := true), v.(skipsectors := Signed32(n)))
  {
    hide Strtol, Signed32;
    NumberFound(s, loc, SKIP_KEY, n);
  }

  lemma {:induction false} BacksStatus(s: string, loc: nat, found: Found, v: Values, supported: bool)
    requires |s| == FIELD_SIZE && Backed(s, found, v)
    requires Matches(s, loc, if supported then SUPPORTED_KEY else UNSUPPORTED_KEY)
    ensures Backed(s, found.(supported := true), v.(supported := supported))
  {
    hide Strtol;
    assert StatusAt(s, loc, supported);
  }

  lemma {:induction false} BacksFragments(s: string, loc: nat, found: Found, v: Values)
    requires |s| == FIELD_SIZE && Backed(s, found, v) && Matches(s, loc, SUMS_KEY) && loc + 76 <= FIELD_SIZE
    ensures Backed(s, found.(fragsum := true), v.(fragmentsums := s[loc + 16..loc + 76]))
  {
    hide Strtol;
    assert FragmentsAt(s, loc, s[loc + 16..loc + 76]);
  }

  lemma {:induction false} BacksCount(s: string, loc: nat, found: Found, v: Values, n: int)
    requires |s| == FIELD_SIZE && Backed(s, found, v) && Matches(s, loc, COUNT_KEY)
    requires Strtol(s[loc + 17..SkipToSemicolon(s, loc + 17)]) == Some(n)
    ensures Backed(s, found.(fragcnt := true), v.(fragmentcount := n))
  {
    hide Strtol;
    NumberFound(s, loc, COUNT_KEY, n);
  }

  lemma {:induction false} RecogniseBacks(s: string, loc: nat, found: Found, values: Values)
    requires |s| == FIELD_SIZE && loc < FIELD_SIZE && Backed(s, found, values)
    ensures
      var a := Recognise(s, loc, found, values);
      if a.Next? then Backed(s, a.found, a.values) else !a.result.Parsed?
  {
    hide Strtol, SkipToSemicolon, Signed32, Backed;
    var a := Recognise(s, loc, found, values);
    if a.Next? {
      if Matches(s, loc, MD5_KEY) {
        BacksSum(s, loc, found, values);
      } else if Matches(s, loc, SKIP_KEY) {
        BacksSkip(s, loc, found, values, Strtol(s[loc + 14..SkipToSemicolon(s, loc + 14)]).value);
      } else if Matches(s, loc, SUPPORTED_KEY) {
        BacksStatus(s, loc, found, values, true);
      } else if Matches(s, loc, UNSUPPORTED_KEY) {
        BacksStatus(s, loc, found, values, false);
      } else if Matches(s, loc, SUMS_KEY) {
        BacksFragments(s, loc, found, values);
      } else if Matches(s, loc, COUNT_KEY) {
        BacksCount(s, loc, found, values, Strtol(s[loc + 17..SkipToSemicolon(s, loc + 17)]).value);
      }
    }
  }

  lemma {:induction false} ScanBacks(s: string, loc: nat, found: Found, values: Values) returns (found': Found)
    requires |s| == FIELD_SIZE && Backed(s, found, values) && !Complete(found)
    requires ScanFrom(s, loc, found, values).Parsed?
    ensures found'.md5 && found'.skip && Backed(s, found', ScanFrom(s, loc, found, values).values)
    decreases FIELD_SIZE - loc
  {
    hide Recognise, Backed;
    found' := found;
    if loc < FIELD_SIZE {
      RecogniseBacks(s, loc, found, values);
      var a := Recognise(s, loc, found, values);
      if a.Next? {
        if Complete(a.found) {
          found' := a.found;
        } else {
          found' := ScanBacks(s, a.loc, a.found, a.values);
        }
      }
    }
  }

  /** Whatever the field holds, the values parsed from it stand in it, and a sum and a number of sectors do. */
  lemma {:induction false} ParsedFromField(field: string) returns (found: Found)
    requires |field| == FIELD_SIZE && ParseField(field).Parsed?
    ensures found.md5 && found.skip && Backed(field[..511] + [NUL], found, ParseField(field).values)
  {
    hide ScanFrom;
    found := ScanBacks(Terminated(field), 0, NOTHING, BLANK);
  }

  // ---------- the printer ----------

  function Spaces(n: nat): (s: string)
    ensures |s| == n
  {
    seq(n, i => ' ')
  }

  function StatusText(supported: bool): (s: string)
    ensures |s| == 14 && ';' !in s && s[0] == 'R' && s[13] == (if supported then '1' else '0')
  {
    if supported then SUPPORTED_KEY else UNSUPPORTED_KEY
  }

  function SumEntry(sum: string): (s: string)
    ensures |s| == 14 + |sum|
  {
    MD5_KEY + sum + ";"
  }

  function SkipEntry(): (s: string)
    ensures |s| == 17
  {
    "SKIPSECTORS = 15" + ";"
  }

  function StatusEntry(supported: bool): (s: string)
    ensures |s| == 15
  {
    StatusText(supported) + ";"
  }

  function FragmentsEntry(frags: string): (s: string)
    ensures |s| == 17 + |frags|
  {
    SUMS_KEY + frags + ";"
  }

  function CountEntry(): (s: string)
    ensures |s| == 20
  {
    "FRAGMENT COUNT = 20" + ";"
  }

  function Warning(): (s: string)
    ensures |s| == 52
    ensures '=' !in s
  {
    assert '=' !in "THIS IS NOT " && '=' !in "THE SAME AS " && '=' !in "RUNNING MD5SUM " && '=' !in "ON THIS ISO!!";
    WARNING
  }

  /** The text the implanter composes. */
  function FieldText(sum: string, supported: bool, frags: string): (s: string)
    requires |sum| == 32
    ensures |s| == 167 + |frags|
  {
    SumEntry(sum) + SkipEntry() + StatusEntry(supported) + FragmentsEntry(frags) + CountEntry() + Warning()
  }

  /** The text, character for character. */
  lemma {:induction false} FieldTextIs(sum: string, supported: bool, frags: string)
    requires |sum| == 32
    ensures FieldText(sum, supported, frags)
         == ("ISO MD5SUM = " + sum + ";") + "SKIPSECTORS = 15;"
            + (if supported then "RHLISOSTATUS=1;" else "RHLISOSTATUS=0;")
            + ("FRAGMENT SUMS = " + frags + ";") + "FRAGMENT COUNT = 20;"
            + "THIS IS NOT THE SAME AS RUNNING MD5SUM ON THIS ISO!!"
  {
    assert SkipEntry() == "SKIPSECTORS = 15;" && CountEntry() == "FRAGMENT COUNT = 20;";
    assert StatusEntry(supported) == if supported then "RHLISOSTATUS=1;" else "RHLISOSTATUS=0;";
    WarningIs();
  }

  lemma {:induction false} WarningIs()
    ensures Warning() == "THIS IS NOT THE SAME AS RUNNING MD5SUM ON THIS ISO!!"
  {
    assert "THIS IS NOT " + "THE SAME AS " == "THIS IS NOT THE SAME AS ";
    assert "THIS IS NOT THE SAME AS " + "RUNNING MD5SUM " == "THIS IS NOT THE SAME AS RUNNING MD5SUM ";
    assert "THIS IS NOT THE SAME AS RUNNING MD5SUM " + "ON THIS ISO!!"
      == "THIS IS NOT THE SAME AS RUNNING MD5SUM ON THIS ISO!!";
  }

  /** The whole field: the text, then spaces. */
  function Field(sum: string, supported: bool, frags: string): (s: string)
    requires |sum| == 32 && |frags| <= FRAGMENT_SUM_LENGTH
    ensures |s| == FIELD_SIZE
  {
    FieldText(sum, supported, frags) + Spaces(FIELD_SIZE - 167 - |frags|)
  }

  /** writeAppData: the text goes in at `loc` unless it would pass byte 511, where the program exits. */
  method WriteAppData(appdata: array<char>, valstr: string, loc: nat) returns (ok: bool, loc': nat)
    requires appdata.Length == FIELD_SIZE
    modifies appdata
    ensures ok == (loc + |valstr| <= 511)
    ensures !ok ==> loc' == loc && appdata[..] == old(appdata[..])
    ensures ok ==> loc' == loc + |valstr| && appdata[..] == old(appdata[..loc]) + valstr + old(appdata[loc'..])
  {
    if loc + |valstr| > 511 {
      return false, loc;
    }
    forall i | loc <= i < loc + |valstr| {
      appdata[i] := valstr[i - loc];
    }
    return true, loc + |valstr|;
  }

  /** The buffer holds `text`, then spaces. */
  ghost predicate Holds(buffer: string, text: string)
  {
    |text| <= FIELD_SIZE && buffer == text + Spaces(FIELD_SIZE - |text|)
  }

  /** Writing behind the text lengthens it; within 511 bytes the exit path is not taken. */
  method Append(appdata: array<char>, ghost text: string, valstr: string, loc: nat) returns (loc': nat)
    requires appdata.Length == FIELD_SIZE && Holds(appdata[..], text)
    requires loc == |text| && loc + |valstr| <= 511
    modifies appdata
    ensures Holds(appdata[..], text + valstr) && loc' == |text + valstr|
  {
    var ok;
    ok, loc' := WriteAppData(appdata, valstr, loc);
    assert ok;
    assert appdata[..] == text + valstr + Spaces(FIELD_SIZE - |text + valstr|);
  }

  /** A piece of text and the semicolon that ends it. */
  method AppendEnded(appdata: array<char>, ghost text: string, valstr: string, loc: nat) returns (loc': nat)
    requires appdata.Length == FIELD_SIZE && Holds(appdata[..], text)
    requires loc == |text| && loc + |valstr| + 1 <= 511
    modifies appdata
    ensures Holds(appdata[..], text + (valstr + ";")) && loc' == |text + (valstr + ";")|
  {
    loc' := Append(appdata, text, valstr, loc);
    loc' := Append(appdata, text + valstr, ";", loc');
    assert text + valstr + ";" == text + (valstr + ";");
  }

  /** A key, its value and the semicolon that ends them. */
  method AppendKeyed(appdata: array<char>, ghost text: string, key: string, valstr: string, loc: nat)
    returns (loc': nat)
    requires appdata.Length == FIELD_SIZE && Holds(appdata[..], text)
    requires loc == |text| && loc + |key| + |valstr| + 1 <= 511
    modifies appdata
    ensures Holds(appdata[..], text + (key + valstr + ";")) && loc' == |text + (key + valstr + ";")|
  {
    loc' := Append(appdata, text, key, loc);
    loc' := AppendEnded(appdata, text + key, valstr, loc');
    assert text + key + (valstr + ";") == text + (key + valstr + ";");
  }

  /** The writeAppData calls of the implanter, none of which exits. */
  method ComposeField(sum: string, supported: bool, frags: string) returns (field: string)
    requires |sum| == 32 && |frags| <= FRAGMENT_SUM_LENGTH
    ensures field == Field(sum, supported, frags)
  {
    var appdata := new char[FIELD_SIZE](i => ' ');
    assert appdata[..] == "" + Spaces(FIELD_SIZE);
    var loc := AppendKeyed(appdata, "", MD5_KEY, sum, 0);
    ghost var text := SumEntry(sum);
    assert "" + text == text;
    loc := AppendEnded(appdata, text, "SKIPSECTORS = 15", loc);
    text := text + SkipEntry();
    loc := AppendEnded(appdata, text, StatusText(supported), loc);
    text := text + StatusEntry(supported);
    loc := AppendKeyed(appdata, text, SUMS_KEY, frags, loc);
    text := text + FragmentsEntry(frags);
    loc := AppendEnded(appdata, text, "FRAGMENT COUNT = 20", loc);
    text := text + CountEntry();
    loc := Append(appdata, text, WARNING, loc);
    field := appdata[..];
  }

  // ---------- the parser undoes the printer ----------

  /** Every key contains an equals sign, so no key starts where none follows. */
  lemma {:induction false} NoKeyWithoutEquals(s: string, loc: nat)
    requires |s| == FIELD_SIZE && loc < FIELD_SIZE
    requires forall k :: loc <= k < FIELD_SIZE ==> s[k] != '='
    ensures forall found, values :: Recognise(s, loc, found, values) == Next(loc + 1, found, values)
  {
    KeyCharacter(s, loc, MD5_KEY, 11);
    KeyCharacter(s, loc, SKIP_KEY, 12);
    KeyCharacter(s, loc, SUPPORTED_KEY, 12);
    KeyCharacter(s, loc, UNSUPPORTED_KEY, 12);
    KeyCharacter(s, loc, SUMS_KEY, 14);
    KeyCharacter(s, loc, COUNT_KEY, 15);
  }

  lemma {:induction false} KeyCharacter(s: string, loc: nat, key: string, k: nat)
    requires |s| == FIELD_SIZE && k < |key|
    ensures Matches(s, loc, key) ==> loc + k < FIELD_SIZE && s[loc + k] == key[k]
  {
    if Matches(s, loc, key) {
      assert s[loc + k] == s[loc..loc + |key|][k];
    }
  }

  /** A scan over text without an equals sign changes nothing. */
  lemma {:induction false} ScanWithoutEquals(s: string, loc: nat, found: Found, values: Values)
    requires |s| == FIELD_SIZE && loc <= FIELD_SIZE && !Complete(found) && found.md5 && found.skip
    requires forall k :: loc <= k < FIELD_SIZE ==> s[k] != '='
    ensures ScanFrom(s, loc, found, values) == Parsed(values)
    decreases FIELD_SIZE - loc
  {
    if loc < FIELD_SIZE {
      NoKeyWithoutEquals(s, loc);
      ScanWithoutEquals(s, loc + 1, found, values);
    }
  }

  lemma {:induction false} ScanOverSemicolon(s: string, loc: nat, found: Found, values: Values)
    requires |s| == FIELD_SIZE && loc < FIELD_SIZE && s[loc] == ';' && !Complete(found)
    ensures ScanFrom(s, loc, found, values) == ScanFrom(s, loc + 1, found, values)
  {
    KeyCharacter(s, loc, MD5_KEY, 0);
    KeyCharacter(s, loc, SKIP_KEY, 0);
    KeyCharacter(s, loc, SUPPORTED_KEY, 0);
    KeyCharacter(s, loc, UNSUPPORTED_KEY, 0);
    KeyCharacter(s, loc, SUMS_KEY, 0);
    KeyCharacter(s, loc, COUNT_KEY, 0);
  }

  /** `part` stands at `at` in `s`. */
  ghost predicate Has(s: string, at: nat, part: string)
  {
    at + |part| <= |s| && forall k :: 0 <= k < |part| ==> s[at + k] == part[k]
  }

  lemma {:induction false} HasSlice(s: string, at: nat, part: string)
    requires Has(s, at, part)
    ensures s[at..at + |part|] == part
  {
  }

  lemma {:induction false} HasSplit(s: string, at: nat, a: string, b: string)
    requires Has(s, at, a + b)
    ensures Has(s, at, a) && Has(s, at + |a|, b)
  {
    forall k | 0 <= k < |a|
      ensures s[at + k] == a[k]
    {
      assert a[k] == (a + b)[k];
    }
    forall k | 0 <= k < |b|
      ensures s[at + |a| + k] == b[k]
    {
      assert b[k] == (a + b)[|a| + k];
    }
  }

  lemma {:induction false} HasPart(s: string, at: nat, a: string, b: string, c: string)
    requires Has(s, at, a + b + c)
    ensures Has(s, at, a) && Has(s, at + |a|, b) && Has(s, at + |a| + |b|, c)
  {
    HasSplit(s, at, a + b, c);
    HasSplit(s, at, a, b);
  }

  /** A text without semicolons is skipped as a whole, from wherever in it the skip starts. */
  lemma {:induction false} SkipOver(s: string, at: nat, loc: nat, part: string)
    requires |s| == FIELD_SIZE && Has(s, at, part) && ';' !in part
    requires at <= loc && at + |part| < FIELD_SIZE && s[at + |part|] == ';'
    ensures loc <= at + |part| ==> SkipToSemicolon(s, loc) == at + |part|
  {
    forall k | at <= k < at + |part|
      ensures s[k] != ';'
    {
      assert s[at + (k - at)] == part[k - at] && part[k - at] in part;
    }
  }

  lemma {:induction false} HasKey(s: string, at: nat, key: string)
    requires |s| == FIELD_SIZE && Has(s, at, key) && at + |key| <= 511
    ensures Matches(s, at, key)
  {
    HasSlice(s, at, key);
  }

  lemma {:induction false} ScanStep(s: string, loc: nat, found: Found, values: Values, loc': nat, found': Found,
                                    values': Values)
    requires |s| == FIELD_SIZE && loc < FIELD_SIZE && !Complete(found')
    requires Recognise(s, loc, found, values) == Next(loc', found', values')
    ensures ScanFrom(s, loc, found, values) == ScanFrom(s, loc', found', values')
  {
  }

  lemma {:induction false} RecogniseSum(s: string, sum: string, found: Found, values: Values)
    requires |s| == FIELD_SIZE && |sum| == 32 && Has(s, 0, MD5_KEY) && Has(s, 13, sum) && s[45] == ';'
    ensures Recognise(s, 0, found, values) == Next(45, found.(md5 := true), values.(mediasum := sum))
  {
    HasKey(s, 0, MD5_KEY);
    HasSlice(s, 13, sum);
  }

  lemma {:induction false} ScanSum(s: string, sum: string, values: Values)
    requires |s| == FIELD_SIZE && |sum| == 32 && Has(s, 0, SumEntry(sum))
    ensures ScanFrom(s, 0, NOTHING, values)
         == ScanFrom(s, 46, NOTHING.(md5 := true), values.(mediasum := sum))
  {
    HasPart(s, 0, MD5_KEY, sum, ";");
    assert s[45 + 0] == ";"[0];
    var found', values' := NOTHING.(md5 := true), values.(mediasum := sum);
    RecogniseSum(s, sum, NOTHING, values);
    ScanStep(s, 0, NOTHING, values, 45, found', values');
    ScanOverSemicolon(s, 45, found', values');
  }

  lemma {:induction false} StrtolTwoDigits(s: string)
    requires |s| == 2 && IsDigit(s[0]) && IsDigit(s[1])
    ensures Strtol(s) == Some(10 * (s[0] - '0') as int + (s[1] - '0') as int)
  {
    assert s == [s[0], s[1]];
    assert CutAtNul(s[1..]) == s[1..];
    assert CutAtNul(s) == s;
    assert DigitsValue(s, 0) == DigitsValue(s[1..], (s[0] - '0') as nat);
    assert s[1..][1..] == "";
  }

  lemma {:induction false} RecogniseSkip(s: string, found: Found, values: Values)
    requires |s| == FIELD_SIZE && Has(s, 46, SKIP_KEY) && Has(s, 60, "15") && s[62] == ';'
    ensures Recognise(s, 46, found, values)
         == Next(62, found.(skip := true), values.(skipsectors := SKIPSECTORS))
  {
    HasKey(s, 46, SKIP_KEY);
    KeyCharacter(s, 46, SKIP_KEY, 0);
    KeyCharacter(s, 46, MD5_KEY, 0);
    HasSlice(s, 60, "15");
    assert s[60 + 0] == "15"[0] && s[60 + 1] == "15"[1];
    assert SkipToSemicolon(s, 60) == 62;
    StrtolTwoDigits("15");
  }

  lemma {:induction false} ScanSkip(s: string, found: Found, values: Values)
    requires |s| == FIELD_SIZE && found == NOTHING.(md5 := true) && Has(s, 46, SkipEntry())
    ensures ScanFrom(s, 46, found, values)
         == ScanFrom(s, 63, found.(skip := true), values.(skipsectors := SKIPSECTORS))
  {
    assert SkipEntry() == SKIP_KEY + "15" + ";";
    HasPart(s, 46, SKIP_KEY, "15", ";");
    assert s[62 + 0] == ";"[0];
    var found', values' := found.(skip := true), values.(skipsectors := SKIPSECTORS);
    RecogniseSkip(s, found, values);
    ScanStep(s, 46, found, values, 62, found', values');
    ScanOverSemicolon(s, 62, found', values');
  }

  lemma {:induction false} RecogniseStatus(s: string, supported: bool, found: Found, values: Values)
    requires |s| == FIELD_SIZE && Has(s, 63, StatusText(supported))
    ensures Recognise(s, 63, found, values)
         == Next(SkipToSemicolon(s, 63), found.(supported := true), values.(supported := supported))
  {
    hide Has, Strtol, SkipToSemicolon, Matches;
    var key := StatusText(supported);
    HasKey(s, 63, key);
    KeyCharacter(s, 63, key, 0);
    KeyCharacter(s, 63, key, 13);
    KeyCharacter(s, 63, MD5_KEY, 0);
    KeyCharacter(s, 63, SKIP_KEY, 0);
    KeyCharacter(s, 63, SUPPORTED_KEY, 13);
  }

  lemma {:induction false} ScanStatus(s: string, supported: bool, found: Found, values: Values)
    requires |s| == FIELD_SIZE && found == Found(true, true, false, false, false) && Has(s, 63, StatusEntry(supported))
    ensures ScanFrom(s, 63, found, values)
         == ScanFrom(s, 78, found.(supported := true), values.(supported := supported))
  {
    var key := StatusText(supported);
    HasSplit(s, 63, key, ";");
    RecogniseStatus(s, supported, found, values);
    assert s[77 + 0] == ";"[0];
    SkipOver(s, 63, 63, key);
    var found', values' := found.(supported := true), values.(supported := supported);
    ScanStep(s, 63, found, values, 77, found', values');
    ScanOverSemicolon(s, 77, found', values');
  }

  lemma {:induction false} RecogniseSums(s: string, found: Found, values: Values)
    requires |s| == FIELD_SIZE && Has(s, 78, SUMS_KEY)
    ensures Recognise(s, 78, found, values)
         == Next(SkipToSemicolon(s, 154), found.(fragsum := true), values.(fragmentsums := s[94..154]))
  {
    hide Has, Strtol, SkipToSemicolon, Matches;
    HasKey(s, 78, SUMS_KEY);
    KeyCharacter(s, 78, SUMS_KEY, 0);
    KeyCharacter(s, 78, MD5_KEY, 0);
    KeyCharacter(s, 78, SKIP_KEY, 0);
    KeyCharacter(s, 78, SUPPORTED_KEY, 0);
    KeyCharacter(s, 78, UNSUPPORTED_KEY, 0);
  }

  lemma {:induction false} RecogniseCount(s: string, found: Found, values: Values)
    requires |s| == FIELD_SIZE && Has(s, 155, COUNT_KEY) && s[172..174] == "20" && SkipToSemicolon(s, 172) == 174
    ensures Recognise(s, 155, found, values)
         == Next(174, found.(fragcnt := true), values.(fragmentcount := FRAGMENT_COUNT))
  {
    hide Has, Strtol, SkipToSemicolon, Matches;
    HasKey(s, 155, COUNT_KEY);
    KeyCharacter(s, 155, COUNT_KEY, 0);
    KeyCharacter(s, 155, COUNT_KEY, 9);
    KeyCharacter(s, 155, MD5_KEY, 0);
    KeyCharacter(s, 155, SKIP_KEY, 0);
    KeyCharacter(s, 155, SUPPORTED_KEY, 0);
    KeyCharacter(s, 155, UNSUPPORTED_KEY, 0);
    KeyCharacter(s, 155, SUMS_KEY, 9);
    StrtolTwoDigits("20");
  }

  lemma {:induction false} ScanCount(s: string, found: Found, values: Values)
    requires |s| == FIELD_SIZE && found == Found(true, true, true, true, false) && Has(s, 155, CountEntry())
    ensures ScanFrom(s, 155, found, values) == Parsed(values.(fragmentcount := FRAGMENT_COUNT))
  {
    hide Recognise;
    assert CountEntry() == COUNT_KEY + "20" + ";";
    HasPart(s, 155, COUNT_KEY, "20", ";");
    HasSlice(s, 172, "20");
    assert s[172 + 0] == "20"[0] && s[172 + 1] == "20"[1] && s[174 + 0] == ";"[0];
    assert SkipToSemicolon(s, 172) == 174;
    RecogniseCount(s, found, values);
  }

  /** Where the entries of a composed field stand, and that no equals sign follows the last of them. */
  ghost predicate Layout(s: string, sum: string, supported: bool, frags: string)
  {
    && |s| == FIELD_SIZE
    && Has(s, 0, SumEntry(sum)) && Has(s, 46, SkipEntry()) && Has(s, 63, StatusEntry(supported))
    && Has(s, 78, FragmentsEntry(frags)) && Has(s, 95 + |frags|, CountEntry())
    && forall k :: 115 + |frags| <= k < FIELD_SIZE ==> s[k] != '='
  }

  lemma {:induction false} HasItself(s: string)
    ensures Has(s, 0, s)
  {
  }

  lemma {:induction false} SevenParts(a: string, b: string, c: string, d: string, e: string, w: string, rest: string)
    ensures
      var s := a + b + c + d + e + w + rest;
      var n := |a + b + c + d + e|;
      && Has(s, 0, a) && Has(s, |a|, b) && Has(s, |a + b|, c) && Has(s, |a + b + c|, d)
      && Has(s, |a + b + c + d|, e) && Has(s, n, w) && Has(s, n + |w|, rest)
  {
    hide Has;
    var s := a + b + c + d + e + w + rest;
    assert Has(s, 0, s) by {
      HasItself(s);
    }
    HasSplit(s, 0, a + b + c + d + e + w, rest);
    HasSplit(s, 0, a + b + c + d + e, w);
    HasSplit(s, 0, a + b + c + d, e);
    HasSplit(s, 0, a + b + c, d);
    HasSplit(s, 0, a + b, c);
    HasSplit(s, 0, a, b);
  }

  lemma {:induction false} FieldLayout(sum: string, supported: bool, frags: string)
    requires |sum| == 32 && |frags| <= FRAGMENT_SUM_LENGTH
    ensures Layout(Terminated(Field(sum, supported, frags)), sum, supported, frags)
  {
    var rest := Spaces(FIELD_SIZE - 167 - |frags|);
    SevenParts(SumEntry(sum), SkipEntry(), StatusEntry(supported), FragmentsEntry(frags), CountEntry(), Warning(),
      rest);
    NoEqualsBehind(Field(sum, supported, frags), 115 + |frags|, Warning(), rest);
  }

  lemma {:induction false} NoEqualsBehind(field: string, at: nat, w: string, rest: string)
    requires |field| == FIELD_SIZE && at + |w| + |rest| == FIELD_SIZE
    requires Has(field, at, w) && Has(field, at + |w|, rest) && '=' !in w && rest == Spaces(|rest|)
    ensures forall k :: at <= k < FIELD_SIZE ==> Terminated(field)[k] != '='
  {
    forall k | at <= k < 511
      ensures field[k] != '='
    {
      if k < at + |w| {
        assert field[at + (k - at)] == w[k - at] && w[k - at] in w;
      } else {
        assert field[at + |w| + (k - at - |w|)] == rest[k - at - |w|];
      }
    }
  }

  /** The values recovered from a composed field. */
  ghost predicate Recovers(r: Parse, sum: string, supported: bool, frags: string)
  {
    && r.Parsed?
    && r.values.mediasum == sum && r.values.skipsectors == SKIPSECTORS && r.values.supported == supported
    && r.values.fragmentcount == (if |frags| == FRAGMENT_SUM_LENGTH then FRAGMENT_COUNT else 0)
    && (|frags| == FRAGMENT_SUM_LENGTH ==> r.values.fragmentsums == frags)
  }

  /** A full fragment string ends where the parser looks for the next entry. */
  lemma {:induction false} ScanFullTail(s: string, frags: string, values: Values)
    requires |s| == FIELD_SIZE && |frags| == FRAGMENT_SUM_LENGTH
    requires Has(s, 78, FragmentsEntry(frags)) && Has(s, 155, CountEntry())
    ensures ScanFrom(s, 78, Found(true, true, true, false, false), values)
         == Parsed(values.(fragmentsums := frags).(fragmentcount := FRAGMENT_COUNT))
  {
    HasPart(s, 78, SUMS_KEY, frags, ";");
    assert s[154 + 0] == ";"[0];
    HasSlice(s, 94, frags);
    var f, v := Found(true, true, true, true, false), values.(fragmentsums := frags);
    RecogniseSums(s, Found(true, true, true, false, false), values);
    ScanStep(s, 78, Found(true, true, true, false, false), values, 154, f, v);
    ScanOverSemicolon(s, 154, f, v);
    ScanCount(s, f, v);
  }

  /** Behind a shorter one the parser jumps over the key of the count. */
  lemma {:induction false} ShortTailSkips(s: string, frags: string)
    requires |s| == FIELD_SIZE && |frags| < FRAGMENT_SUM_LENGTH && Has(s, 95 + |frags|, CountEntry())
    requires forall k :: 115 + |frags| <= k < FIELD_SIZE ==> s[k] != '='
    ensures forall k :: SkipToSemicolon(s, 154) <= k < FIELD_SIZE ==> s[k] != '='
  {
    var at := 95 + |frags|;
    HasSplit(s, at, "FRAGMENT COUNT = 20", ";");
    assert s[at + 19 + 0] == ";"[0];
    SkipOver(s, at, 154, "FRAGMENT COUNT = 20");
  }

  /** The count is never seen and keeps its initial value. */
  lemma {:induction false} ScanShortTail(s: string, frags: string, values: Values)
    requires |s| == FIELD_SIZE && |frags| < FRAGMENT_SUM_LENGTH && Has(s, 78, FragmentsEntry(frags))
    requires forall k :: SkipToSemicolon(s, 154) <= k < FIELD_SIZE ==> s[k] != '='
    ensures ScanFrom(s, 78, Found(true, true, true, false, false), values)
         == Parsed(values.(fragmentsums := s[94..154]))
  {
    HasPart(s, 78, SUMS_KEY, frags, ";");
    var loc, f, v := SkipToSemicolon(s, 154), Found(true, true, true, true, false), values.(fragmentsums := s[94..154]);
    RecogniseSums(s, Found(true, true, true, false, false), values);
    ScanStep(s, 78, Found(true, true, true, false, false), values, loc, f, v);
    ScanWithoutEquals(s, loc, f, v);
  }

  lemma {:induction false} ScanLayout(s: string, sum: string, supported: bool, frags: string)
    requires Layout(s, sum, supported, frags) && |sum| == 32 && |frags| <= FRAGMENT_SUM_LENGTH
    ensures Recovers(ScanFrom(s, 0, NOTHING, BLANK), sum, supported, frags)
  {
    var v1 := BLANK.(mediasum := sum);
    ScanSum(s, sum, BLANK);
    var v2 := v1.(skipsectors := SKIPSECTORS);
    ScanSkip(s, NOTHING.(md5 := true), v1);
    ScanStatus(s, supported, Found(true, true, false, false, false), v2);
    if |frags| == FRAGMENT_SUM_LENGTH {
      ScanFullTail(s, frags, v2.(supported := supported));
    } else {
      ShortTailSkips(s, frags);
      ScanShortTail(s, frags, v2.(supported := supported));
    }
  }

  /** For every digest, flag and fragment string, the parser recovers what the printer was given. */
  lemma {:induction false} ParseUndoesPrint(sum: string, supported: bool, frags: string)
    requires |sum| == 32 && |frags| <= FRAGMENT_SUM_LENGTH
    ensures Recovers(ParseField(Field(sum, supported, frags)), sum, supported, frags)
  {
    FieldLayout(sum, supported, frags);
    ScanLayout(Terminated(Field(sum, supported, frags)), sum, supported, frags);
  }

  lemma {:induction false} HasInPrefix(s: string, t: string, n: nat, at: nat, part: string)
    requires n <= |s| && n <= |t| && s[..n] == t[..n] && at + |part| <= n && Has(s, at, part)
    ensures Has(t, at, part)
  {
    forall k | 0 <= k < |part|
      ensures t[at + k] == part[k]
    {
      assert s[at + k] == s[..n][at + k] == t[..n][at + k];
    }
  }

  /** With all twenty fragment sums the scan is complete behind the count: nothing that follows is looked at. */
  lemma {:induction false} RestIgnored(field: string, sum: string, supported: bool, frags: string)
    requires |field| == FIELD_SIZE && |sum| == 32 && |frags| == FRAGMENT_SUM_LENGTH
    requires field[..175] == Field(sum, supported, frags)[..175]
    ensures Recovers(ParseField(field), sum, supported, frags)
  {
    hide Has, ScanFrom, Field;
    var s, t := Terminated(Field(sum, supported, frags)), Terminated(field);
    FieldLayout(sum, supported, frags);
    assert s[..175] == Field(sum, supported, frags)[..175] && t[..175] == field[..175];
    HasInPrefix(s, t, 175, 0, SumEntry(sum));
    HasInPrefix(s, t, 175, 46, SkipEntry());
    HasInPrefix(s, t, 175, 63, StatusEntry(supported));
    HasInPrefix(s, t, 175, 78, FragmentsEntry(frags));
    HasInPrefix(s, t, 175, 155, CountEntry());
    var v1 := BLANK.(mediasum := sum);
    ScanSum(t, sum, BLANK);
    var v2 := v1.(skipsectors := SKIPSECTORS);
    ScanSkip(t, NOTHING.(md5 := true), v1);
    ScanStatus(t, supported, Found(true, true, false, false, false), v2);
    ScanFullTail(t, frags, v2.(supported := supported));
  }

  /** Nineteen fragment sums of twenty: the count that was printed is not found again. */
  lemma {:induction false} CountLost(sum: string, supported: bool, frags: string)
    requires |sum| == 32 && |frags| == 57
    ensures
      var r := ParseField(Field(sum, supported, frags));
      r.Parsed? && r.values.fragmentcount == 0 && Has(Field(sum, supported, frags), 152, CountEntry())
  {
    hide ScanFrom, FieldText;
    ParseUndoesPrint(sum, supported, frags);
    CountPrinted(sum, supported, frags);
  }

  lemma {:induction false} CountPrinted(sum: string, supported: bool, frags: string)
    requires |sum| == 32 && |frags| <= FRAGMENT_SUM_LENGTH
    ensures Has(Field(sum, supported, frags), 95 + |frags|, CountEntry())
  {
    SevenParts(SumEntry(sum), SkipEntry(), StatusEntry(supported), FragmentsEntry(frags), CountEntry(), Warning(),
               Spaces(FIELD_SIZE - 167 - |frags|));
  }
}
