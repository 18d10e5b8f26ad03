/** The newc archive reader of uncpio.c. */
module Cpio {
  import opened Words

  const CPIOERR_BAD_MAGIC := 2
  const CPIOERR_BAD_HEADER := 3
  const CPIOERR_READ_FAILED := 18 - 0x8000_0000

  const HEADER_SIZE := 110
  const NAMESIZE := 11
  const FILESIZE := 6

  // ---------- numeric fields ----------

  predicate IsHex(b: byte) {
    48 <= b <= 57 || 65 <= b <= 70 || 97 <= b <= 102
  }

  function HexOf(b: byte): (n: nat)
    requires IsHex(b)
    ensures n < 16
  {
    if b <= 57 then b - 48 else if b <= 70 then b - 55 else b - 87
  }

  function CutAtNul(b: seq<byte>): (t: seq<byte>)
    ensures |t| <= |b| && t == b[..|t|] && 0 !in t && (|t| < |b| ==> b[|t|] == 0)
  {
    if b == [] || b[0] == 0 then [] else [b[0]] + CutAtNul(b[1..])
  }

  function AfterSpaces(b: seq<byte>): (t: seq<byte>) {
    if b != [] && (b[0] == 32 || 9 <= b[0] <= 13) then AfterSpaces(b[1..]) else b
  }

  /** The value of the leading hexadecimal digits and what follows them. */
  function HexPrefix(b: seq<byte>, sofar: nat): (r: (nat, seq<byte>)) {
    if b == [] || !IsHex(b[0]) then (sofar, b) else HexPrefix(b[1..], 16 * sofar + HexOf(b[0]))
  }

  /** strtoul in base 16 over one field, narrowed to int; None when characters are left over. */
  function Number(field: seq<byte>): (r: Option<int>)
  {
    var s := CutAtNul(field);
    var t := AfterSpaces(s);
    var negative := t != [] && t[0] == 45;
    var u := if t != [] && (t[0] == 43 || t[0] == 45) then t[1..] else t;
    var v := if |u| > 2 && u[0] == 48 && (u[1] == 120 || u[1] == 88) && IsHex(u[2]) then u[2..] else u;
    if v == [] || !IsHex(v[0]) then
      if s == [] then Some(0) else None
    else
      var (n, rest) := HexPrefix(v, 0);
      if rest != [] then None else Some(Signed32(if negative then 0 - n else n))
  }

  /** The number that hexadecimal digits spell, the last one counting once and each one before it sixteen times more. */
  function HexValue(d: seq<byte>): (n: nat)
    requires forall i :: 0 <= i < |d| ==> IsHex(d[i])
  {
    if d == [] then 0 else 16 * HexValue(d[..|d| - 1]) + HexOf(d[|d| - 1])
  }

  ghost predicate AllHex(d: seq<byte>) {
    forall i :: 0 <= i < |d| ==> IsHex(d[i])
  }

  lemma {:induction false} HexPrefixReads(p: seq<byte>, d: seq<byte>, rest: seq<byte>)
    requires AllHex(p) && AllHex(d) && (rest == [] || !IsHex(rest[0]))
    ensures AllHex(p + d) && HexPrefix(d + rest, HexValue(p)) == (HexValue(p + d), rest)
    decreases |d|
  {
    if d == [] {
      assert d + rest == rest && p + d == p;
    } else {
      var p' := p + [d[0]];
      assert p'[..|p|] == p;
      assert p' + d[1..] == p + d;
      HexPrefixReads(p', d[1..], rest);
      assert (d + rest)[1..] == d[1..] + rest;
    }
  }

  lemma {:induction false} CutBehind(b: seq<byte>, rest: seq<byte>)
    requires 0 !in b
    ensures CutAtNul(b + rest) == b + CutAtNul(rest)
  {
    if b == [] {
      assert b + rest == rest;
    } else {
      assert b[0] in b;
      assert (b + rest)[1..] == b[1..] + rest;
      CutBehind(b[1..], rest);
    }
  }

  /** A terminator, or the end, cuts exactly there. */
  lemma {:induction false} CutAt(b: seq<byte>, rest: seq<byte>)
    requires 0 !in b && (rest == [] || rest[0] == 0)
    ensures CutAtNul(b + rest) == b
  {
    CutBehind(b, rest);
  }

  lemma {:induction false} SpacesSkipped(sp: seq<byte>, t: seq<byte>)
    requires forall i :: 0 <= i < |sp| ==> sp[i] == 32 || 9 <= sp[i] <= 13
    requires t != [] && t[0] != 32 && !(9 <= t[0] <= 13)
    ensures AfterSpaces(sp + t) == t
  {
    if sp == [] {
      assert sp + t == t;
    } else {
      assert (sp + t)[1..] == sp[1..] + t;
      SpacesSkipped(sp[1..], t);
    }
  }

  /** The parts of a field: white space, a sign, digits and what follows them. */
  ghost predicate Spelled(sp: seq<byte>, sign: seq<byte>, d: seq<byte>) {
    && (forall i :: 0 <= i < |sp| ==> sp[i] == 32 || 9 <= sp[i] <= 13)
    && (sign == [] || sign == [43] || sign == [45]) && d != [] && AllHex(d)
  }

  lemma {:induction false} NumberOf(s: seq<byte>, sp: seq<byte>, sign: seq<byte>, d: seq<byte>, junk: seq<byte>)
    requires Spelled(sp, sign, d) && CutAtNul(s) == sp + (sign + (d + junk))
    requires junk == [] || (!IsHex(junk[0]) && junk[0] != 120 && junk[0] != 88)
    ensures Number(s)
         == if junk != [] then None else Some(Signed32(if sign == [45] then 0 - HexValue(d) else HexValue(d)))
  {
    hide CutAtNul, HexPrefix, HexValue, Signed32;
    var u := d + junk;
    var t := sign + u;
    SpacesSkipped(sp, t);
    assert t[|sign|..] == u && u[0] == d[0];
    assert |u| > 2 ==> u[1] != 120 && u[1] != 88;
    NoDigits();
    HexPrefixReads([], d, junk);
    assert [] + d == d;
  }

  lemma {:induction false} NoDigits()
    ensures HexValue([]) == 0
  {
  }

  /** Behind white space and a sign, digits up to the end or a terminator are read as the number they spell. */
  lemma {:induction false} NumberReads(sp: seq<byte>, sign: seq<byte>, d: seq<byte>, rest: seq<byte>)
    requires Spelled(sp, sign, d) && (rest == [] || rest[0] == 0)
    ensures Number(sp + sign + d + rest) == Some(Signed32(if sign == [45] then 0 - HexValue(d) else HexValue(d)))
  {
    hide CutAtNul, Number, HexValue, Signed32;
    var s := sp + sign + d;
    CutAt(s, rest);
    assert s == sp + (sign + (d + []));
    NumberOf(s + rest, sp, sign, d, []);
  }

  /** Digits with anything else behind them are refused. */
  lemma {:induction false} NumberRefuses(sp: seq<byte>, sign: seq<byte>, d: seq<byte>, junk: seq<byte>)
    requires Spelled(sp, sign, d) && junk != [] && !IsHex(junk[0]) && junk[0] != 0 && junk[0] != 120 && junk[0] != 88
    ensures Number(sp + sign + d + junk) == None
  {
    hide Number, HexValue, Signed32;
    var s, j := sp + sign + d, CutAtNul(junk);
    CutBehind(s, junk);
    assert s + j == sp + (sign + (d + j));
    NumberOf(s + junk, sp, sign, d, j);
  }

  /** The code of a digit: '0' to '9', and 'a' to 'f' or 'A' to 'F' from ten on. */
  predicate Spells(b: byte, d: nat) {
    if d < 10 then b == 48 + d else d < 16 && (b == 87 + d || b == 55 + d)
  }

  /** Eight digits of either case fill a field: the number they stand for, as an int. */
  lemma {:induction false} NumberOfEight(f: seq<byte>, d: seq<nat>)
    requires |f| == |d| == 8 && forall i :: 0 <= i < 8 ==> Spells(f[i], d[i])
    ensures Number(f)
         == Some(Signed32(0x1000_0000 * d[0] + 0x100_0000 * d[1] + 0x10_0000 * d[2] + 0x1_0000 * d[3]
                          + 0x1000 * d[4] + 0x100 * d[5] + 0x10 * d[6] + d[7]))
  {
    hide Number, Signed32, HexValue, IsHex, HexOf, Spells;
    forall i | 0 <= i < 8
      ensures IsHex(f[i]) && HexOf(f[i]) == d[i]
    {
      SpellsDigit(f[i], d[i]);
    }
    assert [] + [] + f + [] == f;
    NumberReads([], [], f, []);
    EightDigits(f);
  }

  lemma {:induction false} SpellsDigit(b: byte, d: nat)
    requires Spells(b, d)
    ensures IsHex(b) && HexOf(b) == d
  {
  }

  lemma {:induction false} EightDigits(f: seq<byte>)
    requires |f| == 8 && AllHex(f)
    ensures HexValue(f)
         == 0x1000_0000 * HexOf(f[0]) + 0x100_0000 * HexOf(f[1]) + 0x10_0000 * HexOf(f[2]) + 0x1_0000 * HexOf(f[3])
            + 0x1000 * HexOf(f[4]) + 0x100 * HexOf(f[5]) + 0x10 * HexOf(f[6]) + HexOf(f[7])
  {
    hide HexValue, IsHex, HexOf;
    NoDigits();
    OneMore(f, 0);
    OneMore(f, 1);
    OneMore(f, 2);
    OneMore(f, 3);
    OneMore(f, 4);
    OneMore(f, 5);
    OneMore(f, 6);
    OneMore(f, 7);
    assert f[..0] == [] && f[..8] == f;
  }

  lemma {:induction false} OneMore(f: seq<byte>, k: nat)
    requires AllHex(f) && k < |f|
    ensures HexValue(f[..k + 1]) == 16 * HexValue(f[..k]) + HexOf(f[k])
  {
    assert f[..k + 1][..k] == f[..k];
  }

  // ---------- headers ----------

  type RawHeader = h: seq<byte> | |h| == HEADER_SIZE witness seq(HEADER_SIZE, i => 48)

  const NEWC_MAGIC: seq<byte> := [48, 55, 48, 55, 48, 49]
  const CRC_MAGIC: seq<byte> := [48, 55, 48, 55, 48, 50]

  /** The k-th of the twelve fields that are parsed; the checksum behind them is ignored. */
  function NumericField(h: RawHeader, k: nat): (r: Option<int>)
    requires k < 12
  {
    Number(h[6 + 8 * k..14 + 8 * k])
  }

  predicate HeaderReadable(h: RawHeader) {
    (h[..6] == NEWC_MAGIC || h[..6] == CRC_MAGIC) && forall k :: 0 <= k < 12 ==> NumericField(h, k).Some?
  }

  /** A size field is widened from int to an unsigned 64-bit number. */
  function Widened(n: int): (r: nat)
    requires -0x8000_0000 <= n < 0x8000_0000
  {
    if n >= 0 then n else n + TWO_TO_THE_64
  }

  function NameSize(h: RawHeader): (n: int)
    requires HeaderReadable(h)
  {
    NumericField(h, NAMESIZE).value
  }

  function DataSize(h: RawHeader): (n: nat)
    requires HeaderReadable(h)
  {
    Widened(Signed32(NumericField(h, FILESIZE).value))
  }

  /** The path is the name up to its terminator. */
  function Path(name: seq<byte>): (p: seq<byte>) {
    CutAtNul(name)
  }

  const TRAILER: seq<byte> := [84, 82, 65, 73, 76, 69, 82, 33, 33, 33]

  // ---------- printing a header ----------

  function Pow16(k: nat): (p: nat) {
    if k == 0 then 1 else 16 * Pow16(k - 1)
  }

  /** Conversion %0kx. */
  function Printed(n: nat, k: nat): (d: seq<byte>)
    ensures |d| == k
  {
    if k == 0 then [] else Printed(n / 16, k - 1) + [if n % 16 < 10 then 48 + n % 16 else 87 + n % 16]
  }

  lemma {:induction false} PrintedValue(n: nat, k: nat)
    requires n < Pow16(k)
    ensures AllHex(Printed(n, k)) && HexValue(Printed(n, k)) == n
  {
    if k > 0 {
      PrintedValue(n / 16, k - 1);
      var d := Printed(n, k);
      assert d[..k - 1] == Printed(n / 16, k - 1);
    }
  }

  /** A field of eight digits gives back the number printed into it, as an int. */
  lemma {:induction false} PrintedField(n: nat)
    requires n < TWO_TO_THE_32
    ensures Number(Printed(n, 8)) == Some(Signed32(n))
  {
    hide Number, Signed32, Printed, HexValue;
    assert Pow16(4) == 0x1_0000;
    assert Pow16(8) == 0x1_0000_0000;
    PrintedValue(n, 8);
    assert [] + [] + Printed(n, 8) + [] == Printed(n, 8);
    NumberReads([], [], Printed(n, 8), []);
  }

  /** Numbers in columns of eight digits. */
  function Columns(fields: seq<nat>): (b: seq<byte>)
    ensures |b| == 8 * |fields|
  {
    if fields == [] then [] else Columns(fields[..|fields| - 1]) + Printed(fields[|fields| - 1], 8)
  }

  lemma {:induction false} ColumnAt(fields: seq<nat>, k: nat)
    requires k < |fields|
    ensures Columns(fields)[8 * k..8 * k + 8] == Printed(fields[k], 8)
  {
    hide Printed;
    var last := |fields| - 1;
    if k < last {
      ColumnAt(fields[..last], k);
      assert Columns(fields)[8 * k..8 * k + 8] == Columns(fields[..last])[8 * k..8 * k + 8];
    } else {
      assert Columns(fields)[8 * last..8 * last + 8] == Printed(fields[last], 8);
    }
  }

  /** A header as archivers write it: the magic, twelve fields and a checksum of zero. */
  function HeaderOf(fields: seq<nat>): (h: RawHeader)
    requires |fields| == 12
  {
    [48, 55, 48, 55, 48, 49] + Columns(fields) + Printed(0, 8)
  }

  /** Every field of a header is read back from its place. */
  lemma {:induction false} HeaderReadBack(fields: seq<nat>)
    requires |fields| == 12 && forall k :: 0 <= k < 12 ==> fields[k] < TWO_TO_THE_32
    ensures HeaderReadable(HeaderOf(fields))
    ensures forall k :: 0 <= k < 12 ==> NumericField(HeaderOf(fields), k) == Some(Signed32(fields[k]))
    ensures NameSize(HeaderOf(fields)) == fields[11] as int - if fields[11] < 0x8000_0000 then 0 else 0x1_0000_0000
    ensures DataSize(HeaderOf(fields)) == fields[6] + if fields[6] < 0x8000_0000 then 0 else 0xffff_ffff_0000_0000
  {
    hide Number, Printed, Columns;
    var h := HeaderOf(fields);
    assert h[..6] == NEWC_MAGIC;
    forall k | 0 <= k < 12
      ensures NumericField(h, k) == Some(Signed32(fields[k]))
    {
      assert h[6 + 8 * k..14 + 8 * k] == Columns(fields)[8 * k..8 * k + 8];
      ColumnAt(fields, k);
      PrintedField(fields[k]);
    }
  }

  /** The two magic numbers, "070701" and "070702", and no other. */
  lemma {:induction false} MagicNumbers(h: RawHeader)
    ensures HeaderReadable(h) ==> h[..5] == [48, 55, 48, 55, 48] && (h[5] == 49 || h[5] == 50)
    ensures
      var other := [48, 55, 48, 55, 48, if h[5] == 49 then 50 else 49] + h[6..];
      HeaderReadable(h) ==> HeaderReadable(other)
  {
    hide Number;
    if HeaderReadable(h) {
      assert h[..5] == h[..6][..5] && h[5] == h[..6][5];
      var other := [48, 55, 48, 55, 48, if h[5] == 49 then 50 else 49] + h[6..];
      assert other[..6] == [48, 55, 48, 55, 48, if h[5] == 49 then 50 else 49];
      forall k | 0 <= k < 12
        ensures NumericField(other, k) == NumericField(h, k)
      {
        assert other[6 + 8 * k..14 + 8 * k] == h[6 + 8 * k..14 + 8 * k];
      }
    }
  }

  /** The name that ends an archive. */
  lemma {:induction false} TrailerName()
    ensures |TRAILER| == 10 && forall i :: 0 <= i < 10 ==> TRAILER[i] as char == "TRAILER!!!"[i]
  {
  }

  // ---------- the parts of a stream ----------

  lemma {:induction false} PaddingTo4(pos: nat)
    ensures (pos + (4 - pos % 4) % 4) % 4 == 0
  {
    var q, r := pos / 4, pos % 4;
    assert pos == 4 * q + r;
    if r != 0 {
      assert pos + (4 - r) == 4 * (q + 1);
    }
  }

  lemma {:induction false} PaddingTo512(pos: nat)
    ensures (pos + (512 - pos % 512) % 512) % 512 == 0
  {
    var q, r := pos / 512, pos % 512;
    assert pos == 512 * q + r;
    if r != 0 {
      assert pos + (512 - r) == 512 * (q + 1);
    }
  }

  /** The bytes that complete a position to a multiple; only 4 and 512 are used. */
  function Padding(pos: nat, modulo: nat): (n: nat)
    requires modulo == 4 || modulo == 512
    ensures n < modulo && (pos + n) % modulo == 0
  {
    PaddingTo4(pos);
    PaddingTo512(pos);
    if modulo == 4 then (4 - pos % 4) % 4 else (512 - pos % 512) % 512
  }

  /** Reading stops at the end of the stream. */
  function Capped(pos: nat, data: seq<byte>): (p: nat) {
    if pos <= |data| then pos else |data|
  }

  /** The position after padding on input. */
  function PaddedIn(pos: nat, data: seq<byte>): (p: nat)
    requires pos <= |data|
    ensures pos <= p <= |data|
  {
    Capped(pos + Padding(pos, 4), data)
  }

  datatype Header = Header(raw: RawHeader, name: seq<byte>, next: nat)

  /** getNextHeader: the header and name at a position, and where the data starts. */
  function HeaderAt(data: seq<byte>, pos: nat): (r: Option<Header>)
    requires pos <= |data|
    ensures r.Some? ==> HeaderReadable(r.value.raw) && pos + HEADER_SIZE <= r.value.next <= |data|
  {
    if pos + HEADER_SIZE > |data| then None
    else
      var raw := data[pos..pos + HEADER_SIZE];
      if !HeaderReadable(raw) then None
      else
        var n := NameSize(raw);
        if n < 0 || pos + HEADER_SIZE + n > |data| then None
        else
          var end := pos + HEADER_SIZE + n;
          Some(Header(raw, data[pos + HEADER_SIZE..end], PaddedIn(end, data)))
  }

  /** A header whose name would have a negative length, for which no memory of the right size can be had. */
  predicate NegativeName(data: seq<byte>, pos: nat) {
    pos + HEADER_SIZE <= |data| && HeaderReadable(data[pos..pos + HEADER_SIZE])
    && NameSize(data[pos..pos + HEADER_SIZE]) < 0
  }

  // ---------- what an archive means ----------

  datatype Entry = Entry(raw: RawHeader, name: seq<byte>, data: seq<byte>)

  /** The entries of the archive at a position, up to its trailer; None if it is cut short or unreadable. */
  function EntriesFrom(data: seq<byte>, pos: nat): (r: Option<seq<Entry>>)
    requires pos <= |data|
    decreases |data| - pos
  {
    match HeaderAt(data, pos)
    case None => None
    case Some(h) =>
      if Path(h.name) == TRAILER then Some([])
      else
        var end := h.next + DataSize(h.raw);
        if end > |data| then None
        else
          match EntriesFrom(data, PaddedIn(end, data))
          case None => None
          case Some(rest) => Some([Entry(h.raw, h.name, data[h.next..end])] + rest)
  }

  /** The same header under the magic number that the filter writes. */
  function Normalised(h: RawHeader): (n: RawHeader) {
    NEWC_MAGIC + h[6..]
  }

  function NormalisedEntry(e: Entry): (n: Entry) {
    e.(raw := Normalised(e.raw))
  }

  /** The entries whose path matches one of the patterns, in their order. */
  function Selected(es: seq<Entry>, wanted: seq<byte> -> bool): (r: seq<Entry>)
  {
    if es == [] then []
    else if wanted(Path(es[0].name)) then [NormalisedEntry(es[0])] + Selected(es[1..], wanted)
    else Selected(es[1..], wanted)
  }

  // ---------- the stream ----------

  /** An input stream that keeps its own position, to allow padding. */
  class InFd {
    const data: seq<byte>
    var pos: nat

    ghost predicate Valid()
      reads this
    {
      pos <= |data|
    }

    constructor (data: seq<byte>)
      ensures Valid() && this.data == data && pos == 0
    {
      this.data := data;
      pos := 0;
    }

    /** ourread: fewer bytes come back only at the end of the stream. */
    method Read(size: nat) returns (b: seq<byte>)
      requires Valid()
      modifies this
      ensures Valid() && pos == Capped(old(pos) + size, data) && b == data[old(pos)..pos]
    {
      var end := Capped(pos + size, data);
      b := data[pos..end];
      pos := end;
    }

    /** padinfd with modulo 4. */
    method PadIn()
      requires Valid()
      modifies this
      ensures Valid() && pos == PaddedIn(old(pos), data)
    {
      var amount := Padding(pos, 4);
      var _ := Read(amount);
    }

    /** eatBytes: skips in bites of 4096 and gives up at the end of the stream. */
    method EatBytes(size: nat) returns (ok: bool)
      requires Valid()
      modifies this
      ensures Valid() && pos == Capped(old(pos) + size, data) && ok == (old(pos) + size <= |data|)
    {
      var amount := size;
      while amount > 0
        invariant Valid() && 0 <= amount <= size && pos == old(pos) + (size - amount)
      {
        var bite := if amount > 4096 then 4096 else amount;
        var b := Read(bite);
        if |b| != bite {
          return false;
        }
        amount := amount - bite;
      }
      ok := true;
    }

    /** getNextHeader. */
    method GetNextHeader() returns (defined: bool, rc: int, r: Option<Header>)
      requires Valid()
      modifies this
      ensures Valid() && r == HeaderAt(data, old(pos)) && (r.Some? ==> pos == r.value.next)
      ensures defined == !NegativeName(data, old(pos))
      ensures defined && r.Some? ==> rc == 0
    ensures defined && r.None? ==>
      rc == if old(pos) + 110 > |data| then 18 - 0x8000_0000
            else if data[old(pos)..old(pos) + 6] == [48, 55, 48, 55, 48, 49]
              || data[old(pos)..old(pos) + 6] == [48, 55, 48, 55, 48, 50] then 3 else 2
    {
      hide Number, CutAtNul;
      var raw := Read(HEADER_SIZE);
      if |raw| != HEADER_SIZE {
        return true, CPIOERR_READ_FAILED, None;
      }
      assert raw[..6] == data[old(pos)..old(pos) + 6];
      if raw[..6] != NEWC_MAGIC && raw[..6] != CRC_MAGIC {
        return true, CPIOERR_BAD_MAGIC, None;
      }
      if !HeaderReadable(raw) {
        return true, CPIOERR_BAD_HEADER, None;
      }
      var nameSize := NameSize(raw);
      if nameSize < 0 {
        return false, CPIOERR_BAD_HEADER, None;
      }
      var name := Read(nameSize);
      if |name| != nameSize {
        return true, CPIOERR_BAD_HEADER, None;
      }
      PadIn();
      defined, rc, r := true, 0, Some(Header(raw, name, pos));
    }
  }
}
