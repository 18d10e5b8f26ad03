/** myCpioFilterArchive: a subset of an archive, re-emitted as an archive. */
module CpioFilter {
  import opened Words
  import opened Cpio

  // ---------- what is written ----------

  /** A header, the path with its terminator, and padding to a multiple of four. */
  function EmittedHead(raw: RawHeader, path: seq<byte>): (b: seq<byte>)
    ensures |b| % 4 == 0 && |b| == HEADER_SIZE + |path| + 1 + Padding(HEADER_SIZE + |path| + 1, 4)
  {
    raw + path + [0] + Zeros(Padding(HEADER_SIZE + |path| + 1, 4))
  }

  function EmittedData(data: seq<byte>): (b: seq<byte>)
    ensures |b| % 4 == 0 && |b| == |data| + Padding(|data|, 4)
  {
    data + Zeros(Padding(|data|, 4))
  }

  function Emitted(e: Entry): (b: seq<byte>) {
    EmittedHead(e.raw, Path(e.name)) + EmittedData(e.data)
  }

  function Body(es: seq<Entry>): (b: seq<byte>)
  {
    if es == [] then [] else Body(es[..|es| - 1]) + Emitted(es[|es| - 1])
  }

  function Digits(n: nat): (d: seq<byte>)
    ensures |d| == n
  {
    seq(n, i => 48)
  }

  /** All fields zero but the link count and the length of the name. */
  function TrailerHeader(): (h: RawHeader) {
    NEWC_MAGIC + Digits(32) + (Digits(7) + [49]) + Digits(48) + (Digits(7) + [98]) + Digits(8)
  }

  function TrailerBlock(): (b: seq<byte>) {
    EmittedHead(TrailerHeader(), TRAILER)
  }

  /** The filtered archive, filled up to a multiple of 512. */
  function Archive(es: seq<Entry>): (b: seq<byte>)
    ensures |b| % 512 == 0
  {
    var b := Body(es) + TrailerBlock();
    b + Zeros(Padding(|b|, 512))
  }

  // ---------- reading it back ----------

  /** `piece` stands at `at` in `data`. */
  ghost predicate At(data: seq<byte>, at: nat, piece: seq<byte>)
  {
    at + |piece| <= |data| && forall k :: 0 <= k < |piece| ==> data[at + k] == piece[k]
  }

  lemma {:induction false} AtSlice(data: seq<byte>, at: nat, piece: seq<byte>)
    requires At(data, at, piece)
    ensures data[at..at + |piece|] == piece
  {
  }

  lemma {:induction false} AtSplit(data: seq<byte>, at: nat, a: seq<byte>, b: seq<byte>)
    requires At(data, at, a + b)
    ensures At(data, at, a) && At(data, at + |a|, b)
  {
    forall k | 0 <= k < |a|
      ensures data[at + k] == a[k]
    {
      assert a[k] == (a + b)[k];
    }
    forall k | 0 <= k < |b|
      ensures data[at + |a| + k] == b[k]
    {
      assert b[k] == (a + b)[|a| + k];
    }
  }

  /** An entry as a well-formed archive holds it: the sizes in its header are those of its parts. */
  ghost predicate WellFormed(e: Entry)
  {
    && HeaderReadable(e.raw) && NameSize(e.raw) == |e.name| && DataSize(e.raw) == |e.data|
    && e.name == Path(e.name) + [0] && Path(e.name) != TRAILER
  }

  lemma {:induction false} NormalisedReadable(h: RawHeader)
    requires HeaderReadable(h)
    ensures HeaderReadable(Normalised(h))
    ensures NameSize(Normalised(h)) == NameSize(h) && DataSize(Normalised(h)) == DataSize(h)
  {
    hide Number;
    forall k | 0 <= k < 12
      ensures NumericField(Normalised(h), k) == NumericField(h, k)
    {
      assert Normalised(h)[6 + 8 * k..14 + 8 * k] == h[6 + 8 * k..14 + 8 * k];
    }
    assert Normalised(h)[..6] == NEWC_MAGIC;
  }

  lemma {:induction false} PaddingShift(pos: nat, n: nat)
    requires pos % 4 == 0
    ensures Padding(pos + n, 4) == Padding(n, 4) && (pos + n + Padding(n, 4)) % 4 == 0
  {
  }

  /** Input padding skips exactly the padding that was written. */
  lemma {:induction false} PaddingReadBack(data: seq<byte>, pos: nat, n: nat)
    requires pos % 4 == 0 && pos + n + Padding(n, 4) <= |data|
    ensures PaddedIn(pos + n, data) == pos + n + Padding(n, 4)
  {
    hide Padding;
    PaddingShift(pos, n);
  }

  /** A head written at a multiple of four is read back as it was written. */
  lemma {:induction false} HeadReadBack(data: seq<byte>, pos: nat, raw: RawHeader, name: seq<byte>)
    requires pos % 4 == 0 && HeaderReadable(raw) && NameSize(raw) == |name| && name == Path(name) + [0]
    requires At(data, pos, EmittedHead(raw, Path(name)))
    ensures HeaderAt(data, pos) == Some(Header(raw, name, pos + |EmittedHead(raw, Path(name))|))
  {
    hide HeaderReadable, NameSize, CutAtNul, Padding;
    var path := Path(name);
    AtSplit(data, pos, raw + path + [0], Zeros(Padding(HEADER_SIZE + |path| + 1, 4)));
    assert raw + path + [0] == raw + name;
    AtSplit(data, pos, raw, name);
    AtSlice(data, pos, raw);
    AtSlice(data, pos + HEADER_SIZE, name);
    PaddingReadBack(data, pos, HEADER_SIZE + |name|);
  }

  /** An emitted entry is read back as that entry, and the reader goes on right behind it. */
  lemma {:induction false} EntryReadBack(data: seq<byte>, pos: nat, e: Entry)
    requires pos % 4 == 0 && WellFormed(e) && At(data, pos, Emitted(e))
    ensures pos + |Emitted(e)| <= |data| && (pos + |Emitted(e)|) % 4 == 0
    ensures EntriesFrom(data, pos)
         == match EntriesFrom(data, pos + |Emitted(e)|)
            case None => None
            case Some(rest) => Some([e] + rest)
  {
    hide HeaderReadable, NameSize, DataSize, CutAtNul, HeaderAt, EmittedHead, Padding, PaddedIn;
    var head := EmittedHead(e.raw, Path(e.name));
    AtSplit(data, pos, head, EmittedData(e.data));
    HeadReadBack(data, pos, e.raw, e.name);
    var at := pos + |head|;
    AtSplit(data, at, e.data, Zeros(Padding(|e.data|, 4)));
    AtSlice(data, at, e.data);
    PaddingShift(pos, |head|);
    PaddingShift(at, |e.data|);
    PaddingReadBack(data, at, |e.data|);
  }

  lemma {:induction false} BodyFirst(es: seq<Entry>)
    requires es != []
    ensures Body(es) == Emitted(es[0]) + Body(es[1..])
  {
    hide Emitted;
    var last := |es| - 1;
    if last > 0 {
      BodyFirst(es[..last]);
      assert es[..last][1..] == es[1..][..last - 1];
      assert es[1..][last - 1] == es[last];
      assert Emitted(es[0]) + Body(es[1..][..last - 1]) + Emitted(es[last])
          == Emitted(es[0]) + (Body(es[1..][..last - 1]) + Emitted(es[last]));
    } else {
      assert es[..last] == [] && es[1..] == [];
    }
  }

  /** All entries of a body are read back, up to the trailer behind it. */
  lemma {:induction false} BodyReadBack(data: seq<byte>, pos: nat, es: seq<Entry>)
    requires pos % 4 == 0 && (forall i :: 0 <= i < |es| ==> WellFormed(es[i]))
    requires At(data, pos, Body(es) + TrailerBlock())
    ensures EntriesFrom(data, pos) == Some(es)
    decreases |es|
  {
    hide Emitted, WellFormed, TrailerBlock, EntriesFrom, At;
    if es == [] {
      assert Body(es) + TrailerBlock() == TrailerBlock();
      TrailerReadBack(data, pos);
    } else {
      BodyFirst(es);
      var rest := Body(es[1..]) + TrailerBlock();
      assert Body(es) + TrailerBlock() == Emitted(es[0]) + rest;
      AtSplit(data, pos, Emitted(es[0]), rest);
      EntryReadBack(data, pos, es[0]);
      BodyReadBack(data, pos + |Emitted(es[0])|, es[1..]);
      assert es == [es[0]] + es[1..];
    }
  }

  lemma {:induction false} TrailerFields()
    ensures HeaderReadable(TrailerHeader()) && NameSize(TrailerHeader()) == 11
  {
    hide Number;
    var h := TrailerHeader();
    assert h[..6] == NEWC_MAGIC;
    forall k | 0 <= k < 12
      ensures NumericField(h, k) == Some(if k == 4 then 1 else if k == 11 then 11 else 0)
    {
      var f := h[6 + 8 * k..14 + 8 * k];
      assert forall i :: 0 <= i < 7 ==> f[i] == 48;
      assert f[7] == if k == 4 then 49 else if k == 11 then 98 else 48;
      NumberOfEight(f, [0, 0, 0, 0, 0, 0, 0, if k == 4 then 1 else if k == 11 then 11 else 0]);
    }
  }

  lemma {:induction false} TrailerReadBack(data: seq<byte>, pos: nat)
    requires pos % 4 == 0 && At(data, pos, TrailerBlock())
    ensures EntriesFrom(data, pos) == Some([])
  {
    hide HeaderReadable, NameSize, TrailerHeader, EmittedHead;
    TrailerFields();
    var name := TRAILER + [0];
    CutTrailer();
    HeadReadBack(data, pos, TrailerHeader(), name);
  }

  lemma {:induction false} CutTrailer()
    ensures Path(TRAILER + [0]) == TRAILER
  {
    CutAt(TRAILER, [0]);
  }

  // ---------- filtering preserves meaning ----------

  /** Entries read from an archive carry readable headers with the right sizes. */
  ghost predicate Parsed(e: Entry)
  {
    && HeaderReadable(e.raw) && NameSize(e.raw) == |e.name| && DataSize(e.raw) == |e.data| && Path(e.name) != TRAILER
  }

  lemma {:induction false} EntriesParsed(data: seq<byte>, pos: nat)
    requires pos <= |data| && EntriesFrom(data, pos).Some?
    ensures forall i :: 0 <= i < |EntriesFrom(data, pos).value| ==> Parsed(EntriesFrom(data, pos).value[i])
    decreases |data| - pos
  {
    hide HeaderReadable, NameSize, DataSize, CutAtNul;
    var h := HeaderAt(data, pos).value;
    if Path(h.name) != TRAILER {
      var end := h.next + DataSize(h.raw);
      EntriesParsed(data, PaddedIn(end, data));
    }
  }

  /** The names of an archive are as long as their headers say: one byte more than the path. */
  ghost predicate NamesTerminated(es: seq<Entry>)
  {
    forall i :: 0 <= i < |es| ==> es[i].name == Path(es[i].name) + [0]
  }

  lemma {:induction false} SelectedWellFormed(es: seq<Entry>, wanted: seq<byte> -> bool)
    requires NamesTerminated(es) && (forall i :: 0 <= i < |es| ==> Parsed(es[i]))
    ensures forall i :: 0 <= i < |Selected(es, wanted)| ==> WellFormed(Selected(es, wanted)[i])
  {
    hide HeaderReadable, NameSize, DataSize, CutAtNul, Normalised;
    if es != [] {
      SelectedWellFormed(es[1..], wanted);
      NormalisedReadable(es[0].raw);
    }
  }

  /**
   * For every archive with terminated names, parsing the filter's output gives exactly the wanted entries, in order,
   * with their headers (under the newc magic), names and data.
   */
  lemma {:induction false} FilterPreservesMeaning(data: seq<byte>, wanted: seq<byte> -> bool)
    requires EntriesFrom(data, 0).Some? && NamesTerminated(EntriesFrom(data, 0).value)
    ensures
      var es := Selected(EntriesFrom(data, 0).value, wanted);
      EntriesFrom(Archive(es), 0) == Some(es) && |Archive(es)| % 512 == 0
  {
    hide EntriesFrom, Body, TrailerBlock, WellFormed, Parsed, Selected;
    var es := EntriesFrom(data, 0).value;
    EntriesParsed(data, 0);
    SelectedWellFormed(es, wanted);
    var chosen := Selected(es, wanted);
    BodyReadBack(Archive(chosen), 0, chosen);
  }

  /** Filtering what was already filtered by the same patterns changes nothing. */
  lemma {:induction false} SelectedTwice(es: seq<Entry>, wanted: seq<byte> -> bool)
    ensures Selected(Selected(es, wanted), wanted) == Selected(es, wanted)
  {
    if es != [] {
      SelectedTwice(es[1..], wanted);
      if wanted(Path(es[0].name)) {
        var s := Selected(es, wanted);
        assert s[1..] == Selected(es[1..], wanted);
        assert Normalised(Normalised(es[0].raw)) == Normalised(es[0].raw);
      }
    }
  }

  /** The places of the entries that are kept, in order. */
  function Kept(es: seq<Entry>, wanted: seq<byte> -> bool): (ks: seq<nat>)
    ensures |ks| <= |es| && forall i :: 0 <= i < |ks| ==> ks[i] < |es|
    ensures forall i, j :: 0 <= i < j < |ks| ==> ks[i] < ks[j]
  {
    if es == [] then []
    else
      var last := |es| - 1;
      Kept(es[..last], wanted) + if wanted(Path(es[last].name)) then [last] else []
  }

  /** Every wanted entry is kept and no other. */
  lemma {:induction false} KeptExactly(es: seq<Entry>, wanted: seq<byte> -> bool)
    ensures forall k :: k in Kept(es, wanted) <==> 0 <= k < |es| && wanted(Path(es[k].name))
  {
    if es != [] {
      KeptExactly(es[..|es| - 1], wanted);
    }
  }

  /** What is selected are the kept entries, with their names, their data and all of their headers but the magic. */
  lemma {:induction false} SelectedIsKept(es: seq<Entry>, wanted: seq<byte> -> bool)
    ensures |Selected(es, wanted)| == |Kept(es, wanted)|
    ensures
      var out, ks := Selected(es, wanted), Kept(es, wanted);
      forall i :: 0 <= i < |out| ==>
        && out[i].name == es[ks[i]].name && out[i].data == es[ks[i]].data
        && out[i].raw == [48, 55, 48, 55, 48, 49] + es[ks[i]].raw[6..]
  {
    if es != [] {
      var last := |es| - 1;
      SelectedIsKept(es[..last], wanted);
      SelectedAppend(es[..last], es[last], wanted);
      assert es == es[..last] + [es[last]];
    }
  }

  // ---------- the filter ----------

  /** Some pattern of the list matches the path. */
  function Wanted(patterns: seq<string>, fnmatch: (string, seq<byte>) -> bool): (w: seq<byte> -> bool)
  {
    path => exists i :: 0 <= i < |patterns| && fnmatch(patterns[i], path)
  }

  lemma {:induction false} WantedMeans(patterns: seq<string>, fnmatch: (string, seq<byte>) -> bool, path: seq<byte>)
    ensures Wanted(patterns, fnmatch)(path) <==> exists i :: 0 <= i < |patterns| && fnmatch(patterns[i], path)
  {
  }

  /** The loop over the patterns, which stops at the first match. */
  method MatchAny(patterns: seq<string>, fnmatch: (string, seq<byte>) -> bool, path: seq<byte>) returns (found: bool)
    ensures found <==> exists i :: 0 <= i < |patterns| && fnmatch(patterns[i], path)
  {
    var i := 0;
    while i < |patterns|
      invariant 0 <= i <= |patterns|
      invariant forall k :: 0 <= k < i ==> !fnmatch(patterns[k], path)
    {
      if fnmatch(patterns[i], path) {
        return true;
      }
      i := i + 1;
    }
    found := false;
  }

  class OutFd {
    var written: seq<byte>
    var pos: nat

    ghost predicate Valid()
      reads this
    {
      pos == |written|
    }

    constructor ()
      ensures Valid() && written == []
    {
      written, pos := [], 0;
    }

    method Write(b: seq<byte>)
      requires Valid()
      modifies this
      ensures Valid() && written == old(written) + b
    {
      written := written + b;
      pos := pos + |b|;
    }

    /** padoutfd. */
    method PadOut(modulo: nat)
      requires Valid() && (modulo == 4 || modulo == 512)
      modifies this
      ensures Valid() && written == old(written) + Zeros(Padding(|old(written)|, modulo))
    {
      var amount := Padding(pos, modulo);
      Write(Zeros(amount));
    }

    /** A header, a path and padding, as copyFile and the trailer write them. */
    method WriteHead(raw: RawHeader, path: seq<byte>)
      requires Valid() && |written| % 4 == 0
      modifies this
      ensures Valid() && written == old(written) + EmittedHead(raw, path)
    {
      hide Padding;
      Write(raw);
      Write(path + [0]);
      PadOut(4);
      PaddingShift(|old(written)|, HEADER_SIZE + |path| + 1);
    }
  }

  /** copyFile; at the end of the stream its copy loop would never finish, which `ok` reports. */
  method CopyFile(inFd: InFd, outFd: OutFd, h: Header) returns (ok: bool)
    requires inFd.Valid() && outFd.Valid() && |outFd.written| % 4 == 0 && HeaderReadable(h.raw)
    modifies inFd, outFd
    ensures inFd.Valid() && outFd.Valid()
    ensures ok == (old(inFd.pos) + DataSize(h.raw) <= |inFd.data|)
    ensures ok ==>
      var end := old(inFd.pos) + DataSize(h.raw);
      && inFd.pos == end
      && (outFd.written
          == old(outFd.written) + Emitted(NormalisedEntry(Entry(h.raw, h.name, inFd.data[old(inFd.pos)..end]))))
  {
    hide Padding, EmittedHead, HeaderReadable, DataSize, CutAtNul, Normalised;
    outFd.WriteHead(Normalised(h.raw), Path(h.name));
    PaddingShift(|old(outFd.written)|, |EmittedHead(Normalised(h.raw), Path(h.name))|);
    ok := CopyData(inFd, outFd, DataSize(h.raw));
  }

  /** The copy loop of copyFile and the padding behind it. */
  method CopyData(inFd: InFd, outFd: OutFd, amount: nat) returns (ok: bool)
    requires inFd.Valid() && outFd.Valid() && |outFd.written| % 4 == 0
    modifies inFd, outFd
    ensures inFd.Valid() && outFd.Valid() && ok == (old(inFd.pos) + amount <= |inFd.data|)
    ensures ok ==> inFd.pos == old(inFd.pos) + amount
    ensures ok ==> outFd.written == old(outFd.written) + EmittedData(inFd.data[old(inFd.pos)..old(inFd.pos) + amount])
  {
    hide Padding;
    ghost var start, before := inFd.pos, outFd.written;
    var size := amount;
    while size > 0
      invariant inFd.Valid() && outFd.Valid() && 0 <= size <= amount
      invariant inFd.pos == start + (amount - size)
      invariant outFd.written == before + inFd.data[start..inFd.pos]
    {
      ghost var at := inFd.pos;
      var buf := inFd.Read(if size > 8192 then 8192 else size);
      if buf == [] {
        return false;
      }
      outFd.Write(buf);
      assert inFd.data[start..inFd.pos] == inFd.data[start..at] + buf;
      size := size - |buf|;
    }
    ghost var data := inFd.data[start..inFd.pos];
    PaddingShift(|before|, |data|);
    outFd.PadOut(4);
    assert outFd.written == before + EmittedData(data);
    ok := true;
  }

  /** What is known of an archive once some entries have been read and the rest is still to come. */
  function Prepended(es: seq<Entry>, rest: Option<seq<Entry>>): (r: Option<seq<Entry>>)
  {
    match rest
    case None => None
    case Some(more) => Some(es + more)
  }

  lemma {:induction false} PrependedStep(es: seq<Entry>, e: Entry, rest: Option<seq<Entry>>)
    ensures Prepended(es, Prepended([e], rest)) == Prepended(es + [e], rest)
  {
    if rest.Some? {
      assert es + ([e] + rest.value) == es + [e] + rest.value;
    }
  }

  lemma {:induction false} SelectedAppend(es: seq<Entry>, e: Entry, wanted: seq<byte> -> bool)
    ensures Selected(es + [e], wanted)
         == Selected(es, wanted) + if wanted(Path(e.name)) then [NormalisedEntry(e)] else []
  {
    if es == [] {
      assert es + [e] == [e] && [e][1..] == [];
    } else {
      assert (es + [e])[1..] == es[1..] + [e];
      SelectedAppend(es[1..], e, wanted);
    }
  }

  lemma {:induction false} NothingAtEnd(data: seq<byte>)
    ensures EntriesFrom(data, |data|) == None
  {
  }

  /** The entry at a position, when the stream still holds all of it. */
  lemma {:induction false} EntryAt(data: seq<byte>, pos: nat, h: Header)
    requires pos <= |data| && HeaderAt(data, pos) == Some(h) && Path(h.name) != TRAILER
    ensures h.next + DataSize(h.raw) > |data| ==> EntriesFrom(data, pos) == None && EntriesFrom(data, |data|) == None
    ensures
      var end := h.next + DataSize(h.raw);
      end <= |data| ==>
        (EntriesFrom(data, pos)
         == Prepended([Entry(h.raw, h.name, data[h.next..end])], EntriesFrom(data, PaddedIn(end, data))))
  {
    hide HeaderReadable, DataSize, CutAtNul, HeaderAt, PaddedIn;
    NothingAtEnd(data);
  }

  /** Stream synchronisation: behind a complete entry, the next header stands at a multiple of four. */
  lemma {:induction false} NextHeaderAligned(data: seq<byte>, end: nat)
    requires end <= |data| && EntriesFrom(data, PaddedIn(end, data)).Some?
    ensures PaddedIn(end, data) % 4 == 0 && PaddedIn(end, data) + HEADER_SIZE <= |data|
  {
    hide HeaderReadable, DataSize, CutAtNul;
  }

  datatype Outcome = Filtered | BadHeader | NeverEnds | Undefined

  /** How the filter ends from a position on, for every stream. */
  function Ending(data: seq<byte>, pos: nat, wanted: seq<byte> -> bool): (rc: Outcome)
    requires pos <= |data|
    decreases |data| - pos
  {
    match HeaderAt(data, pos)
    case None => if NegativeName(data, pos) then Undefined else BadHeader
    case Some(h) =>
      if Path(h.name) == TRAILER then Filtered
      else
        var end := h.next + DataSize(h.raw);
        if end > |data| && wanted(Path(h.name)) then NeverEnds
        else Ending(data, PaddedIn(Capped(end, data), data), wanted)
  }

  /** Where the loop of the filter stands: entries read, entries written, and both streams aligned. */
  ghost predicate Running(inFd: InFd, outFd: OutFd, es: seq<Entry>, wanted: seq<byte> -> bool)
    reads inFd, outFd
  {
    && inFd.Valid() && outFd.Valid() && outFd.written == Body(Selected(es, wanted)) && |outFd.written| % 4 == 0
    && EntriesFrom(inFd.data, 0) == Prepended(es, EntriesFrom(inFd.data, inFd.pos))
    && (EntriesFrom(inFd.data, 0).Some? ==> inFd.pos % 4 == 0 && inFd.pos + HEADER_SIZE <= |inFd.data|)
  }

  /** One entry is copied or skipped, whichever the patterns say, and its padding is skipped. */
  method FilterEntry(inFd: InFd, outFd: OutFd, copy: bool, h: Header, ghost start: nat, ghost es: seq<Entry>,
                     ghost wanted: seq<byte> -> bool)
    returns (ok: bool, ghost es': seq<Entry>)
    requires inFd.Valid() && start <= |inFd.data| && HeaderAt(inFd.data, start) == Some(h) && inFd.pos == h.next
    requires Path(h.name) != TRAILER && copy == wanted(Path(h.name))
    requires outFd.Valid() && outFd.written == Body(Selected(es, wanted)) && |outFd.written| % 4 == 0
    requires EntriesFrom(inFd.data, 0) == Prepended(es, EntriesFrom(inFd.data, start))
    modifies inFd, outFd
    ensures ok == !(copy && h.next + DataSize(h.raw) > |inFd.data|)
    ensures ok ==> inFd.pos == PaddedIn(Capped(h.next + DataSize(h.raw), inFd.data), inFd.data)
    ensures !ok ==> EntriesFrom(inFd.data, 0) == None
    ensures ok ==> Running(inFd, outFd, es', wanted) && start < inFd.pos
  {
    hide EntriesFrom, HeaderReadable, DataSize, CutAtNul, HeaderAt, Emitted, Selected, PaddedIn, Body, Normalised,
      NormalisedEntry, Padding;
    EntryAt(inFd.data, start, h);
    var size := DataSize(h.raw);
    ghost var end := h.next + size;
    ok, es' := true, es;
    if !copy {
      var eaten := inFd.EatBytes(size);
    } else {
      ok := CopyFile(inFd, outFd, h);
      if !ok {
        return;
      }
    }
    inFd.PadIn();
    if end <= |inFd.data| {
      ghost var e := Entry(h.raw, h.name, inFd.data[h.next..end]);
      es' := es + [e];
      SelectedAppend(es, e, wanted);
      BodyAppend(Selected(es, wanted), NormalisedEntry(e));
      PrependedStep(es, e, EntriesFrom(inFd.data, inFd.pos));
      assert copy || Selected(es', wanted) == Selected(es, wanted);
      if EntriesFrom(inFd.data, inFd.pos).Some? {
        NextHeaderAligned(inFd.data, end);
      }
    } else {
      es' := es;
      EndStays(inFd.data);
    }
  }

  lemma {:induction false} EndStays(data: seq<byte>)
    ensures PaddedIn(|data|, data) == |data|
  {
  }

  lemma {:induction false} BodyAppend(es: seq<Entry>, e: Entry)
    ensures Body(es + [e]) == Body(es) + Emitted(e) && |Emitted(e)| % 4 == 0
  {
    hide Padding, EmittedHead, EmittedData;
    assert (es + [e])[..|es|] == es;
    MultiplesOfFour(|EmittedHead(e.raw, Path(e.name))|, |EmittedData(e.data)|);
  }

  lemma {:induction false} MultiplesOfFour(m: nat, n: nat)
    requires m % 4 == 0 && n % 4 == 0
    ensures (m + n) % 4 == 0
  {
  }

  /** What was written are the entries at the places `kept`, in order and under the newc magic. */
  ghost predicate Picks(es: seq<Entry>, out: seq<Entry>, kept: seq<nat>)
  {
    && |kept| == |out| && (forall i, j :: 0 <= i < j < |kept| ==> kept[i] < kept[j])
    && (forall i :: 0 <= i < |out| ==>
          && kept[i] < |es| && out[i].name == es[kept[i]].name && out[i].data == es[kept[i]].data
          && out[i].raw == [48, 55, 48, 55, 48, 49] + es[kept[i]].raw[6..])
  }

  lemma {:induction false} SelectedFiltered(es: seq<Entry>, patterns: seq<string>,
                                            fnmatch: (string, seq<byte>) -> bool)
    ensures
      var kept := Kept(es, Wanted(patterns, fnmatch));
      && Picks(es, Selected(es, Wanted(patterns, fnmatch)), kept)
      && forall k :: 0 <= k < |es| ==>
        (k in kept <==> exists i :: 0 <= i < |patterns| && fnmatch(patterns[i], Path(es[k].name)))
  {
    hide Selected;
    KeptExactly(es, Wanted(patterns, fnmatch));
    SelectedIsKept(es, Wanted(patterns, fnmatch));
  }

  /** Reading the filtered archive gives the entries that some pattern matches. */
  lemma {:induction false} OutputReadBack(data: seq<byte>, es: seq<Entry>, patterns: seq<string>,
                                          fnmatch: (string, seq<byte>) -> bool)
    requires EntriesFrom(data, 0) == Some(es)
    ensures
      var wanted := Wanted(patterns, fnmatch);
      var out := EntriesFrom(Archive(Selected(es, wanted)), 0);
      && (NamesTerminated(es) ==>
            && out.Some? && Picks(es, out.value, Kept(es, wanted))
            && forall k :: 0 <= k < |es| ==>
              (k in Kept(es, wanted) <==> exists i :: 0 <= i < |patterns| && fnmatch(patterns[i], Path(es[k].name))))
      && (patterns == [] ==> out == Some([]))
  {
    hide EntriesFrom, Selected, Wanted, Kept, Picks, Archive, NamesTerminated, CutAtNul;
    if NamesTerminated(es) {
      FilterPreservesMeaning(data, Wanted(patterns, fnmatch));
      SelectedFiltered(es, patterns, fnmatch);
    }
    if patterns == [] {
      NothingSelected(es, patterns, fnmatch);
      NothingWritten();
    }
  }

  lemma {:induction false} NothingSelected(es: seq<Entry>, patterns: seq<string>,
                                           fnmatch: (string, seq<byte>) -> bool)
    requires patterns == []
    ensures Selected(es, Wanted(patterns, fnmatch)) == []
  {
    if es != [] {
      NothingSelected(es[1..], patterns, fnmatch);
    }
  }

  /** An archive of nothing but its trailer has no entries. */
  lemma {:induction false} NothingWritten()
    ensures EntriesFrom(Archive([]), 0) == Some([])
  {
    hide EntriesFrom, TrailerBlock;
    BodyReadBack(Archive([]), 0, []);
  }

  /** myCpioFilterArchive: for every stream, success exactly on readable archives, and then the selected archive. */
  method FilterArchive(inFd: InFd, outFd: OutFd, patterns: seq<string>, fnmatch: (string, seq<byte>) -> bool)
    returns (rc: Outcome, ghost kept: seq<nat>)
    requires inFd.Valid() && inFd.pos == 0 && outFd.Valid() && outFd.written == []
    modifies inFd, outFd
    ensures rc == Ending(inFd.data, 0, Wanted(patterns, fnmatch))
    ensures rc == Filtered <==> EntriesFrom(inFd.data, 0).Some?
    ensures rc == Filtered ==>
      outFd.written == Archive(Selected(EntriesFrom(inFd.data, 0).value, Wanted(patterns, fnmatch)))
    ensures rc == Filtered && NamesTerminated(EntriesFrom(inFd.data, 0).value) ==>
      var es := EntriesFrom(inFd.data, 0).value;
      && EntriesFrom(outFd.written, 0).Some? && Picks(es, EntriesFrom(outFd.written, 0).value, kept)
      && forall k :: 0 <= k < |es| ==>
        (k in kept <==> exists i :: 0 <= i < |patterns| && fnmatch(patterns[i], Path(es[k].name)))
    ensures rc == Filtered && patterns == [] ==> EntriesFrom(outFd.written, 0) == Some([])
  {
    hide EntriesFrom, CutAtNul, HeaderAt, Emitted, Selected, Wanted, TrailerHeader, HeaderReadable, DataSize,
      PaddedIn, NegativeName, Kept, Picks, NamesTerminated, Padding, EmittedHead;
    ghost var wanted := Wanted(patterns, fnmatch);
    ghost var es: seq<Entry> := [];
    StartsRunning(inFd.data, wanted);
    while true
      invariant Running(inFd, outFd, es, wanted)
      invariant Ending(inFd.data, 0, wanted) == Ending(inFd.data, inFd.pos, wanted)
      decreases |inFd.data| - inFd.pos
    {
      ghost var start := inFd.pos;
      var defined, _, header := inFd.GetNextHeader();
      HeaderDecides(inFd.data, start);
      if header.None? {
        return if defined then BadHeader else Undefined, [];
      }
      if Path(header.value.name) == TRAILER {
        break;
      }
      var copy := MatchAny(patterns, fnmatch, Path(header.value.name));
      WantedMeans(patterns, fnmatch, Path(header.value.name));
      var ok;
      ok, es := FilterEntry(inFd, outFd, copy, header.value, start, es, wanted);
      if !ok {
        return NeverEnds, [];
      }
    }
    assert es + [] == es;
    outFd.WriteHead(TrailerHeader(), TRAILER);
    outFd.PadOut(512);
    rc, kept := Filtered, Kept(es, wanted);
    OutputReadBack(inFd.data, es, patterns, fnmatch);
  }

  lemma {:induction false} HeaderDecides(data: seq<byte>, pos: nat)
    requires pos <= |data|
    ensures HeaderAt(data, pos) == None ==> EntriesFrom(data, pos) == None
    ensures HeaderAt(data, pos).Some? && Path(HeaderAt(data, pos).value.name) == TRAILER ==>
      EntriesFrom(data, pos) == Some([])
  {
  }

  lemma {:induction false} StartsRunning(data: seq<byte>, wanted: seq<byte> -> bool)
    ensures EntriesFrom(data, 0) == Prepended([], EntriesFrom(data, 0)) && Selected([], wanted) == []
    ensures EntriesFrom(data, 0).Some? ==> HEADER_SIZE <= |data|
  {
    hide HeaderReadable, DataSize, CutAtNul;
    if EntriesFrom(data, 0).Some? {
      assert [] + EntriesFrom(data, 0).value == EntriesFrom(data, 0).value;
    }
  }
}
