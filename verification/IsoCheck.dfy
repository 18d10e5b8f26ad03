/** The media check: the image is hashed again with the field masked chunk by chunk. */
module IsoCheck {
  import opened Words
  import opened Rfc1321
  import opened IsoText
  import opened Iso
  import Md5

  /**
   * Undefined stands for a copy or a fill outside its buffer and for signed overflow, on which C programs have no
   * behaviour.
   */
  datatype Verdict = Passed | Failed | Aborted | NoSum | Undefined

  /** Division as C does it, towards zero. */
  function Quotient(a: int, b: int): (q: int)
    requires b != 0
  {
    if (a >= 0) == (b > 0) then (if a >= 0 then a / b else (0 - a) / (0 - b))
    else if a >= 0 then 0 - a / (0 - b) else 0 - (0 - a) / b
  }

  /** The remainder is smaller than the divisor and has the sign of the dividend. */
  lemma {:induction false} QuotientTruncates(a: int, b: int)
    requires b != 0
    ensures
      var r := a - Quotient(a, b) * b;
      (a >= 0 ==> 0 <= r < (if b > 0 then b else 0 - b)) && (a <= 0 ==> (if b > 0 then 0 - b else b) < r <= 0)
  {
  }

  // ---------- masking one chunk ----------

  /** The part of a chunk that is overwritten with spaces. */
  datatype Mask = Nothing | Range(start: nat, len: nat) | Wrapped

  /** The three branches that place the field relative to the chunk of `n` bytes at `off`. */
  function MaskOf(off: nat, n: nat, apoff: nat): (m: Mask)
    ensures m.Range? ==> m.start + m.len <= n
  {
    if off < apoff && off + n >= apoff then
      var start := apoff - off;
      var end := Min(start + Min(n, FIELD_SIZE), off + n - apoff);
      if end < start then Wrapped else Range(start, end - start)
    else if off >= apoff && off + n < apoff + FIELD_SIZE then
      Range(0, n)
    else if off < apoff + FIELD_SIZE && off + n >= apoff + FIELD_SIZE then
      Range(0, apoff + FIELD_SIZE - off)
    else
      Nothing
  }

  function Masked(chunk: seq<byte>, mask: Mask): (r: seq<byte>)
    requires mask.Range? ==> mask.start + mask.len <= |chunk|
    ensures |r| == |chunk|
  {
    if mask.Range? then chunk[..mask.start] + Octets(Spaces(mask.len)) + chunk[mask.start + mask.len..] else chunk
  }

  // ---------- comparing one fragment ----------

  datatype Comparison = OutOfBounds | Compared(same: bool, thisfragsum: seq<char>)

  type FragBuffer = b: seq<char> | |b| == FRAGMENT_SUM_LENGTH + 1 witness seq(61, i => 'x')

  /** What copying a fragment leaves in the buffer. */
  function Filled(values: Values, j: nat, copied: nat, buffer: FragBuffer): (b: FragBuffer)
    requires copied > 0 ==> j + copied <= FRAGMENT_SUM_LENGTH == |values.fragmentsums|
  {
    if copied == 0 then buffer else values.fragmentsums[j..j + copied] + buffer[copied..]
  }

  /** The comparison made on entering fragment `current`; the terminator goes in behind the copied index. */
  function CompareFragment(values: Values, sum: Sum, current: int, buffer: FragBuffer): (c: Comparison)
    requires values.fragmentcount != 0
    ensures c.Compared? ==> |c.thisfragsum| == |buffer|
  {
    var n := Quotient(FRAGMENT_SUM_LENGTH, values.fragmentcount);
    var j := Quotient((current - 1) * FRAGMENT_SUM_LENGTH, values.fragmentcount);
    var copied := if n < 0 then 0 else n;
    if !FitsInt(current - 1) || !FitsInt((current - 1) * FRAGMENT_SUM_LENGTH)
       || j < 0 || copied > 16 || j + copied > FRAGMENT_SUM_LENGTH
       || (copied > 0 && |values.fragmentsums| != FRAGMENT_SUM_LENGTH) then
      OutOfBounds
    else
      var ended := Filled(values, j, copied, buffer)[j + copied := NUL];
      Compared(ended[..copied] == LeadingDigits(sum, copied) && ended[copied] == NUL, ended)
  }

  lemma {:induction false} FloorsAdd(a: nat, b: nat, c: nat)
    requires c > 0
    ensures a / c + b / c <= (a + b) / c
  {
    var p, q, r := a / c, b / c, (a + b) / c;
    assert c * (p + q) == c * p + c * q;
    assert c * p + c * q <= a + b < c * (r + 1);
    MultiplyCancels(p + q, r + 1, c);
  }

  lemma {:induction false} FragmentFits(current: nat, c: nat)
    requires 1 <= current <= c
    ensures 0 <= (current - 1) * 60 / c && (current - 1) * 60 / c + 60 / c <= 60
  {
    FloorsAdd((current - 1) * 60, 60, c);
    var q := current * 60 / c;
    assert q * c <= 60 * c;
    MultiplyCancels(q, 61, c);
  }

  lemma {:induction false} FragmentDigits(c: nat)
    requires c > 0
    ensures 60 / c > 16 <==> c <= 3
  {
    if c > 3 {
      var q := 60 / c;
      assert q * c <= 60 < 17 * c;
      MultiplyCancels(q, 17, c);
    }
  }

  /** With a count of one, two or three, a fragment has more digits than the digest has bytes; above that all fit. */
  lemma {:induction false} ComparesInBounds(values: Values, sum: Sum, current: nat, buffer: FragBuffer)
    requires |values.fragmentsums| == FRAGMENT_SUM_LENGTH && 1 <= current <= values.fragmentcount
    requires current <= 0x200_0000
    ensures CompareFragment(values, sum, current, buffer).OutOfBounds? <==> values.fragmentcount <= 3
  {
    hide LeadingDigits, Filled, Quotient;
    var c := values.fragmentcount;
    PositiveQuotient(60, c);
    PositiveQuotient((current - 1) * 60, c);
    FragmentFits(current, c);
    FragmentDigits(c);
  }

  lemma {:induction false} PositiveQuotient(a: nat, b: nat)
    requires b > 0
    ensures Quotient(a, b) == a / b
  {
  }

  // ---------- the whole check ----------

  /** What stays fixed while one image is checked. */
  datatype Job = Job(img: seq<byte>, apoff: nat, total: int, values: Values, abort: (int, int) -> bool)

  /** The fragment in which a chunk starts; None where the product leaves 64 bits. */
  function FragmentOf(job: Job, off: nat): (f: Option<int>)
    requires off < job.total
  {
    var c := job.values.fragmentcount + 1;
    if FitsLong(c) && FitsLong(off * c) then Some(Signed32(Quotient(off * c, job.total))) else None
  }

  /** The fragment of a count below 2^63 - 1, narrowed to an int; none where the product does not fit a long. */
  lemma {:induction false} FragmentExactly(job: Job, off: nat)
    requires off < job.total && 0 <= job.values.fragmentcount <= 0x7fff_ffff_ffff_ffff
    ensures
      var product := off * (job.values.fragmentcount + 1);
      if job.values.fragmentcount == 0x7fff_ffff_ffff_ffff || product > 0x7fff_ffff_ffff_ffff
      then FragmentOf(job, off) == None
      else FragmentOf(job, off) == Some(Signed32(product / job.total))
  {
    hide Signed32;
  }

  /** How one pass of the loop ends: with a verdict, or with more hashed and perhaps one more fragment compared. */
  datatype Pass = Ended(verdict: Verdict) | Went(fed: seq<byte>, prev: int, thisfragsum: FragBuffer)

  function CheckChunk(hash: Hash, job: Job, fed: seq<byte>, off: nat, n: nat, prev: int, buffer: FragBuffer): (p: Pass)
    requires off < job.total && off + n <= |job.img|
  {
    var mask := MaskOf(off, n, job.apoff);
    if mask.Wrapped? then Ended(Undefined)
    else
      var fed' := fed + Masked(job.img[off..off + n], mask);
      var current := FragmentOf(job, off);
      var aborted := job.abort(off + n, job.total);
      if job.values.fragmentcount != 0 && current == None then Ended(Undefined)
      else if job.values.fragmentcount != 0 && current != Some(prev) then
        match CompareFragment(job.values, hash(fed'), current.value, buffer)
        case OutOfBounds => Ended(Undefined)
        case Compared(same, buffer') =>
          if !same then Ended(Failed) else if aborted then Ended(Aborted) else Went(fed', current.value, buffer')
      else if aborted then Ended(Aborted) else Went(fed', prev, buffer)
  }

  /** The verdict of the loop from `off` on, with `fed` hashed so far. */
  function CheckFrom(hash: Hash, job: Job, fed: seq<byte>, off: nat, prev: int, buffer: FragBuffer): (v: Verdict)
    decreases Extent(job.img, job.total) - off
  {
    var extent := Extent(job.img, job.total);
    if off >= extent then
      if job.values.mediasum == HexString(hash(fed)) then Passed else Failed
    else
      var n := Min(CHUNK, extent - off);
      match CheckChunk(hash, job, fed, off, n, prev, buffer)
      case Ended(v) => v
      case Went(fed', prev', buffer') => CheckFrom(hash, job, fed', off + n, prev', buffer')
  }

  /** The verdict on an image; `stack` is what the fragment buffer happens to hold at the start. */
  function Check(hash: Hash, img: seq<byte>, abort: (int, int) -> bool, stack: FragBuffer): (v: Verdict)
  {
    match FindPvd(img, FIRST_DESCRIPTOR)
    case None => NoSum
    case Some(pvd) =>
      match ParseField(FieldOf(img, pvd))
      case NotFound => NoSum
      case Overrun => Undefined
      case Parsed(values) =>
        var total := IsoSize(img, pvd) - values.skipsectors * SECTOR;
        if SizeOverflows(img, pvd) || !FitsInt(values.skipsectors * SECTOR) then Undefined
        else CheckFrom(hash, Job(img, pvd + APPDATA_OFFSET, total, values, abort), [], 0, 0, stack)
  }

  /** Copies one fragment into the buffer while its digits are printed from the snapshot digest. */
  method CopyFragment(values: Values, sum: Sum, start: nat, n: int, thisfragsum: array<char>)
    returns (computedsum: string, i: nat)
    requires thisfragsum.Length == FRAGMENT_SUM_LENGTH + 1 && n <= 16
    requires n > 0 ==> start + n <= FRAGMENT_SUM_LENGTH == |values.fragmentsums|
    modifies thisfragsum
    ensures i == (if n < 0 then 0 else n) && computedsum == LeadingDigits(sum, i)
    ensures thisfragsum[..] == Filled(values, start, i, old(thisfragsum[..]))
  {
    var j := start;
    computedsum, i := "", 0;
    while i < n
      invariant 0 <= i && (i <= n || i == 0) && j == start + i
      invariant computedsum == LeadingDigits(sum, i)
      invariant thisfragsum[..] == Filled(values, start, i, old(thisfragsum[..]))
    {
      computedsum := computedsum + [LeadingHex(sum[i])];
      thisfragsum[i] := values.fragmentsums[j];
      assert values.fragmentsums[start..start + i + 1]
        == values.fragmentsums[start..start + i] + [values.fragmentsums[j]];
      j := j + 1;
      i := i + 1;
    }
  }

  /** Copies one fragment into the buffer and compares it with the snapshot digest. */
  method CompareInPlace(values: Values, sum: Sum, current: int, thisfragsum: array<char>)
    returns (defined: bool, same: bool)
    requires values.fragmentcount != 0 && thisfragsum.Length == FRAGMENT_SUM_LENGTH + 1
    modifies thisfragsum
    ensures
      match CompareFragment(values, sum, current, old(thisfragsum[..]))
      case OutOfBounds => !defined
      case Compared(s, buffer) => defined && same == s && thisfragsum[..] == buffer
  {
    hide Quotient, LeadingDigits, Filled;
    var n := Quotient(FRAGMENT_SUM_LENGTH, values.fragmentcount);
    var j := Quotient((current - 1) * FRAGMENT_SUM_LENGTH, values.fragmentcount);
    if !FitsInt(current - 1) || !FitsInt((current - 1) * FRAGMENT_SUM_LENGTH)
       || j < 0 || n > 16 || j + (if n < 0 then 0 else n) > FRAGMENT_SUM_LENGTH
       || (n > 0 && |values.fragmentsums| != FRAGMENT_SUM_LENGTH) {
      return false, false;
    }
    var computedsum, i := CopyFragment(values, sum, j, n, thisfragsum);
    thisfragsum[j + i] := NUL;
    same := thisfragsum[..i] == computedsum && thisfragsum[i] == NUL;
    assert thisfragsum[..i] == thisfragsum[..][..i];
    defined := true;
  }

  /** The image read so far, as the context has seen it. */
  ghost predicate Took(ctx: Md5.Context, compress: Compression, fed: seq<byte>)
    reads ctx, ctx.buf, ctx.bits, ctx.input
  {
    ctx.Valid() && ctx.transform == compress && ctx.message == fed
  }

  /** One chunk: masked in its buffer, then hashed. */
  method FeedChunk(md5ctx: Md5.Context, chunk: seq<byte>, mask: Mask, ghost compress: Compression, ghost fed: seq<byte>)
    requires Took(md5ctx, compress, fed) && |chunk| <= CHUNK
    requires !mask.Wrapped? && (mask.Range? ==> mask.start + mask.len <= |chunk|)
    modifies md5ctx, md5ctx.buf, md5ctx.bits, md5ctx.input
    ensures Took(md5ctx, compress, fed + Masked(chunk, mask))
  {
    var buf := new byte[|chunk|](i requires 0 <= i < |chunk| => chunk[i]);
    assert buf[..] == chunk;
    if mask.Range? {
      Md5.MemCopy(buf, mask.start, Octets(Spaces(mask.len)));
    }
    assert buf[..] == Masked(chunk, mask);
    md5ctx.Update(buf[..]);
  }

  /** A snapshot digest of what was fed. */
  method Snapshot(md5ctx: Md5.Context, ghost hash: Hash, ghost compress: Compression,
                  ghost fed: seq<byte>)
    returns (sum: Sum)
    requires Took(md5ctx, compress, fed) && Implements(hash, compress)
    ensures sum == hash(fed)
  {
    hide Rfc1321.Digest;
    var fragctx := new Md5.Context.Copy(md5ctx);
    sum := Conclude(fragctx, hash);
  }

  /** The body of the loop of checkmd5sum, for a read of `nread` bytes. */
  method CheckInPlace(md5ctx: Md5.Context, ghost compress: Compression, ghost hash: Hash, job: Job, offset: nat,
                      nread: nat, previous: int, thisfragsum: array<char>, ghost fed: seq<byte>)
    returns (ended: bool, v: Verdict, current: int, ghost fed': seq<byte>)
    requires Implements(hash, compress) && Took(md5ctx, compress, fed) && thisfragsum.Length == FRAGMENT_SUM_LENGTH + 1
    requires offset < job.total && offset + nread <= |job.img| && nread <= CHUNK
    modifies md5ctx, md5ctx.buf, md5ctx.bits, md5ctx.input, thisfragsum
    ensures
      match CheckChunk(hash, job, fed, offset, nread, previous, old(thisfragsum[..]))
      case Ended(verdict) => ended && v == verdict
      case Went(f, p, b) => !ended && fed' == f && current == p && thisfragsum[..] == b
    ensures !ended ==> Took(md5ctx, compress, fed')
  {
    hide Md5.Context.Valid, Rfc1321.Digest, CompareFragment, FragmentOf, MaskOf, Masked;
    current, fed', v, ended := previous, fed, Failed, true;
    var mask := MaskOf(offset, nread, job.apoff);
    if mask.Wrapped? {
      v := Undefined;
      return;
    }
    FeedChunk(md5ctx, job.img[offset..offset + nread], mask, compress, fed);
    fed' := fed + Masked(job.img[offset..offset + nread], mask);
    if job.values.fragmentcount != 0 {
      var fragment := FragmentOf(job, offset);
      if fragment.None? {
        v := Undefined;
        return;
      }
      current := fragment.value;
      if current != previous {
        var fragmd5sum := Snapshot(md5ctx, hash, compress, fed');
        var defined, same := CompareInPlace(job.values, fragmd5sum, current, thisfragsum);
        if !defined {
          v := Undefined;
          return;
        }
        if !same {
          return;
        }
      }
    }
    ended := job.abort(offset + nread, job.total);
    v := Aborted;
  }

  /** The loop of checkmd5sum. */
  method CheckLoop(compress: Compression, bigEndian: bool, ghost hash: Hash, job: Job, stack: FragBuffer)
    returns (v: Verdict)
    requires Implements(hash, compress)
    ensures v == CheckFrom(hash, job, [], 0, 0, stack)
  {
    hide Md5.Context.Valid, Rfc1321.Digest, CheckChunk;
    var md5ctx := new Md5.Context(compress, bigEndian);
    var thisfragsum := new char[FRAGMENT_SUM_LENGTH + 1](i requires 0 <= i < FRAGMENT_SUM_LENGTH + 1 => stack[i]);
    assert thisfragsum[..] == stack;
    var offset: nat, previous := 0, 0;
    ghost var fed: seq<byte> := [];
    while offset < job.total
      invariant Took(md5ctx, compress, fed) && offset <= Extent(job.img, job.total)
      invariant fresh(md5ctx) && fresh(md5ctx.buf) && fresh(md5ctx.bits) && fresh(md5ctx.input) && fresh(thisfragsum)
      invariant CheckFrom(hash, job, [], 0, 0, stack)
             == CheckFrom(hash, job, fed, offset, previous, thisfragsum[..])
      decreases Extent(job.img, job.total) - offset
    {
      var nattempt := Min(job.total - offset, CHUNK);
      var nread := Min(nattempt, |job.img| - offset);
      if nread <= 0 {
        break;
      }
      var ended;
      ended, v, previous, fed := CheckInPlace(md5ctx, compress, hash, job, offset, nread, previous, thisfragsum, fed);
      if ended {
        return;
      }
      offset := offset + nread;
    }
    var md5sum := Conclude(md5ctx, hash);
    var computedsum := HexString(md5sum);
    v := if job.values.mediasum == computedsum then Passed else Failed;
  }

  /** checkmd5sum. */
  method CheckMd5Sum(compress: Compression, bigEndian: bool, img: seq<byte>, abort: (int, int) -> bool,
                     stack: FragBuffer)
    returns (v: Verdict)
    ensures v == Check(Md5Of(compress), img, abort, stack)
  {
    hide Rfc1321.Digest, ScanFrom, CheckFrom;
    var found := SearchPvd(img);
    if found.None? {
      return NoSum;
    }
    var pvd := found.value;
    var parse := Scan(FieldOf(img, pvd));
    match parse {
      case NotFound => v := NoSum;
      case Overrun => v := Undefined;
      case Parsed(values) =>
        var total := IsoSize(img, pvd) - values.skipsectors * SECTOR;
        if SizeOverflows(img, pvd) || !FitsInt(values.skipsectors * SECTOR) {
          return Undefined;
        }
        v := CheckLoop(compress, bigEndian, Md5Of(compress), Job(img, pvd + APPDATA_OFFSET, total, values, abort),
          stack);
    }
  }
}
