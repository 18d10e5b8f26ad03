/** Implanting a checksum into an ISO 9660 image and checking it again. */
module Iso {
  import opened Words
  import opened Rfc1321
  import opened IsoText
  import Md5

  const SECTOR := 2048
  const CHUNK := 32768
  const APPDATA_OFFSET := 883
  const SIZE_OFFSET := 84
  const FIRST_DESCRIPTOR := 32768

  function Min(a: int, b: int): (m: int) {
    if a < b then a else b
  }

  // ---------- bytes as text ----------

  function Latin(b: seq<byte>): (s: string)
    ensures |s| == |b|
  {
    seq(|b|, i requires 0 <= i < |b| => b[i] as char)
  }

  function Octets(s: string): (b: seq<byte>)
    ensures |b| == |s|
  {
    seq(|s|, i requires 0 <= i < |s| => s[i] as int % 256)
  }

  ghost predicate IsLatin(s: string) {
    forall i :: 0 <= i < |s| ==> s[i] < 256 as char
  }

  lemma {:induction false} LatinOctets(s: string)
    requires IsLatin(s)
    ensures Latin(Octets(s)) == s
  {
  }

  function Blanks(): (b: seq<byte>)
    ensures |b| == FIELD_SIZE
  {
    seq(FIELD_SIZE, i => 32)
  }

  // ---------- the volume descriptor ----------

  /** The first descriptor of type 1 from `at` on, unless the terminator or the end comes first. */
  function FindPvd(img: seq<byte>, at: nat): (r: Option<nat>)
    ensures r.Some? ==> at <= r.value && r.value + SECTOR <= |img| && (r.value - at) % SECTOR == 0
    decreases |img| - at
  {
    if at + SECTOR > |img| then None
    else if img[at] == 1 then Some(at)
    else if img[at] == 255 then None
    else FindPvd(img, at + SECTOR)
  }

  /** The search loop of parsepvd. */
  method SearchPvd(img: seq<byte>) returns (r: Option<nat>)
    ensures r == FindPvd(img, FIRST_DESCRIPTOR)
  {
    var offset := FIRST_DESCRIPTOR;
    while true
      invariant FindPvd(img, offset) == FindPvd(img, FIRST_DESCRIPTOR)
      decreases |img| - offset
    {
      if offset + SECTOR > |img| {
        return None;
      }
      if img[offset] == 1 {
        return Some(offset);
      } else if img[offset] == 255 {
        return None;
      }
      offset := offset + SECTOR;
    }
  }

  /** A high-order size byte of 128 or more, with which the size does not fit the int it is computed in. */
  predicate SizeOverflows(img: seq<byte>, pvd: nat)
    requires pvd + SECTOR <= |img|
  {
    img[pvd + SIZE_OFFSET] >= 128
  }

  /** The declared size in bytes. */
  function IsoSize(img: seq<byte>, pvd: nat): (n: nat)
    requires pvd + SECTOR <= |img|
    ensures n % SECTOR == 0 && n < 0x800_0000_0000
  {
    BigWord(img[pvd + SIZE_OFFSET..pvd + SIZE_OFFSET + 4]) * SECTOR
  }

  function FieldOf(img: seq<byte>, pvd: nat): (s: string)
    requires pvd + SECTOR <= |img|
    ensures |s| == FIELD_SIZE
  {
    Latin(img[pvd + APPDATA_OFFSET..pvd + APPDATA_OFFSET + FIELD_SIZE])
  }

  /** What is read from a descriptor, byte by byte: the big-endian count of sectors and the 512 bytes of the field. */
  lemma {:induction false} DescriptorFields(img: seq<byte>, pvd: nat)
    requires pvd + 2048 <= |img|
    ensures IsoSize(img, pvd)
         == (0x100_0000 * (img[pvd + 84] as int) + 0x1_0000 * (img[pvd + 85] as int)
             + 0x100 * (img[pvd + 86] as int) + img[pvd + 87] as int) * 2048
    ensures SizeOverflows(img, pvd) <==> img[pvd + 84] >= 128
    ensures forall k :: 0 <= k < 512 ==> FieldOf(img, pvd)[k] == img[pvd + 883 + k] as char
  {
    var b := img[pvd + 84..pvd + 88];
    assert b[0] == img[pvd + 84] && b[1] == img[pvd + 85] && b[2] == img[pvd + 86] && b[3] == img[pvd + 87];
  }

  /** The descriptor stands in the first sector from 16 on that starts with 1, none before it starting with 255. */
  lemma {:induction false} PvdExactly(img: seq<byte>, k: nat)
    requires 16 <= k
    ensures FindPvd(img, FIRST_DESCRIPTOR) == Some(2048 * k)
      <==> (2048 * k + 2048 <= |img| && img[2048 * k] == 1
            && forall j :: 16 <= j < k ==> img[2048 * j] != 1 && img[2048 * j] != 255)
  {
    PvdFrom(img, 16, k);
  }

  lemma {:induction false} PvdFrom(img: seq<byte>, i: nat, k: nat)
    requires i <= k
    ensures FindPvd(img, 2048 * i) == Some(2048 * k)
      <==> (2048 * k + 2048 <= |img| && img[2048 * k] == 1
            && forall j :: i <= j < k ==> img[2048 * j] != 1 && img[2048 * j] != 255)
    decreases k - i
  {
    if 2048 * i + 2048 <= |img| && img[2048 * i] != 1 && img[2048 * i] != 255 && i < k {
      PvdFrom(img, i + 1, k);
    }
  }

  /** The image with other bytes in the field and nothing else changed. */
  function WithField(img: seq<byte>, pvd: nat, field: seq<byte>): (r: seq<byte>)
    requires pvd + SECTOR <= |img| && |field| == FIELD_SIZE
    ensures |r| == |img|
  {
    img[..pvd + APPDATA_OFFSET] + field + img[pvd + APPDATA_OFFSET + FIELD_SIZE..]
  }

  // ---------- the implanter ----------

  /** How many bytes the loop over a file reads when asked for `total`. */
  function Extent(img: seq<byte>, total: int): (n: nat)
    ensures n <= |img| && n <= (if total < 0 then 0 else total)
  {
    if total <= 0 then 0 else Min(total, |img|)
  }

  /** A digest of 16 bytes; what follows holds for every hash function. */
  type Sum = d: seq<byte> | |d| == 16 witness seq(16, i => 0)

  type Hash = seq<byte> -> Sum

  /** The hash that md5.c computes with a given compression function. */
  function Md5Of(compress: Compression): (h: Hash) {
    m => Digest(compress, m)
  }

  /** `hash` is the digest of RFC 1321; the trigger keeps the digest folded where only `hash` is at work. */
  ghost predicate Implements(hash: Hash, compress: Compression) {
    forall m: seq<byte> {:trigger Digest(compress, m)} :: hash(m) == Digest(compress, m)
  }

  /** The fragment in which a chunk starts, by the offset of the chunk. */
  function FragmentIndex(total: int): (f: nat -> nat) {
    (off: nat) => if total <= 0 then 0 else off * (FRAGMENT_COUNT + 1) / total
  }

  /** The characters appended to the fragment string from the chunk at `off` on. */
  function FragsFrom(hash: Hash, index: nat -> nat, m: seq<byte>, off: nat, prev: nat): (s: string)
    decreases |m| - off
  {
    if off >= |m| then ""
    else
      var n := Min(CHUNK, |m| - off);
      if index(off) != prev then
        LeadingDigits(hash(m[..off + n]), 3) + FragsFrom(hash, index, m, off + n, index(off))
      else
        FragsFrom(hash, index, m, off + n, prev)
  }

  lemma {:induction false} DivideMonotone(a: nat, b: nat, d: nat)
    requires 0 < d && a <= b
    ensures a / d <= b / d
  {
    var p, q := a / d, b / d;
    assert p * d < (q + 1) * d;
    MultiplyCancels(p, q + 1, d);
  }

  lemma {:induction false} MultiplyCancels(x: int, y: int, d: int)
    requires 0 < d && x * d < y * d
    ensures x < y
  {
  }

  /** Up to `limit` the indices grow with the offset and stay within the count. */
  ghost predicate Staged(index: nat -> nat, limit: int)
  {
    && (forall off: nat :: off < limit ==> index(off) <= FRAGMENT_COUNT)
    && (forall off: nat, off': nat :: off <= off' < limit ==> index(off) <= index(off'))
  }

  lemma {:induction false} IndexStaged(total: int)
    ensures Staged(FragmentIndex(total), total)
  {
    forall off: nat, off': nat | off <= off' < total
      ensures FragmentIndex(total)(off) <= FragmentIndex(total)(off')
    {
      DivideMonotone(21 * off, 21 * off', total);
    }
    forall off: nat | off < total
      ensures FragmentIndex(total)(off) <= FRAGMENT_COUNT
    {
      var f := 21 * off / total;
      MultiplyCancels(f, 21, total);
    }
  }

  /** Every transition takes three characters and at least one of the remaining fragments. */
  lemma {:induction false} FragsBound(hash: Hash, index: nat -> nat, m: seq<byte>, off: nat, prev: nat)
    requires Staged(index, |m|) && prev <= FRAGMENT_COUNT && (off < |m| ==> prev <= index(off))
    ensures |FragsFrom(hash, index, m, off, prev)| <= 3 * (FRAGMENT_COUNT - prev)
    decreases |m| - off
  {
    if off < |m| {
      var n := Min(CHUNK, |m| - off);
      assert off + n < |m| ==> index(off) <= index(off + n);
      FragsBound(hash, index, m, off + n, index(off));
    }
  }

  /** The bytes that get hashed: the image with a blank field, up to the skipped sectors. */
  function Hashed(img: seq<byte>, pvd: nat): (m: seq<byte>)
    requires pvd + SECTOR <= |img|
    ensures |m| == Extent(img, IsoSize(img, pvd) - SKIPSECTORS * SECTOR)
  {
    WithField(img, pvd, Blanks())[..Extent(img, IsoSize(img, pvd) - SKIPSECTORS * SECTOR)]
  }

  function Fragments(hash: Hash, img: seq<byte>, pvd: nat): (s: string)
    requires pvd + SECTOR <= |img|
    ensures |s| <= FRAGMENT_SUM_LENGTH
  {
    var m, total := Hashed(img, pvd), IsoSize(img, pvd) - SKIPSECTORS * SECTOR;
    IndexStaged(total);
    FragsBound(hash, FragmentIndex(total), m, 0, 0);
    FragsFrom(hash, FragmentIndex(total), m, 0, 0)
  }

  function ImplantedField(hash: Hash, img: seq<byte>, pvd: nat, supported: bool): (s: string)
    requires pvd + SECTOR <= |img|
    ensures |s| == FIELD_SIZE
  {
    Field(HexString(hash(Hashed(img, pvd))), supported, Fragments(hash, img, pvd))
  }

  /** Overflow stands for a signed overflow, on which the C program has no behaviour. */
  datatype Implanting = NoVolume | Overflow | InUse | Done(image: seq<byte>)

  /** The whole effect of implanting on an image. */
  function Implanted(hash: Hash, img: seq<byte>, supported: bool, forceit: bool): (r: Implanting)
  {
    match FindPvd(img, FIRST_DESCRIPTOR)
    case None => NoVolume
    case Some(pvd) =>
      if SizeOverflows(img, pvd) then Overflow
      else if !forceit && FieldOf(img, pvd) != Spaces(FIELD_SIZE) then InUse
      else Done(WithField(img, pvd, Octets(ImplantedField(hash, img, pvd, supported))))
  }

  /** The loop that looks for a character other than a space. */
  method IsDirty(appdata: string) returns (dirty: bool)
    requires |appdata| == FIELD_SIZE
    ensures dirty == (appdata != Spaces(FIELD_SIZE))
  {
    dirty := false;
    var i := 0;
    while i < FIELD_SIZE
      invariant 0 <= i <= FIELD_SIZE
      invariant dirty == exists k :: 0 <= k < i && appdata[k] != ' '
    {
      if appdata[i] != ' ' {
        dirty := true;
      }
      i := i + 1;
    }
    if !dirty {
      assert appdata == Spaces(FIELD_SIZE);
    } else {
      var k :| 0 <= k < FIELD_SIZE && appdata[k] != ' ';
      assert Spaces(FIELD_SIZE)[k] == ' ';
    }
  }

  /** The digest of everything fed to a context. */
  method Conclude(ctx: Md5.Context, ghost hash: Hash) returns (sum: Sum)
    requires ctx.Valid() && Implements(hash, ctx.transform)
    modifies ctx, ctx.buf, ctx.bits, ctx.input
    ensures sum == hash(old(ctx.message))
  {
    sum := ctx.Final();
  }

  /** One chunk is hashed and, on a new fragment, a snapshot of the digest is written down. */
  method HashChunk(md5ctx: Md5.Context, ghost hash: Hash, data: seq<byte>, current: nat, previous: nat, fragstr: string)
    returns (fragstr': string)
    requires md5ctx.Valid() && Implements(hash, md5ctx.transform) && |data| <= CHUNK
    modifies md5ctx, md5ctx.buf, md5ctx.bits, md5ctx.input
    ensures md5ctx.Valid() && md5ctx.message == old(md5ctx.message) + data
    ensures fragstr' == if current != previous then fragstr + LeadingDigits(hash(md5ctx.message), 3) else fragstr
  {
    md5ctx.Update(data);
    fragstr' := fragstr;
    if current != previous {
      var fragctx := new Md5.Context.Copy(md5ctx);
      var fragmd5sum := Conclude(fragctx, hash);
      fragstr' := fragstr + LeadingDigits(fragmd5sum, 3);
    }
  }

  /** What was written so far, followed by what is still to come, is the whole fragment string. */
  ghost predicate Progress(hash: Hash, index: nat -> nat, m: seq<byte>, off: nat, prev: nat, fragstr: string,
                           all: string)
  {
    fragstr + FragsFrom(hash, index, m, off, prev) == all
  }

  lemma {:induction false} ProgressStep(hash: Hash, index: nat -> nat, m: seq<byte>, off: nat, n: nat, prev: nat,
                                        before: string, after: string, all: string)
    requires off < |m| && n == Min(CHUNK, |m| - off) && Progress(hash, index, m, off, prev, before, all)
    requires after == if index(off) != prev then before + LeadingDigits(hash(m[..off + n]), 3) else before
    ensures Progress(hash, index, m, off + n, index(off), after, all)
  {
    var tail := FragsFrom(hash, index, m, off + n, index(off));
    if index(off) != prev {
      var digits := LeadingDigits(hash(m[..off + n]), 3);
      assert before + (digits + tail) == before + digits + tail;
    }
  }

  lemma {:induction false} ProgressEnd(hash: Hash, index: nat -> nat, m: seq<byte>, off: nat, prev: nat,
                                       fragstr: string, all: string)
    requires |m| <= off && Progress(hash, index, m, off, prev, fragstr, all)
    ensures fragstr == all
  {
    assert fragstr + "" == fragstr;
  }

  /** The context has taken in the first `off` bytes of the message. */
  ghost predicate Fed(ctx: Md5.Context, compress: Compression, m: seq<byte>, off: nat)
    reads ctx, ctx.buf, ctx.bits, ctx.input
  {
    ctx.Valid() && ctx.transform == compress && off <= |m| && ctx.message == m[..off]
  }

  /** One pass of the hashing loop. */
  method HashStep(md5ctx: Md5.Context, ghost hash: Hash, index: nat -> nat, data: seq<byte>, total: nat, previous: nat,
                  fragstr: string, ghost compress: Compression, ghost m: seq<byte>, ghost all: string)
    returns (current: nat, fragstr': string)
    requires Implements(hash, compress) && Fed(md5ctx, compress, m, total) && total < |m|
    requires |data| == Min(CHUNK, |m| - total) && data == m[total..total + |data|]
    requires Progress(hash, index, m, total, previous, fragstr, all)
    modifies md5ctx, md5ctx.buf, md5ctx.bits, md5ctx.input
    ensures Fed(md5ctx, compress, m, total + |data|)
    ensures Progress(hash, index, m, total + |data|, current, fragstr', all)
  {
    hide Md5.Context.Valid, Rfc1321.Digest;
    assert m[..total + |data|] == m[..total] + data;
    current := index(total);
    fragstr' := HashChunk(md5ctx, hash, data, current, previous, fragstr);
    ProgressStep(hash, index, m, total, |data|, previous, fragstr, fragstr', all);
  }

  lemma {:induction false} SliceOfPrefix(s: seq<byte>, end: nat, a: nat, b: nat)
    requires a <= b <= end <= |s|
    ensures s[..end][a..b] == s[a..b]
  {
  }

  /** The hashing loop: the digest of the image and the snapshots at the fragment boundaries. */
  method HashImage(compress: Compression, bigEndian: bool, ghost hash: Hash, img: seq<byte>, length: int,
                   index: nat -> nat)
    returns (md5sum: Sum, fragstr: string)
    requires Implements(hash, compress)
    ensures md5sum == hash(img[..Extent(img, length)])
    ensures fragstr == FragsFrom(hash, index, img[..Extent(img, length)], 0, 0)
  {
    hide Md5.Context.Valid, Rfc1321.Digest;
    var md5ctx := new Md5.Context(compress, bigEndian);
    fragstr := "";
    var total: nat, previous: nat := 0, 0;
    ghost var m := img[..Extent(img, length)];
    ghost var all := FragsFrom(hash, index, m, 0, 0);
    assert "" + all == all;
    while total < length
      invariant Fed(md5ctx, compress, m, total)
      invariant fresh(md5ctx) && fresh(md5ctx.buf) && fresh(md5ctx.bits) && fresh(md5ctx.input)
      invariant Progress(hash, index, m, total, previous, fragstr, all)
      decreases |m| - total
    {
      var nattempt := Min(length - total, CHUNK);
      var nread := Min(nattempt, |img| - total);
      if nread <= 0 {
        break;
      }
      SliceOfPrefix(img, |m|, total, total + nread);
      previous, fragstr := HashStep(md5ctx, hash, index, img[total..total + nread], total, previous, fragstr,
        compress, m, all);
      total := total + nread;
    }
    assert m[..total] == m;
    ProgressEnd(hash, index, m, total, previous, fragstr, all);
    md5sum := Conclude(md5ctx, hash);
  }

  /** implantISOFile: the field is rewritten, or the image is refused untouched. */
  method ImplantIsoFile(compress: Compression, bigEndian: bool, img: array<byte>, supported: bool, forceit: bool)
    returns (defined: bool, rc: int)
    modifies img
    ensures
      match Implanted(Md5Of(compress), old(img[..]), supported, forceit)
      case Overflow => !defined
      case Done(image) => defined && rc == 0 && img[..] == image
      case _ => defined && rc == -1 && img[..] == old(img[..])
  {
    hide FindPvd, ImplantedField, IsoSize, Octets;
    var found := SearchPvd(img[..]);
    if found.None? {
      return true, -1;
    }
    var pvd := found.value;
    if SizeOverflows(img[..], pvd) {
      return false, -1;
    }
    var isosize := IsoSize(img[..], pvd);
    if !forceit {
      var dirty := IsDirty(FieldOf(img[..], pvd));
      if dirty {
        return true, -1;
      }
      BlankFieldIsBlanks(img[..], pvd);
    } else {
      Md5.MemCopy(img, pvd + APPDATA_OFFSET, Blanks());
    }
    var field := NewField(compress, bigEndian, Md5Of(compress), img[..], pvd, isosize, supported, old(img[..]));
    Md5.MemCopy(img, pvd + APPDATA_OFFSET, Octets(field));
    FieldOverwritten(old(img[..]), pvd, Blanks(), Octets(field));
    defined, rc := true, 0;
  }

  /** From the blanked field on: the image is hashed and the new field composed. */
  method NewField(compress: Compression, bigEndian: bool, ghost hash: Hash, img: seq<byte>, pvd: nat, isosize: int,
                  supported: bool, ghost was: seq<byte>)
    returns (field: string)
    requires Implements(hash, compress)
    requires pvd + SECTOR <= |was| && img == WithField(was, pvd, Blanks()) && isosize == IsoSize(was, pvd)
    ensures field == ImplantedField(hash, was, pvd, supported)
  {
    var length := isosize - SKIPSECTORS * SECTOR;
    var md5sum, fragstr := HashImage(compress, bigEndian, hash, img, length, FragmentIndex(length));
    assert img[..Extent(img, length)] == Hashed(was, pvd);
    assert fragstr == Fragments(hash, was, pvd);
    field := ComposeField(HexString(md5sum), supported, fragstr);
  }

  lemma {:induction false} FieldOverwritten(img: seq<byte>, pvd: nat, first: seq<byte>, second: seq<byte>)
    requires pvd + SECTOR <= |img| && |first| == |second| == FIELD_SIZE
    ensures WithField(WithField(img, pvd, first), pvd, second) == WithField(img, pvd, second)
  {
  }

  lemma {:induction false} BlankFieldIsBlanks(img: seq<byte>, pvd: nat)
    requires pvd + SECTOR <= |img| && FieldOf(img, pvd) == Spaces(FIELD_SIZE)
    ensures WithField(img, pvd, Blanks()) == img
  {
    var field := img[pvd + APPDATA_OFFSET..pvd + APPDATA_OFFSET + FIELD_SIZE];
    forall i | 0 <= i < FIELD_SIZE
      ensures field[i] == Blanks()[i]
    {
      assert Latin(field)[i] == field[i] as char == Spaces(FIELD_SIZE)[i];
    }
    assert field == Blanks();
  }
}
