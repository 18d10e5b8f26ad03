/** What the implanter and the checker promise together. */
module IsoTheorems {
  import opened Words
  import Rfc1321
  import opened IsoText
  import opened Iso
  import opened IsoCheck

  // ---------- the implanted image ----------

  lemma {:induction false} LatinConcat(a: string, b: string)
    requires IsLatin(a) && IsLatin(b)
    ensures IsLatin(a + b)
  {
  }

  lemma {:induction false} FragsLatin(hash: Hash, index: nat -> nat, m: seq<byte>, off: nat, prev: nat)
    ensures IsLatin(FragsFrom(hash, index, m, off, prev))
    decreases |m| - off
  {
    if off < |m| {
      var n := Min(CHUNK, |m| - off);
      FragsLatin(hash, index, m, off + n, index(off));
      var digits := LeadingDigits(hash(m[..off + n]), 3);
      assert forall i :: 0 <= i < |digits| ==> digits[i] in digits;
      LatinConcat(digits, FragsFrom(hash, index, m, off + n, index(off)));
    }
  }

  lemma {:induction false} KeysLatin()
    ensures IsLatin(MD5_KEY) && IsLatin(SUMS_KEY) && IsLatin(";")
  {
  }

  lemma {:induction false} EntriesLatin(supported: bool)
    ensures IsLatin(SkipEntry()) && IsLatin(StatusEntry(supported)) && IsLatin(CountEntry())
  {
    assert IsLatin("SKIPSECTORS = 15") && IsLatin("FRAGMENT COUNT = 20") && IsLatin(";");
    LatinConcat("SKIPSECTORS = 15", ";");
    LatinConcat("FRAGMENT COUNT = 20", ";");
    StatusLatin(supported);
    LatinConcat(StatusText(supported), ";");
  }

  lemma {:induction false} StatusLatin(supported: bool)
    ensures IsLatin(StatusText(supported))
  {
    assert IsLatin(SUPPORTED_KEY) && IsLatin(UNSUPPORTED_KEY);
  }

  lemma {:induction false} WarningLatin()
    ensures IsLatin(Warning())
  {
    assert IsLatin("THIS IS NOT ") && IsLatin("THE SAME AS ") && IsLatin("RUNNING MD5SUM ") && IsLatin("ON THIS ISO!!");
  }

  lemma {:induction false} FieldLatin(sum: string, supported: bool, frags: string)
    requires |sum| == 32 && |frags| <= FRAGMENT_SUM_LENGTH && IsLatin(sum) && IsLatin(frags)
    ensures IsLatin(Field(sum, supported, frags))
  {
    hide SkipEntry, StatusEntry, CountEntry, Warning;
    KeysLatin();
    EntriesLatin(supported);
    WarningLatin();
    LatinConcat(MD5_KEY, sum);
    LatinConcat(MD5_KEY + sum, ";");
    LatinConcat(SUMS_KEY, frags);
    LatinConcat(SUMS_KEY + frags, ";");
    var a, b, c := SumEntry(sum), SkipEntry(), StatusEntry(supported);
    var d, e, w := FragmentsEntry(frags), CountEntry(), Warning();
    LatinConcat(a, b);
    LatinConcat(a + b, c);
    LatinConcat(a + b + c, d);
    LatinConcat(a + b + c + d, e);
    LatinConcat(a + b + c + d + e, w);
    LatinConcat(a + b + c + d + e + w, Spaces(FIELD_SIZE - 167 - |frags|));
  }

  /** Rewriting the field moves neither the descriptor nor the declared size. */
  lemma {:induction false} SamePvd(img: seq<byte>, field: seq<byte>, pvd: nat, at: nat)
    requires |field| == FIELD_SIZE && FindPvd(img, at) == Some(pvd)
    ensures FindPvd(WithField(img, pvd, field), at) == Some(pvd)
    decreases |img| - at
  {
    if img[at] != 1 {
      SamePvd(img, field, pvd, at + SECTOR);
    }
  }

  lemma {:induction false} SameSize(img: seq<byte>, field: seq<byte>, pvd: nat)
    requires |field| == FIELD_SIZE && pvd + SECTOR <= |img|
    ensures IsoSize(WithField(img, pvd, field), pvd) == IsoSize(img, pvd)
    ensures SizeOverflows(WithField(img, pvd, field), pvd) == SizeOverflows(img, pvd)
  {
    var at := pvd + SIZE_OFFSET;
    assert WithField(img, pvd, field)[at..at + 4] == img[at..at + 4];
  }

  lemma {:induction false} FieldReadBack(img: seq<byte>, field: string, pvd: nat)
    requires |field| == FIELD_SIZE && pvd + SECTOR <= |img| && IsLatin(field)
    ensures FieldOf(WithField(img, pvd, Octets(field)), pvd) == field
  {
    var at := pvd + APPDATA_OFFSET;
    assert WithField(img, pvd, Octets(field))[at..at + FIELD_SIZE] == Octets(field);
    LatinOctets(field);
  }

  lemma {:induction false} ImplantedFieldLatin(hash: Hash, img: seq<byte>, pvd: nat, supported: bool)
    requires pvd + SECTOR <= |img|
    ensures IsLatin(ImplantedField(hash, img, pvd, supported))
  {
    var sum := HexString(hash(Hashed(img, pvd)));
    assert forall i :: 0 <= i < |sum| ==> sum[i] in sum;
    var total := IsoSize(img, pvd) - SKIPSECTORS * SECTOR;
    FragsLatin(hash, FragmentIndex(total), Hashed(img, pvd), 0, 0);
    FieldLatin(sum, supported, Fragments(hash, img, pvd));
  }

  /** Hashing looks through whatever the field holds. */
  lemma {:induction false} SameHashed(img: seq<byte>, field: seq<byte>, pvd: nat)
    requires |field| == FIELD_SIZE && pvd + SECTOR <= |img|
    ensures Hashed(WithField(img, pvd, field), pvd) == Hashed(img, pvd)
  {
    SameSize(img, field, pvd);
    FieldOverwritten(img, pvd, field, Blanks());
  }

  /** Only the 512 bytes of the field change. */
  lemma {:induction false} ImplantFrame(hash: Hash, img: seq<byte>, supported: bool, forceit: bool)
    requires Implanted(hash, img, supported, forceit).Done?
    ensures
      var pvd := FindPvd(img, FIRST_DESCRIPTOR).value;
      var image := Implanted(hash, img, supported, forceit).image;
      && |image| == |img|
      && forall k :: 0 <= k < |img| && !(pvd + APPDATA_OFFSET <= k < pvd + APPDATA_OFFSET + FIELD_SIZE) ==>
        image[k] == img[k]
  {
  }

  /** An image is implanted exactly when its size is below 2^31 sectors and its field is blank, or force is used. */
  lemma {:induction false} ImplantsExactly(hash: Hash, img: seq<byte>, supported: bool, forceit: bool, pvd: nat)
    requires FindPvd(img, FIRST_DESCRIPTOR) == Some(pvd)
    ensures Implanted(hash, img, supported, forceit).Done?
       <==> img[pvd + 84] < 128 && (forceit || forall k :: pvd + 883 <= k < pvd + 1395 ==> img[k] == 32)
  {
    hide ImplantedField, FindPvd, IsoSize, WithField, FieldOf;
    DescriptorFields(img, pvd);
    if FieldOf(img, pvd) == Spaces(FIELD_SIZE) {
      forall k | pvd + 883 <= k < pvd + 1395
        ensures img[k] == 32
      {
        assert FieldOf(img, pvd)[k - pvd - 883] == ' ';
      }
    } else {
      var k :| 0 <= k < 512 && FieldOf(img, pvd)[k] != Spaces(FIELD_SIZE)[k];
      assert img[pvd + 883 + k] != 32;
    }
  }

  lemma {:induction false} SameField(hash: Hash, img: seq<byte>, field: seq<byte>, pvd: nat, supported: bool)
    requires |field| == FIELD_SIZE && pvd + SECTOR <= |img|
    ensures ImplantedField(hash, WithField(img, pvd, field), pvd, supported)
         == ImplantedField(hash, img, pvd, supported)
  {
    hide WithField, Hashed, IsoSize, Field;
    SameSize(img, field, pvd);
    SameHashed(img, field, pvd);
  }

  lemma {:induction false} ImplantedFieldStarts(hash: Hash, img: seq<byte>, pvd: nat, supported: bool)
    requires pvd + SECTOR <= |img|
    ensures ImplantedField(hash, img, pvd, supported)[0] == 'I'
  {
    hide Hashed, Fragments, Field;
    FieldStartsWithKey(HexString(hash(Hashed(img, pvd))), supported, Fragments(hash, img, pvd));
  }

  /** A second implant is refused unless forced, and a forced one with the same flag changes nothing. */
  lemma {:induction false} ImplantTwice(hash: Hash, img: seq<byte>, supported: bool, forceit: bool, again: bool)
    requires Implanted(hash, img, supported, forceit).Done?
    ensures
      var image := Implanted(hash, img, supported, forceit).image;
      && Implanted(hash, image, again, false) == InUse
      && Implanted(hash, image, supported, true) == Done(image)
  {
    hide FindPvd, WithField, ImplantedField, FieldOf, SizeOverflows;
    var pvd := FindPvd(img, FIRST_DESCRIPTOR).value;
    var field := ImplantedField(hash, img, pvd, supported);
    var image := WithField(img, pvd, Octets(field));
    SamePvd(img, Octets(field), pvd, FIRST_DESCRIPTOR);
    ImplantedFieldLatin(hash, img, pvd, supported);
    FieldReadBack(img, field, pvd);
    ImplantedFieldStarts(hash, img, pvd, supported);
    assert Spaces(FIELD_SIZE)[0] == ' ';
    SameSize(img, Octets(field), pvd);
    SameField(hash, img, Octets(field), pvd, supported);
    FieldOverwritten(img, pvd, Octets(field), Octets(field));
  }

  lemma {:induction false} FieldStartsWithKey(sum: string, supported: bool, frags: string)
    requires |sum| == 32 && |frags| <= FRAGMENT_SUM_LENGTH
    ensures Field(sum, supported, frags)[0] == 'I'
  {
    assert SumEntry(sum)[0] == 'I';
  }

  // ---------- masking ----------

  /** `img` is `base` with at most `t` other bytes at the start of a field that is blank in `base`. */
  ghost predicate TextIn(img: seq<byte>, base: seq<byte>, apoff: nat, t: nat)
  {
    && |img| == |base| && apoff + FIELD_SIZE <= |base| && t <= FIELD_SIZE
    && (forall k :: apoff <= k < apoff + FIELD_SIZE ==> base[k] == 32)
    && (forall k :: 0 <= k < |base| && !(apoff <= k < apoff + t) ==> img[k] == base[k])
  }

  lemma {:induction false} ImplantedText(hash: Hash, img: seq<byte>, pvd: nat, supported: bool)
    requires pvd + SECTOR <= |img|
    ensures TextIn(WithField(img, pvd, Octets(ImplantedField(hash, img, pvd, supported))),
                   WithField(img, pvd, Blanks()), pvd + APPDATA_OFFSET, 227)
  {
    hide FragsFrom, FieldText;
    var field := ImplantedField(hash, img, pvd, supported);
    forall k | 227 <= k < FIELD_SIZE
      ensures Octets(field)[k] == 32
    {
      assert field[k] == ' ';
    }
    var apoff := pvd + APPDATA_OFFSET;
    var image, base := WithField(img, pvd, Octets(field)), WithField(img, pvd, Blanks());
    forall k | 0 <= k < |base| && !(apoff <= k < apoff + 227)
      ensures image[k] == base[k]
    {
      if apoff <= k < apoff + FIELD_SIZE {
        assert image[k] == Octets(field)[k - apoff];
      }
    }
  }

  /** A mask that covers the text, or all of the field that was read, restores the blank bytes. */
  lemma {:induction false} MaskRestores(img: seq<byte>, base: seq<byte>, apoff: nat, t: nat, off: nat, n: nat)
    requires TextIn(img, base, apoff, t) && off + n <= |base| && !MaskOf(off, n, apoff).Wrapped?
    requires off < apoff <= off + n ==> MaskOf(off, n, apoff).len >= Min(t, off + n - apoff)
    ensures Masked(img[off..off + n], MaskOf(off, n, apoff)) == base[off..off + n]
  {
    var mask := MaskOf(off, n, apoff);
    var chunk, fed := img[off..off + n], Masked(img[off..off + n], mask);
    forall k | 0 <= k < n
      ensures fed[k] == base[off + k]
    {
      if mask.Range? && mask.start <= k < mask.start + mask.len {
        assert fed[k] == Octets(Spaces(mask.len))[k - mask.start];
      } else {
        assert fed[k] == chunk[k];
      }
    }
    assert fed == base[off..off + n];
  }

  /** The chunk in which the descriptor lies. */
  function DescriptorChunk(pvd: nat): (off: nat)
    ensures off % CHUNK == 0 && off <= pvd < off + CHUNK
  {
    pvd - pvd % CHUNK
  }

  /** In sectors: the descriptor is the r-th of its chunk, of which m are hashed, and r < m <= 2r. */
  predicate MaskOverruns(extent: nat, pvd: nat)
  {
    var first := DescriptorChunk(pvd);
    first < extent
    && (pvd - first) / SECTOR < Min(CHUNK, extent - first) / SECTOR <= 2 * ((pvd - first) / SECTOR)
  }

  lemma {:induction false} SectorOffsets(off: nat, pvd: nat)
    requires off % CHUNK == 0 && pvd % SECTOR == 0
    ensures pvd < off || off + CHUNK <= pvd || off == DescriptorChunk(pvd)
    ensures off + CHUNK <= pvd || off <= pvd || off >= pvd + SECTOR
  {
    hide DescriptorChunk;
    ChunkCases(off / CHUNK, DescriptorChunk(pvd) / CHUNK, pvd / SECTOR);
  }

  lemma {:induction false} ChunkCases(i: nat, j: nat, k: nat)
    requires 16 * j <= k < 16 * j + 16
    ensures k < 16 * i || 16 * i + 16 <= k || i == j
    ensures 16 * i + 16 <= k || 16 * i <= k || 16 * i >= k + 1
  {
  }

  /** With the descriptor on a sector boundary the length of the fill wraps exactly when the mask overruns. */
  lemma {:induction false} SectorMask(off: nat, n: nat, pvd: nat, extent: nat)
    requires off % CHUNK == 0 && pvd % SECTOR == 0 && extent % SECTOR == 0
    requires off < extent && n == Min(CHUNK, extent - off)
    ensures
      var mask, apoff := MaskOf(off, n, pvd + APPDATA_OFFSET), pvd + APPDATA_OFFSET;
      && (mask.Wrapped? <==> off == DescriptorChunk(pvd) && MaskOverruns(extent, pvd))
      && (!mask.Wrapped? && off < apoff <= off + n ==> mask.len >= 282)
  {
    SectorOffsets(off, pvd);
    var apoff := pvd + APPDATA_OFFSET;
    if off == DescriptorChunk(pvd) {
      var r, m := (pvd - off) / SECTOR, n / SECTOR;
      SectorMultiple(off, pvd, r);
      SectorMultiple(off, extent, (extent - off) / SECTOR);
      assert n == SECTOR * m;
      assert apoff - off == SECTOR * r + APPDATA_OFFSET;
    } else {
      assert MaskOf(off, n, apoff) == Nothing;
    }
  }

  lemma {:induction false} SectorMultiple(off: nat, end: nat, q: nat)
    requires off % CHUNK == 0 && end % SECTOR == 0 && off <= end && q == (end - off) / SECTOR
    ensures end - off == SECTOR * q
  {
    var i, j := off / CHUNK, end / SECTOR;
    assert end - off == SECTOR * (j - 16 * i);
  }

  // ---------- implant, then check ----------

  /** While all twenty fragments are still owed, every transition goes to the next one. */
  lemma {:induction false} FragmentsInOrder(hash: Hash, index: nat -> nat, m: seq<byte>, off: nat, prev: nat)
    requires Staged(index, |m|) && prev <= FRAGMENT_COUNT && off < |m| && prev <= index(off)
    requires |FragsFrom(hash, index, m, off, prev)| == 3 * (FRAGMENT_COUNT - prev)
    ensures
      var n := Min(CHUNK, |m| - off);
      && (index(off) == prev || index(off) == prev + 1)
      && |FragsFrom(hash, index, m, off + n, index(off))| == 3 * (FRAGMENT_COUNT - index(off))
      && (index(off) == prev ==> FragsFrom(hash, index, m, off, prev) == FragsFrom(hash, index, m, off + n, prev))
      && (index(off) != prev ==>
            (FragsFrom(hash, index, m, off, prev)
             == LeadingDigits(hash(m[..off + n]), 3) + FragsFrom(hash, index, m, off + n, index(off))))
      && (off + n < |m| ==> index(off) <= index(off + n))
  {
    var n := Min(CHUNK, |m| - off);
    assert off + n < |m| ==> index(off) <= index(off + n);
    FragsBound(hash, index, m, off + n, index(off));
  }

  /** The comparison on entering fragment `prev + 1`: the three characters kept for it against those of the digest. */
  lemma {:induction false} ComparesExactly(values: Values, sum: Sum, prev: nat, buffer: FragBuffer)
    requires values.fragmentcount == FRAGMENT_COUNT && prev < FRAGMENT_COUNT
    requires |values.fragmentsums| == FRAGMENT_SUM_LENGTH
    requires prev > 0 ==> buffer[3] == NUL
    ensures
      var c := CompareFragment(values, sum, prev + 1, buffer);
      && c.Compared? && c.thisfragsum[3] == NUL
      && (c.same <==> values.fragmentsums[3 * prev..3 * prev + 3] == LeadingDigits(sum, 3))
  {
    assert Quotient(FRAGMENT_SUM_LENGTH, FRAGMENT_COUNT) == 3;
    assert Quotient(prev * FRAGMENT_SUM_LENGTH, FRAGMENT_COUNT) == 3 * prev;
    var copied := values.fragmentsums[3 * prev..3 * prev + 3] + buffer[3..];
    assert copied[3 * prev + 3 := NUL][..3] == values.fragmentsums[3 * prev..3 * prev + 3];
  }

  /** What the implanted image gives the checker to work on. */
  ghost predicate Prepared(hash: Hash, job: Job, pvd: nat, base: seq<byte>, m: seq<byte>)
  {
    && job.apoff == pvd + APPDATA_OFFSET && pvd % SECTOR == 0 && job.total <= 0x800_0000_0000
    && TextIn(job.img, base, job.apoff, 227)
    && |m| == Extent(job.img, job.total) && |m| % SECTOR == 0 && m == base[..|m|]
    && job.values.mediasum == HexString(hash(m))
    && (job.values.fragmentcount == 0 || job.values.fragmentcount == FRAGMENT_COUNT)
    && (job.values.fragmentcount != 0 ==> |job.values.fragmentsums| == FRAGMENT_SUM_LENGTH)
    && forall off :: !job.abort(off, job.total)
  }

  /** The checker, about to read at `off`, has compared the first `prev` fragments. */
  ghost predicate InStep(hash: Hash, job: Job, m: seq<byte>, index: nat -> nat, off: nat, prev: nat, buffer: FragBuffer)
  {
    job.values.fragmentcount != 0 ==>
      && prev <= FRAGMENT_COUNT && (off < |m| ==> prev <= index(off))
      && |job.values.fragmentsums| == FRAGMENT_SUM_LENGTH
      && |FragsFrom(hash, index, m, off, prev)| == 3 * (FRAGMENT_COUNT - prev)
      && job.values.fragmentsums[3 * prev..] == FragsFrom(hash, index, m, off, prev)
      && (prev > 0 ==> buffer[3] == NUL)
  }

  /** On a new fragment the digits kept for the implanted image meet those of `sum`. */
  lemma {:induction false} StaysInStep(hash: Hash, job: Job, m: seq<byte>, index: nat -> nat, off: nat, prev: nat,
                                       buffer: FragBuffer, sum: Sum)
    requires job.values.fragmentcount == FRAGMENT_COUNT && |job.values.fragmentsums| == FRAGMENT_SUM_LENGTH
    requires Staged(index, |m|) && off < |m| && InStep(hash, job, m, index, off, prev, buffer)
    ensures
      var n := Min(CHUNK, |m| - off);
      if index(off) == prev then InStep(hash, job, m, index, off + n, prev, buffer)
      else
        var c := CompareFragment(job.values, sum, index(off), buffer);
        && c.Compared? && (c.same <==> LeadingDigits(hash(m[..off + n]), 3) == LeadingDigits(sum, 3))
        && InStep(hash, job, m, index, off + n, index(off), c.thisfragsum)
  {
    hide CompareFragment, FragsFrom, LeadingDigits, Staged;
    var n := Min(CHUNK, |m| - off);
    FragmentsInOrder(hash, index, m, off, prev);
    if index(off) != prev {
      var sums, digits := job.values.fragmentsums, LeadingDigits(hash(m[..off + n]), 3);
      assert sums[3 * prev..3 * prev + 3] == sums[3 * prev..][..3] == digits;
      assert sums[3 * (prev + 1)..] == sums[3 * prev..][3..];
      ComparesExactly(job.values, sum, prev, buffer);
    }
  }

  lemma {:induction false} IndexAgrees(job: Job, off: nat)
    requires job.values.fragmentcount == FRAGMENT_COUNT && off < job.total <= 0x800_0000_0000
    ensures FragmentOf(job, off) == Some(FragmentIndex(job.total)(off))
  {
    IndexStaged(job.total);
  }

  /** A pass without fragments: the chunk is hashed. */
  lemma {:induction false} ChunkWithout(hash: Hash, job: Job, fed: seq<byte>, fed': seq<byte>, off: nat, n: nat,
                                        prev: int, buffer: FragBuffer)
    requires off < job.total && off + n <= |job.img| && job.values.fragmentcount == 0 && !job.abort(off + n, job.total)
    requires !MaskOf(off, n, job.apoff).Wrapped?
      && fed' == fed + Masked(job.img[off..off + n], MaskOf(off, n, job.apoff))
    ensures CheckChunk(hash, job, fed, off, n, prev, buffer) == Went(fed', prev, buffer)
  {
    hide MaskOf, Masked, CompareFragment, FragmentOf;
  }

  /** A pass with fragments: the chunk is hashed and, in a new fragment, compared. */
  lemma {:induction false} ChunkWith(hash: Hash, job: Job, fed: seq<byte>, fed': seq<byte>, off: nat, n: nat,
                                     prev: int, buffer: FragBuffer)
    requires off < job.total && off + n <= |job.img| && job.values.fragmentcount != 0 && !job.abort(off + n, job.total)
    requires FragmentOf(job, off).Some?
    requires !MaskOf(off, n, job.apoff).Wrapped?
      && fed' == fed + Masked(job.img[off..off + n], MaskOf(off, n, job.apoff))
    ensures
      var p, current := CheckChunk(hash, job, fed, off, n, prev, buffer), FragmentOf(job, off).value;
      if current == prev then p == Went(fed', prev, buffer)
      else
        var c := CompareFragment(job.values, hash(fed'), current, buffer);
        c.Compared? && c.same ==> p == Went(fed', current, c.thisfragsum)
  {
    hide MaskOf, Masked, CompareFragment, FragmentOf;
  }

  /** Without fragments there is nothing to be in step with. */
  lemma {:induction false} AlwaysInStep(hash: Hash, job: Job, m: seq<byte>, index: nat -> nat, off: nat, prev: nat,
                                        buffer: FragBuffer)
    requires job.values.fragmentcount == 0
    ensures InStep(hash, job, m, index, off, prev, buffer)
  {
  }

  /** One chunk of the check of an implanted image. */
  lemma {:induction false} CheckStep(hash: Hash, job: Job, pvd: nat, base: seq<byte>, m: seq<byte>, off: nat, n: nat,
                                     prev: nat, buffer: FragBuffer)
    requires Prepared(hash, job, pvd, base, m) && Staged(FragmentIndex(job.total), |m|)
    requires off % CHUNK == 0 && off < |m| && n == Min(CHUNK, |m| - off)
    requires !(off == DescriptorChunk(pvd) && MaskOverruns(|m|, pvd))
    requires InStep(hash, job, m, FragmentIndex(job.total), off, prev, buffer)
    ensures
      var p := CheckChunk(hash, job, m[..off], off, n, prev, buffer);
      && p.Went? && p.fed == m[..off + n] && p.prev >= 0
      && InStep(hash, job, m, FragmentIndex(job.total), off + n, p.prev, p.thisfragsum)
  {
    hide FragsFrom, CompareFragment, MaskOverruns, FragmentIndex, FragmentOf, MaskOf, Masked, InStep, Staged,
      LeadingDigits, CheckChunk;
    SectorMask(off, n, pvd, |m|);
    MaskRestores(job.img, base, job.apoff, 227, off, n);
    assert m[..off + n] == m[..off] + base[off..off + n];
    if job.values.fragmentcount == 0 {
      ChunkWithout(hash, job, m[..off], m[..off + n], off, n, prev, buffer);
      AlwaysInStep(hash, job, m, FragmentIndex(job.total), off + n, prev, buffer);
    } else {
      IndexAgrees(job, off);
      ChunkWith(hash, job, m[..off], m[..off + n], off, n, prev, buffer);
      StaysInStep(hash, job, m, FragmentIndex(job.total), off, prev, buffer, hash(m[..off + n]));
    }
  }

  lemma {:induction false} CheckRuns(hash: Hash, job: Job, pvd: nat, base: seq<byte>, m: seq<byte>, off: nat, prev: nat,
                                     buffer: FragBuffer)
    requires Prepared(hash, job, pvd, base, m) && Staged(FragmentIndex(job.total), |m|)
    requires off <= |m| && (off < |m| ==> off % CHUNK == 0)
    requires InStep(hash, job, m, FragmentIndex(job.total), off, prev, buffer)
    ensures CheckFrom(hash, job, m[..off], off, prev, buffer)
         == if MaskOverruns(|m|, pvd) && off <= DescriptorChunk(pvd) then Undefined else Passed
    decreases |m| - off
  {
    hide CheckChunk, InStep, TextIn, FragmentIndex, MaskOverruns, Staged;
    var n := Min(CHUNK, |m| - off);
    if off == |m| {
      assert m[..off] == m;
      NothingLeft(|m|, pvd);
    } else if off == DescriptorChunk(pvd) && MaskOverruns(|m|, pvd) {
      WrapsInChunk(hash, job, pvd, m, off, n, prev, buffer);
    } else {
      CheckStep(hash, job, pvd, base, m, off, n, prev, buffer);
      var p := CheckChunk(hash, job, m[..off], off, n, prev, buffer);
      NextChunk(off, n, |m|, pvd);
      CheckRuns(hash, job, pvd, base, m, off + n, p.prev, p.thisfragsum);
    }
  }

  lemma {:induction false} NothingLeft(extent: nat, pvd: nat)
    ensures MaskOverruns(extent, pvd) ==> DescriptorChunk(pvd) < extent
  {
  }

  lemma {:induction false} WrapsInChunk(hash: Hash, job: Job, pvd: nat, m: seq<byte>, off: nat, n: nat, prev: nat,
                                        buffer: FragBuffer)
    requires job.apoff == pvd + APPDATA_OFFSET && pvd % SECTOR == 0 && |m| % SECTOR == 0
      && |m| == Extent(job.img, job.total)
    requires off % CHUNK == 0 && off < |m| && n == Min(CHUNK, |m| - off)
    requires off == DescriptorChunk(pvd) && MaskOverruns(|m|, pvd)
    ensures CheckChunk(hash, job, m[..off], off, n, prev, buffer) == Ended(Undefined)
  {
    hide MaskOf, FragmentOf, CompareFragment;
    SectorMask(off, n, pvd, |m|);
  }

  lemma {:induction false} NextChunk(off: nat, n: nat, extent: nat, pvd: nat)
    requires off % CHUNK == 0 && off < extent && n == Min(CHUNK, extent - off)
    ensures off + n < extent ==> (off + n) % CHUNK == 0
    ensures MaskOverruns(extent, pvd) && off != DescriptorChunk(pvd)
        ==> (off <= DescriptorChunk(pvd) <==> off + n <= DescriptorChunk(pvd))
  {
    var i, j := off / CHUNK, DescriptorChunk(pvd) / CHUNK;
    assert off == CHUNK * i && DescriptorChunk(pvd) == CHUNK * j;
  }

  /** Descriptors are looked for at sector boundaries. */
  lemma {:induction false} PvdAligned(img: seq<byte>)
    requires FindPvd(img, FIRST_DESCRIPTOR).Some?
    ensures FindPvd(img, FIRST_DESCRIPTOR).value % SECTOR == 0
  {
    var d := FindPvd(img, FIRST_DESCRIPTOR).value - FIRST_DESCRIPTOR;
    assert d == SECTOR * (d / SECTOR);
    assert FIRST_DESCRIPTOR + d == SECTOR * (16 + d / SECTOR);
  }

  lemma {:induction false} ExtentAligned(img: seq<byte>, pvd: nat)
    requires pvd + SECTOR <= |img| && IsoSize(img, pvd) <= |img|
    ensures Extent(img, IsoSize(img, pvd) - SKIPSECTORS * SECTOR) % SECTOR == 0
  {
    var size := IsoSize(img, pvd);
    assert size == SECTOR * (size / SECTOR);
    assert size - SKIPSECTORS * SECTOR == SECTOR * (size / SECTOR - SKIPSECTORS);
  }

  /** The job the checker makes of an implanted image is prepared for it. */
  lemma {:induction false} ImplantPrepares(hash: Hash, img: seq<byte>, pvd: nat, supported: bool,
                                           abort: (int, int) -> bool)
    returns (job: Job)
    requires FindPvd(img, FIRST_DESCRIPTOR) == Some(pvd) && IsoSize(img, pvd) <= |img|
    requires forall off, total :: !abort(off, total)
    ensures
      var image := WithField(img, pvd, Octets(ImplantedField(hash, img, pvd, supported)));
      var parse := ParseField(FieldOf(image, pvd));
      var total := IsoSize(img, pvd) - SKIPSECTORS * SECTOR;
      && parse.Parsed? && parse.values.skipsectors == SKIPSECTORS
      && job == Job(image, pvd + APPDATA_OFFSET, total, parse.values, abort)
      && Prepared(hash, job, pvd, WithField(img, pvd, Blanks()), Hashed(img, pvd))
      && (parse.values.fragmentcount != 0 ==> parse.values.fragmentsums == Fragments(hash, img, pvd))
  {
    hide FragsFrom, Field, ScanFrom, FieldOf;
    var sum, frags := HexString(hash(Hashed(img, pvd))), Fragments(hash, img, pvd);
    var field := Field(sum, supported, frags);
    var image := WithField(img, pvd, Octets(field));
    ImplantedFieldLatin(hash, img, pvd, supported);
    FieldReadBack(img, field, pvd);
    ParseUndoesPrint(sum, supported, frags);
    var values := ParseField(field).values;
    job := Job(image, pvd + APPDATA_OFFSET, IsoSize(img, pvd) - SKIPSECTORS * SECTOR, values, abort);
    ImplantedText(hash, img, pvd, supported);
    PvdAligned(img);
    ExtentAligned(img, pvd);
  }

  /**
   * For every image of at least its declared size, a successful implant followed by an undisturbed check
   * passes, unless the fill over the field wraps around; then the check has no defined outcome.
   */
  lemma {:induction false} ImplantThenCheck(hash: Hash, img: seq<byte>, supported: bool, forceit: bool,
                                            abort: (int, int) -> bool, stack: FragBuffer)
    requires Implanted(hash, img, supported, forceit).Done?
    requires IsoSize(img, FindPvd(img, FIRST_DESCRIPTOR).value) <= |img|
    requires forall off, total :: !abort(off, total)
    ensures
      var pvd := FindPvd(img, FIRST_DESCRIPTOR).value;
      Check(hash, Implanted(hash, img, supported, forceit).image, abort, stack)
      == if MaskOverruns(|Hashed(img, pvd)|, pvd) then Undefined else Passed
  {
    hide FragsFrom, Field, CheckFrom, ScanFrom, MaskOverruns, FieldOf, ImplantedField, IsoSize, WithField, InStep,
      Hashed, FragmentIndex, TextIn;
    var pvd := FindPvd(img, FIRST_DESCRIPTOR).value;
    var field := Octets(ImplantedField(hash, img, pvd, supported));
    SamePvd(img, field, pvd, FIRST_DESCRIPTOR);
    SameSize(img, field, pvd);
    var job := ImplantPrepares(hash, img, pvd, supported, abort);
    var m, index := Hashed(img, pvd), FragmentIndex(job.total);
    IndexStaged(job.total);
    StartsInStep(hash, job, m, index, Fragments(hash, img, pvd), stack);
    CheckRuns(hash, job, pvd, WithField(img, pvd, Blanks()), m, 0, 0, stack);
    assert m[..0] == [];
  }

  lemma {:induction false} StartsInStep(hash: Hash, job: Job, m: seq<byte>, index: nat -> nat, frags: string,
                                        stack: FragBuffer)
    requires frags == FragsFrom(hash, index, m, 0, 0)
    requires job.values.fragmentcount != 0 ==> |frags| == FRAGMENT_SUM_LENGTH && job.values.fragmentsums == frags
    ensures InStep(hash, job, m, index, 0, 0, stack)
  {
    hide FragsFrom;
    assert job.values.fragmentsums[3 * 0..] == job.values.fragmentsums;
  }

  /** With the descriptor in sector 16, where ISO 9660 puts it, the check of an implanted image always passes. */
  lemma {:induction false} ImplantThenCheckPasses(hash: Hash, img: seq<byte>, supported: bool, forceit: bool,
                                                  abort: (int, int) -> bool, stack: FragBuffer)
    requires Implanted(hash, img, supported, forceit).Done? && img[FIRST_DESCRIPTOR] == 1
    requires IsoSize(img, FIRST_DESCRIPTOR) <= |img|
    requires forall off, total :: !abort(off, total)
    ensures Check(hash, Implanted(hash, img, supported, forceit).image, abort, stack) == Passed
  {
    hide Check, MaskOf;
    assert FindPvd(img, FIRST_DESCRIPTOR) == Some(FIRST_DESCRIPTOR);
    assert DescriptorChunk(FIRST_DESCRIPTOR) == FIRST_DESCRIPTOR;
    ImplantThenCheck(hash, img, supported, forceit, abort, stack);
  }

  lemma {:induction false} OverflowsWhen(hash: Hash, img: seq<byte>, supported: bool, forceit: bool)
    requires FIRST_DESCRIPTOR + SECTOR <= |img| && img[FIRST_DESCRIPTOR] == 1
    ensures Implanted(hash, img, supported, forceit) == Overflow <==> SizeOverflows(img, FIRST_DESCRIPTOR)
  {
    hide ImplantedField, FieldOf;
    assert FindPvd(img, FIRST_DESCRIPTOR) == Some(FIRST_DESCRIPTOR);
  }

  /** The two programs run one after the other, on hosts of any byte order. */
  method ImplantAndCheck(compress: Rfc1321.Compression, implantBig: bool, checkBig: bool, img: array<byte>,
                         supported: bool, forceit: bool, abort: (int, int) -> bool, stack: FragBuffer)
    returns (defined: bool, rc: int, v: Verdict)
    requires FIRST_DESCRIPTOR + SECTOR <= img.Length && img[FIRST_DESCRIPTOR] == 1
    requires IsoSize(img[..], FIRST_DESCRIPTOR) <= img.Length
    requires forall off, total :: !abort(off, total)
    modifies img
    ensures defined <==> !SizeOverflows(old(img[..]), FIRST_DESCRIPTOR)
    ensures defined && rc == 0 ==> v == Passed
    ensures defined && rc != 0 ==> img[..] == old(img[..])
  {
    hide Implanted, Check;
    defined, rc := ImplantIsoFile(compress, implantBig, img, supported, forceit);
    v := CheckMd5Sum(compress, checkBig, img[..], abort, stack);
    OverflowsWhen(Md5Of(compress), old(img[..]), supported, forceit);
    if defined && rc == 0 {
      ImplantThenCheckPasses(Md5Of(compress), old(img[..]), supported, forceit, abort, stack);
    }
  }

  // ---------- fragment arithmetic ----------

  lemma {:induction false} QuotientIs(a: nat, d: nat, q: nat)
    requires 0 < d && q * d <= a < (q + 1) * d
    ensures a / d == q
  {
    var p := a / d;
    assert p * d <= a < (p + 1) * d;
    MultiplyCancels(p, q + 1, d);
    MultiplyCancels(q, p + 1, d);
  }

  /** Just above twenty chunks, the k-th chunk starts in fragment k. */
  lemma {:induction false} IndexOfChunk(total: int, k: nat)
    requires 20 * CHUNK < total < 21 * CHUNK && k <= 20
    ensures FragmentIndex(total)(k * CHUNK) == k
  {
    assert k * total <= k * (21 * CHUNK);
    assert (k + 1) * (20 * CHUNK + 1) <= (k + 1) * total;
    QuotientIs(k * CHUNK * 21, total, k);
  }

  lemma {:induction false} IndexStepWide(total: int, off: nat)
    requires 21 * CHUNK <= total
    ensures FragmentIndex(total)(off + CHUNK) <= FragmentIndex(total)(off) + 1
  {
    var q, f := 21 * off / total, 21 * (off + CHUNK) / total;
    assert 21 * off < (q + 1) * total;
    assert (q + 2) * total == (q + 1) * total + total;
    assert f * total <= 21 * (off + CHUNK);
    MultiplyCancels(f, q + 2, total);
  }

  /** Above twenty chunks, no fragment is stepped over. */
  lemma {:induction false} IndexStep(total: int, off: nat)
    requires 20 * CHUNK < total && off % CHUNK == 0 && off + CHUNK < total
    ensures FragmentIndex(total)(off) <= FragmentIndex(total)(off + CHUNK) <= FragmentIndex(total)(off) + 1
  {
    hide FragmentIndex;
    IndexStaged(total);
    if total < 21 * CHUNK {
      var k := off / CHUNK;
      assert off == k * CHUNK && off + CHUNK == (k + 1) * CHUNK;
      IndexOfChunk(total, k);
      IndexOfChunk(total, k + 1);
    } else {
      IndexStepWide(total, off);
    }
  }

  /** Above twenty chunks, the last chunk starts in fragment twenty. */
  lemma {:induction false} LastIndex(total: int, off: nat)
    requires 20 * CHUNK < total && off % CHUNK == 0 && off < total <= off + CHUNK
    ensures FragmentIndex(total)(off) == FRAGMENT_COUNT
  {
    if total < 21 * CHUNK {
      assert off / CHUNK == 20;
      IndexOfChunk(total, 20);
    } else {
      QuotientIs(21 * off, total, 20);
    }
  }

  /** Up to twenty chunks, every chunk after the first starts in a later fragment. */
  lemma {:induction false} IndexMoves(total: int, off: nat)
    requires 0 < total <= 20 * CHUNK && off + CHUNK < total
    ensures FragmentIndex(total)(off) < FragmentIndex(total)(off + CHUNK)
  {
    var q := 21 * off / total;
    assert q * total <= 21 * off;
    assert (q + 1) * total == q * total + total;
    var f := 21 * (off + CHUNK) / total;
    assert 21 * (off + CHUNK) < (f + 1) * total;
    MultiplyCancels(q + 1, f + 1, total);
  }

  lemma {:induction false} AllFragments(hash: Hash, m: seq<byte>, off: nat, prev: nat)
    requires 20 * CHUNK < |m| && off % CHUNK == 0 && off < |m| + CHUNK
    requires off == 0 ==> prev == 0
    requires off > 0 ==> prev == FragmentIndex(|m|)(off - CHUNK)
    ensures |FragsFrom(hash, FragmentIndex(|m|), m, off, prev)| == 3 * (FRAGMENT_COUNT - prev)
    decreases |m| + CHUNK - off
  {
    hide FragmentIndex;
    var index := FragmentIndex(|m|);
    if off >= |m| {
      LastIndex(|m|, off - CHUNK);
    } else {
      if off > 0 {
        IndexStep(|m|, off - CHUNK);
      } else {
        StartIndex(|m|);
      }
      if off + CHUNK <= |m| {
        AllFragments(hash, m, off + CHUNK, index(off));
      } else {
        LastIndex(|m|, off);
      }
    }
  }

  lemma {:induction false} StartIndex(total: int)
    ensures FragmentIndex(total)(0) == 0
  {
  }

  lemma {:induction false} SomeFragments(hash: Hash, m: seq<byte>, off: nat, prev: nat)
    requires 0 < |m| <= 20 * CHUNK && off % CHUNK == 0 && CHUNK <= off
    requires off < |m| ==> prev == FragmentIndex(|m|)(off - CHUNK)
    ensures |FragsFrom(hash, FragmentIndex(|m|), m, off, prev)|
         == if off < |m| then 3 * ((|m| - 1 - off) / CHUNK + 1) else 0
    decreases |m| - off
  {
    hide FragmentIndex;
    if off < |m| {
      IndexMoves(|m|, off - CHUNK);
      if off + CHUNK < |m| {
        SomeFragments(hash, m, off + CHUNK, FragmentIndex(|m|)(off));
        assert (|m| - 1 - off) / CHUNK == (|m| - 1 - (off + CHUNK)) / CHUNK + 1;
      }
    }
  }

  /** The fragment string has all sixty characters exactly when more than twenty chunks are hashed. */
  lemma {:induction false} FragmentStringLength(hash: Hash, m: seq<byte>)
    requires m != []
    ensures |FragsFrom(hash, FragmentIndex(|m|), m, 0, 0)|
         == if |m| > 20 * CHUNK then FRAGMENT_SUM_LENGTH else 3 * ((|m| - 1) / CHUNK)
    ensures |m| <= 20 * CHUNK ==> 3 * ((|m| - 1) / CHUNK) <= 57
  {
    hide FragmentIndex;
    if |m| > 20 * CHUNK {
      AllFragments(hash, m, 0, 0);
    } else {
      StartIndex(|m|);
      if CHUNK < |m| {
        SomeFragments(hash, m, CHUNK, 0);
        assert (|m| - 1) / CHUNK == (|m| - 1 - CHUNK) / CHUNK + 1;
      }
    }
  }

  // ---------- the mask over the whole image ----------

  /** In the chunk where the field starts, the mask is exact just when twice the lead and the field fit into it. */
  lemma {:induction false} FirstBranchExact(off: nat, n: nat, apoff: nat)
    requires off < apoff <= off + n
    ensures MaskOf(off, n, apoff) == Range(apoff - off, Min(FIELD_SIZE, off + n - apoff))
       <==> 2 * (apoff - off) + FIELD_SIZE <= n
  {
  }

  /** The field is either not read at all or read in a chunk that masks all of it. */
  predicate MaskExact(extent: nat, pvd: nat)
  {
    var first := DescriptorChunk(pvd);
    var n, lead := Min(CHUNK, extent - first), pvd + APPDATA_OFFSET - first;
    extent <= first || n < lead || 2 * lead + FIELD_SIZE <= n
  }

  /** For the descriptor in sector 16: any size but one. */
  lemma {:induction false} MaskExactInSector16(extent: nat)
    requires extent % SECTOR == 0
    ensures MaskExact(extent, FIRST_DESCRIPTOR) <==> extent <= 32768 || 36864 <= extent
  {
    assert extent == SECTOR * (extent / SECTOR);
  }

  /** Chunk by chunk, the bytes hashed are those of the image with a blank field. */
  lemma {:induction false} MaskedChunk(img: seq<byte>, pvd: nat, extent: nat, off: nat, n: nat)
    requires pvd % SECTOR == 0 && pvd + SECTOR <= |img| && extent <= |img| && MaskExact(extent, pvd)
    requires off % CHUNK == 0 && off < extent && n == Min(CHUNK, extent - off)
    ensures
      var mask := MaskOf(off, n, pvd + APPDATA_OFFSET);
      !mask.Wrapped? && Masked(img[off..off + n], mask) == WithField(img, pvd, Blanks())[off..off + n]
  {
    var apoff := pvd + APPDATA_OFFSET;
    SectorOffsets(off, pvd);
    assert TextIn(img, WithField(img, pvd, Blanks()), apoff, FIELD_SIZE);
    if off < apoff <= off + n {
      FirstBranchExact(off, n, apoff);
    }
    MaskRestores(img, WithField(img, pvd, Blanks()), apoff, FIELD_SIZE, off, n);
  }

  /**
   * Whatever the fragments and the interruptions, a check that passes vouches for the masked image as a whole; without
   * either, the converse holds.
   */
  lemma {:induction false} ChunksMakeWhole(hash: Hash, job: Job, pvd: nat, off: nat, prev: int, buffer: FragBuffer)
    requires job.apoff == pvd + APPDATA_OFFSET && pvd % SECTOR == 0 && pvd + SECTOR <= |job.img|
    requires MaskExact(Extent(job.img, job.total), pvd)
    requires off <= Extent(job.img, job.total) && (off < Extent(job.img, job.total) ==> off % CHUNK == 0)
    ensures
      var base := WithField(job.img, pvd, Blanks());
      var passed := CheckFrom(hash, job, base[..off], off, prev, buffer) == Passed;
      var matches := job.values.mediasum == HexString(hash(base[..Extent(job.img, job.total)]));
      && (passed ==> matches)
      && (job.values.fragmentcount == 0 && (forall o :: !job.abort(o, job.total)) && matches ==> passed)
    decreases Extent(job.img, job.total) - off
  {
    hide CheckChunk, MaskExact, WithField;
    var base, extent := WithField(job.img, pvd, Blanks()), Extent(job.img, job.total);
    if off < extent {
      var n := Min(CHUNK, extent - off);
      ChunkOfWhole(hash, job, pvd, off, n, prev, buffer);
      var p := CheckChunk(hash, job, base[..off], off, n, prev, buffer);
      if p.Went? {
        NextChunk(off, n, extent, pvd);
        ChunksMakeWhole(hash, job, pvd, off + n, p.prev, p.thisfragsum);
      }
    }
  }

  /** One pass: it ends without success, or the next bytes of the masked image are hashed. */
  lemma {:induction false} ChunkOfWhole(hash: Hash, job: Job, pvd: nat, off: nat, n: nat, prev: int, buffer: FragBuffer)
    requires job.apoff == pvd + APPDATA_OFFSET && pvd % SECTOR == 0 && pvd + SECTOR <= |job.img|
    requires MaskExact(Extent(job.img, job.total), pvd) && off % CHUNK == 0 && off < Extent(job.img, job.total)
    requires n == Min(CHUNK, Extent(job.img, job.total) - off)
    ensures
      var base := WithField(job.img, pvd, Blanks());
      var p := CheckChunk(hash, job, base[..off], off, n, prev, buffer);
      && (p.Went? ==> p.fed == base[..off + n]) && (p.Ended? ==> p.verdict != Passed)
      && (job.values.fragmentcount == 0 && !job.abort(off + n, job.total) ==> p.Went?)
  {
    hide MaskOf, Masked, MaskExact, WithField, FragmentOf, CompareFragment;
    var base := WithField(job.img, pvd, Blanks());
    MaskedChunk(job.img, pvd, Extent(job.img, job.total), off, n);
    assert base[..off + n] == base[..off] + base[off..off + n];
  }

  /** If the check of an image passes, the sum in its field is the digest of the image with a blank field. */
  lemma {:induction false} PassedMeansWhole(hash: Hash, img: seq<byte>, abort: (int, int) -> bool, stack: FragBuffer)
    requires Check(hash, img, abort, stack) == Passed
    ensures FindPvd(img, FIRST_DESCRIPTOR).Some?
      && ParseField(FieldOf(img, FindPvd(img, FIRST_DESCRIPTOR).value)).Parsed?
    ensures
      var pvd := FindPvd(img, FIRST_DESCRIPTOR).value;
      var values := ParseField(FieldOf(img, pvd)).values;
      var extent := Extent(img, IsoSize(img, pvd) - values.skipsectors * SECTOR);
      MaskExact(extent, pvd) ==> values.mediasum == HexString(hash(WithField(img, pvd, Blanks())[..extent]))
  {
    hide CheckFrom, ScanFrom, MaskExact, WithField, FindPvd;
    var pvd := FindPvd(img, FIRST_DESCRIPTOR).value;
    var values := ParseField(FieldOf(img, pvd)).values;
    var job := Job(img, pvd + APPDATA_OFFSET, IsoSize(img, pvd) - values.skipsectors * SECTOR, values, abort);
    PvdAligned(img);
    if MaskExact(Extent(img, job.total), pvd) {
      var base := WithField(img, pvd, Blanks());
      assert base[..0] == [];
      ChunksMakeWhole(hash, job, pvd, 0, 0, stack);
    }
  }

  /** A job with values as the implanter writes them, undisturbed. */
  ghost predicate Plain(job: Job, pvd: nat)
  {
    && job.apoff == pvd + APPDATA_OFFSET && pvd % SECTOR == 0 && pvd + SECTOR <= |job.img|
    && job.total <= 0x800_0000_0000
    && (job.values.fragmentcount == 0 || job.values.fragmentcount == FRAGMENT_COUNT)
    && (job.values.fragmentcount != 0 ==> |job.values.fragmentsums| == FRAGMENT_SUM_LENGTH)
    && forall off :: !job.abort(off, job.total)
  }

  /** A pass over an image with an implanted field goes on or finds a fragment that differs. */
  lemma {:induction false} ChunkDecided(hash: Hash, job: Job, pvd: nat, fed: seq<byte>, off: nat, n: nat, prev: nat,
                                        buffer: FragBuffer)
    requires Plain(job, pvd) && MaskExact(Extent(job.img, job.total), pvd)
    requires off % CHUNK == 0 && off < Extent(job.img, job.total) && n == Min(CHUNK, Extent(job.img, job.total) - off)
    requires prev <= FragmentIndex(job.total)(off)
    ensures
      var p := CheckChunk(hash, job, fed, off, n, prev, buffer);
      p == Ended(Failed) || (p.Went? && 0 <= p.prev <= FragmentIndex(job.total)(off))
  {
    hide MaskOf, Masked, MaskExact, FragmentOf, CompareFragment, FragmentIndex;
    MaskedChunk(job.img, pvd, Extent(job.img, job.total), off, n);
    if job.values.fragmentcount != 0 {
      IndexAgrees(job, off);
      IndexStaged(job.total);
      var current := FragmentIndex(job.total)(off);
      if current != prev {
        var masked := Masked(job.img[off..off + n], MaskOf(off, n, job.apoff));
        ComparesWithin(job.values, hash(fed + masked), current, buffer);
      }
    }
  }

  lemma {:induction false} ComparesWithin(values: Values, sum: Sum, current: nat, buffer: FragBuffer)
    requires values.fragmentcount == FRAGMENT_COUNT && 0 < current <= FRAGMENT_COUNT
    requires |values.fragmentsums| == FRAGMENT_SUM_LENGTH
    ensures CompareFragment(values, sum, current, buffer).Compared?
  {
    assert Quotient(FRAGMENT_SUM_LENGTH, FRAGMENT_COUNT) == 3;
    assert Quotient((current - 1) * FRAGMENT_SUM_LENGTH, FRAGMENT_COUNT) == 3 * (current - 1);
  }

  lemma {:induction false} CheckDecided(hash: Hash, job: Job, pvd: nat, fed: seq<byte>, off: nat, prev: nat,
                                        buffer: FragBuffer)
    requires Plain(job, pvd) && MaskExact(Extent(job.img, job.total), pvd)
    requires off < Extent(job.img, job.total) ==> off % CHUNK == 0 && prev <= FragmentIndex(job.total)(off)
    ensures
      var v := CheckFrom(hash, job, fed, off, prev, buffer);
      v == Passed || v == Failed
    decreases Extent(job.img, job.total) - off
  {
    hide CheckChunk, MaskExact, FragmentIndex, Plain;
    var extent := Extent(job.img, job.total);
    if off < extent {
      var n := Min(CHUNK, extent - off);
      ChunkDecided(hash, job, pvd, fed, off, n, prev, buffer);
      var p := CheckChunk(hash, job, fed, off, n, prev, buffer);
      if p.Went? {
        NextChunk(off, n, extent, pvd);
        IndexStaged(job.total);
        CheckDecided(hash, job, pvd, p.fed, off + n, p.prev, p.thisfragsum);
      }
    }
  }

  /** An image that kept its implanted field but whose hashed bytes have another digest fails the check. */
  lemma {:induction false} DamageFails(hash: Hash, img: seq<byte>, supported: bool, pvd: nat, damaged: seq<byte>,
                                       abort: (int, int) -> bool, stack: FragBuffer)
    requires FindPvd(img, FIRST_DESCRIPTOR) == Some(pvd) && FindPvd(damaged, FIRST_DESCRIPTOR) == Some(pvd)
    requires FieldOf(damaged, pvd) == ImplantedField(hash, img, pvd, supported) && !SizeOverflows(damaged, pvd)
    requires MaskExact(|Hashed(damaged, pvd)|, pvd) && forall off, total :: !abort(off, total)
    requires hash(Hashed(damaged, pvd)) != hash(Hashed(img, pvd))
    ensures Check(hash, damaged, abort, stack) == Failed
  {
    hide CheckFrom, ScanFrom, MaskExact, WithField, FindPvd, FragmentIndex, HexString;
    var sum, frags := HexString(hash(Hashed(img, pvd))), Fragments(hash, img, pvd);
    ParseUndoesPrint(sum, supported, frags);
    var values := ParseField(FieldOf(damaged, pvd)).values;
    var job := Job(damaged, pvd + APPDATA_OFFSET, IsoSize(damaged, pvd) - SKIPSECTORS * SECTOR, values, abort);
    PvdAligned(damaged);
    StartIndex(job.total);
    CheckDecided(hash, job, pvd, [], 0, 0, stack);
    if Check(hash, damaged, abort, stack) == Passed {
      PassedMeansWhole(hash, damaged, abort, stack);
      HexStringInjective(hash(Hashed(img, pvd)), hash(Hashed(damaged, pvd)));
    }
  }

  /** What stays fixed while an image with the field of another one is checked: `m` was implanted, `m'` is read. */
  ghost predicate Rechecked(hash: Hash, job: Job, pvd: nat, m: seq<byte>, m': seq<byte>)
  {
    && Plain(job, pvd) && |m| == |m'| == Extent(job.img, job.total) && MaskExact(|m|, pvd)
    && m' == WithField(job.img, pvd, Blanks())[..|m|]
    && job.values.mediasum == HexString(hash(m)) && Staged(FragmentIndex(job.total), |m|)
  }

  /** One pass: the next bytes are hashed and, in a new fragment, the digits of both images compared. */
  lemma {:induction false} RecheckStep(hash: Hash, job: Job, pvd: nat, m: seq<byte>, m': seq<byte>, off: nat, n: nat,
                                       prev: nat, buffer: FragBuffer)
    requires Rechecked(hash, job, pvd, m, m') && off % CHUNK == 0 && off < |m| && n == Min(CHUNK, |m| - off)
    requires InStep(hash, job, m, FragmentIndex(job.total), off, prev, buffer)
    ensures
      var p, index := CheckChunk(hash, job, m'[..off], off, n, prev, buffer), FragmentIndex(job.total);
      if job.values.fragmentcount != 0 && index(off) != prev
         && LeadingDigits(hash(m[..off + n]), 3) != LeadingDigits(hash(m'[..off + n]), 3)
      then p == Ended(Failed)
      else
        && p.Went? && p.fed == m'[..off + n] && p.prev >= 0
        && InStep(hash, job, m, index, off + n, p.prev, p.thisfragsum)
        && (job.values.fragmentcount != 0 ==> p.prev == index(off))
  {
    hide MaskOf, Masked, MaskExact, FragmentOf, CompareFragment, FragmentIndex, FragsFrom, LeadingDigits, Staged,
      WithField, InStep;
    MaskedChunk(job.img, pvd, |m|, off, n);
    assert m'[..off + n] == m'[..off] + WithField(job.img, pvd, Blanks())[off..off + n];
    if job.values.fragmentcount == 0 {
      AlwaysInStep(hash, job, m, FragmentIndex(job.total), off + n, prev, buffer);
    } else {
      IndexAgrees(job, off);
      StaysInStep(hash, job, m, FragmentIndex(job.total), off, prev, buffer, hash(m'[..off + n]));
    }
  }

  /** The verdict from `off` on: whether the remaining digits of the two images and their digests agree. */
  ghost function Agreement(hash: Hash, job: Job, m: seq<byte>, m': seq<byte>, off: nat, prev: nat): (v: Verdict)
  {
    var index := FragmentIndex(job.total);
    if (job.values.fragmentcount != 0 ==> FragsFrom(hash, index, m, off, prev) == FragsFrom(hash, index, m', off, prev))
       && hash(m) == hash(m') then Passed else Failed
  }

  lemma {:induction false} AgreementStep(hash: Hash, job: Job, m: seq<byte>, m': seq<byte>, off: nat, n: nat, prev: nat)
    requires |m| == |m'| && off < |m| && n == Min(CHUNK, |m| - off)
    ensures
      var index := FragmentIndex(job.total);
      Agreement(hash, job, m, m', off, prev)
      == if job.values.fragmentcount != 0 && index(off) != prev
            && LeadingDigits(hash(m[..off + n]), 3) != LeadingDigits(hash(m'[..off + n]), 3) then Failed
         else Agreement(hash, job, m, m', off + n, index(off))
  {
    hide FragsFrom, LeadingDigits, FragmentIndex;
    SplitFrags(hash, FragmentIndex(job.total), m, m', off, n, prev);
  }

  lemma {:induction false} AgreementWithout(hash: Hash, job: Job, m: seq<byte>, m': seq<byte>, off: nat, prev: nat,
                                            off': nat, prev': nat)
    requires job.values.fragmentcount == 0
    ensures Agreement(hash, job, m, m', off, prev) == Agreement(hash, job, m, m', off', prev')
  {
  }

  lemma {:induction false} RecheckEnd(hash: Hash, job: Job, pvd: nat, m: seq<byte>, m': seq<byte>, prev: nat,
                                      buffer: FragBuffer)
    requires Rechecked(hash, job, pvd, m, m')
    ensures CheckFrom(hash, job, m'[..|m|], |m|, prev, buffer) == Agreement(hash, job, m, m', |m|, prev)
  {
    hide CheckChunk, MaskExact, Plain, WithField, HexString, Staged;
    assert m'[..|m|] == m';
    if hash(m) != hash(m') && HexString(hash(m)) == HexString(hash(m')) {
      HexStringInjective(hash(m), hash(m'));
    }
  }

  lemma {:induction false} RecheckRuns(hash: Hash, job: Job, pvd: nat, m: seq<byte>, m': seq<byte>, off: nat, prev: nat,
                                       buffer: FragBuffer)
    requires Rechecked(hash, job, pvd, m, m') && off <= |m| && (off < |m| ==> off % CHUNK == 0)
    requires InStep(hash, job, m, FragmentIndex(job.total), off, prev, buffer)
    ensures CheckFrom(hash, job, m'[..off], off, prev, buffer) == Agreement(hash, job, m, m', off, prev)
    decreases |m| - off
  {
    hide CheckChunk, InStep, FragmentIndex, MaskExact, Plain, WithField, HexString, Staged, Agreement, LeadingDigits;
    if off == |m| {
      RecheckEnd(hash, job, pvd, m, m', prev, buffer);
    } else {
      var n := Min(CHUNK, |m| - off);
      RecheckStep(hash, job, pvd, m, m', off, n, prev, buffer);
      AgreementStep(hash, job, m, m', off, n, prev);
      var p := CheckChunk(hash, job, m'[..off], off, n, prev, buffer);
      if p.Went? {
        NextChunk(off, n, |m|, pvd);
        RecheckRuns(hash, job, pvd, m, m', off + n, p.prev, p.thisfragsum);
        if job.values.fragmentcount == 0 {
          AgreementWithout(hash, job, m, m', off, prev, off + n, p.prev);
        }
      }
    }
  }

  /** Two fragment strings agree when their next digits and their rests do. */
  lemma {:induction false} SplitFrags(hash: Hash, index: nat -> nat, m: seq<byte>, m': seq<byte>, off: nat, n: nat,
                                      prev: nat)
    requires |m| == |m'| && off < |m| && n == Min(CHUNK, |m| - off)
    ensures
      var rest := FragsFrom(hash, index, m, off + n, index(off));
      var rest' := FragsFrom(hash, index, m', off + n, index(off));
      FragsFrom(hash, index, m, off, prev) == FragsFrom(hash, index, m', off, prev)
      <==> rest == rest' && (index(off) != prev ==>
        LeadingDigits(hash(m[..off + n]), 3) == LeadingDigits(hash(m'[..off + n]), 3))
  {
    hide LeadingDigits, FragsFrom;
    FragsStep(hash, index, m, off, n, prev);
    FragsStep(hash, index, m', off, n, prev);
    SameParts(LeadingDigits(hash(m[..off + n]), 3), FragsFrom(hash, index, m, off + n, index(off)),
              LeadingDigits(hash(m'[..off + n]), 3), FragsFrom(hash, index, m', off + n, index(off)));
  }

  lemma {:induction false} FragsStep(hash: Hash, index: nat -> nat, m: seq<byte>, off: nat, n: nat, prev: nat)
    requires off < |m| && n == Min(CHUNK, |m| - off)
    ensures
      var rest := FragsFrom(hash, index, m, off + n, index(off));
      FragsFrom(hash, index, m, off, prev)
      == if index(off) != prev then LeadingDigits(hash(m[..off + n]), 3) + rest else rest
  {
    hide LeadingDigits;
  }

  lemma {:induction false} SameParts(a: string, b: string, a': string, b': string)
    requires |a| == |a'|
    ensures a + b == a' + b' <==> a == a' && b == b'
  {
    assert (a + b)[..|a|] == a && (a' + b')[..|a|] == a';
    assert (a + b)[|a|..] == b && (a' + b')[|a|..] == b';
  }

  /**
   * The check of an image of the same size that kept the field implanted into another one: it passes exactly when the
   * digests agree and, above twenty chunks, the digits of every fragment do; otherwise it fails.
   */
  lemma {:induction false} CheckExactly(hash: Hash, img: seq<byte>, supported: bool, pvd: nat, other: seq<byte>,
                                        abort: (int, int) -> bool, stack: FragBuffer)
    requires FindPvd(img, FIRST_DESCRIPTOR) == Some(pvd) && FindPvd(other, FIRST_DESCRIPTOR) == Some(pvd)
    requires |other| == |img| && IsoSize(other, pvd) == IsoSize(img, pvd) <= |img| && !SizeOverflows(other, pvd)
    requires FieldOf(other, pvd) == ImplantedField(hash, img, pvd, supported)
    requires MaskExact(|Hashed(img, pvd)|, pvd) && forall off, total :: !abort(off, total)
    ensures
      var agree := |Hashed(img, pvd)| > 20 * CHUNK ==> Fragments(hash, img, pvd) == Fragments(hash, other, pvd);
      Check(hash, other, abort, stack)
      == if agree && hash(Hashed(img, pvd)) == hash(Hashed(other, pvd)) then Passed else Failed
  {
    hide CheckFrom, ScanFrom, MaskExact, WithField, FindPvd, FragmentIndex, HexString, FragsFrom, InStep, Field;
    var m, m', frags := Hashed(img, pvd), Hashed(other, pvd), Fragments(hash, img, pvd);
    ParseUndoesPrint(HexString(hash(m)), supported, frags);
    var values := ParseField(FieldOf(other, pvd)).values;
    var job := Job(other, pvd + APPDATA_OFFSET, IsoSize(other, pvd) - SKIPSECTORS * SECTOR, values, abort);
    PvdAligned(other);
    IndexStaged(job.total);
    StartsInStep(hash, job, m, FragmentIndex(job.total), frags, stack);
    FragmentsFull(hash, img, pvd);
    assert m'[..0] == [];
    RecheckRuns(hash, job, pvd, m, m', 0, 0, stack);
  }

  /** An image of its declared size has all its fragments exactly above twenty chunks. */
  lemma {:induction false} FragmentsFull(hash: Hash, img: seq<byte>, pvd: nat)
    requires pvd + SECTOR <= |img| && IsoSize(img, pvd) <= |img|
    ensures |Fragments(hash, img, pvd)| == FRAGMENT_SUM_LENGTH <==> |Hashed(img, pvd)| > 20 * CHUNK
  {
    hide FragmentIndex;
    var m := Hashed(img, pvd);
    if m != [] {
      FragmentStringLength(hash, m);
    }
  }

  /** The check is told to stop when it asks behind a chunk that starts at `off` or later. */
  ghost predicate AbortsBehind(job: Job, off: nat) {
    exists end: nat :: off < end <= Extent(job.img, job.total)
      && (end == Extent(job.img, job.total) || end % CHUNK == 0) && job.abort(end, job.total)
  }

  /** Without fragments, the check is aborted exactly when it is told to behind some chunk. */
  lemma {:induction false} AbortsExactly(hash: Hash, job: Job, pvd: nat, fed: seq<byte>, off: nat, prev: int,
                                         buffer: FragBuffer)
    requires job.apoff == pvd + APPDATA_OFFSET && pvd % SECTOR == 0 && pvd + SECTOR <= |job.img|
    requires job.values.fragmentcount == 0 && MaskExact(Extent(job.img, job.total), pvd)
    requires off < Extent(job.img, job.total) ==> off % CHUNK == 0
    ensures CheckFrom(hash, job, fed, off, prev, buffer) == Aborted <==> AbortsBehind(job, off)
    decreases Extent(job.img, job.total) - off
  {
    hide CheckChunk, MaskExact, AbortsBehind;
    var extent := Extent(job.img, job.total);
    if off < extent {
      var n := Min(CHUNK, extent - off);
      AbortStep(job, off, n);
      AbortInChunk(hash, job, pvd, fed, off, n, prev, buffer);
      NextChunk(off, n, extent, pvd);
      var p := CheckChunk(hash, job, fed, off, n, prev, buffer);
      if p.Went? {
        AbortsExactly(hash, job, pvd, p.fed, off + n, p.prev, p.thisfragsum);
      }
    } else {
      NoneBehind(job, off);
    }
  }

  lemma {:induction false} NoneBehind(job: Job, off: nat)
    requires Extent(job.img, job.total) <= off
    ensures !AbortsBehind(job, off)
  {
  }

  lemma {:induction false} AbortInChunk(hash: Hash, job: Job, pvd: nat, fed: seq<byte>, off: nat, n: nat, prev: int,
                                        buffer: FragBuffer)
    requires job.apoff == pvd + APPDATA_OFFSET && pvd % SECTOR == 0 && pvd + SECTOR <= |job.img|
    requires job.values.fragmentcount == 0 && MaskExact(Extent(job.img, job.total), pvd) && off % CHUNK == 0
    requires off < Extent(job.img, job.total) && n == Min(CHUNK, Extent(job.img, job.total) - off)
    ensures
      var p := CheckChunk(hash, job, fed, off, n, prev, buffer);
      if job.abort(off + n, job.total) then p == Ended(Aborted) else p.Went?
  {
    hide MaskOf, Masked, MaskExact, FragmentOf, CompareFragment;
    MaskedChunk(job.img, pvd, Extent(job.img, job.total), off, n);
  }

  lemma {:induction false} AbortStep(job: Job, off: nat, n: nat)
    requires off % CHUNK == 0 && off < Extent(job.img, job.total) && n == Min(CHUNK, Extent(job.img, job.total) - off)
    ensures AbortsBehind(job, off) <==> job.abort(off + n, job.total) || AbortsBehind(job, off + n)
  {
    hide Extent;
    forall end: nat | off < end && end % CHUNK == 0
      ensures off + CHUNK <= end
    {
      NextMultiple(off / CHUNK, end / CHUNK);
    }
  }

  lemma {:induction false} NextMultiple(i: nat, j: nat)
    requires CHUNK * i < CHUNK * j
    ensures CHUNK * i + CHUNK <= CHUNK * j
  {
  }

  /** Two images that differ only in the field are hashed alike. */
  lemma {:induction false} SameVerdictFrom(hash: Hash, job: Job, job': Job, pvd: nat, fed: seq<byte>, off: nat,
                                           prev: int, buffer: FragBuffer)
    requires job.apoff == pvd + APPDATA_OFFSET && pvd % SECTOR == 0 && pvd + SECTOR <= |job.img|
    requires job' == job.(img := job'.img) && |job'.img| == |job.img|
    requires WithField(job.img, pvd, Blanks()) == WithField(job'.img, pvd, Blanks())
    requires MaskExact(Extent(job.img, job.total), pvd)
    requires off < Extent(job.img, job.total) ==> off % CHUNK == 0
    ensures CheckFrom(hash, job, fed, off, prev, buffer) == CheckFrom(hash, job', fed, off, prev, buffer)
    decreases Extent(job.img, job.total) - off
  {
    hide MaskExact, WithField, CheckChunk;
    var extent := Extent(job.img, job.total);
    if off < extent {
      var n := Min(CHUNK, extent - off);
      SameChunk(hash, job, job', pvd, fed, off, n, prev, buffer);
      var p := CheckChunk(hash, job, fed, off, n, prev, buffer);
      if p.Went? {
        NextChunk(off, n, extent, pvd);
        SameVerdictFrom(hash, job, job', pvd, p.fed, off + n, p.prev, p.thisfragsum);
      }
    }
  }

  lemma {:induction false} SameChunk(hash: Hash, job: Job, job': Job, pvd: nat, fed: seq<byte>, off: nat, n: nat,
                                     prev: int, buffer: FragBuffer)
    requires job.apoff == pvd + APPDATA_OFFSET && pvd % SECTOR == 0 && pvd + SECTOR <= |job.img|
    requires job' == job.(img := job'.img) && |job'.img| == |job.img|
    requires WithField(job.img, pvd, Blanks()) == WithField(job'.img, pvd, Blanks())
    requires MaskExact(Extent(job.img, job.total), pvd) && off % CHUNK == 0 && off < Extent(job.img, job.total)
    requires n == Min(CHUNK, Extent(job.img, job.total) - off)
    ensures CheckChunk(hash, job, fed, off, n, prev, buffer) == CheckChunk(hash, job', fed, off, n, prev, buffer)
  {
    hide MaskOf, Masked, MaskExact, WithField, FragmentOf, CompareFragment;
    MaskedChunk(job.img, pvd, Extent(job.img, job.total), off, n);
    MaskedChunk(job'.img, pvd, Extent(job.img, job.total), off, n);
    SameFragmentOf(job, job', off);
  }

  lemma {:induction false} SameFragmentOf(job: Job, job': Job, off: nat)
    requires job' == job.(img := job'.img) && off < job.total
    ensures FragmentOf(job, off) == FragmentOf(job', off)
  {
  }

  /** The verdict does not depend on the field beyond the values parsed from it. */
  lemma {:induction false} SameVerdict(hash: Hash, img: seq<byte>, field: seq<byte>, abort: (int, int) -> bool,
                                       stack: FragBuffer)
    requires |field| == FIELD_SIZE && FindPvd(img, FIRST_DESCRIPTOR).Some?
    requires
      var pvd := FindPvd(img, FIRST_DESCRIPTOR).value;
      var parse := ParseField(FieldOf(img, pvd));
      && parse.Parsed? && parse == ParseField(Latin(field))
      && MaskExact(Extent(img, IsoSize(img, pvd) - parse.values.skipsectors * SECTOR), pvd)
    ensures
      var pvd := FindPvd(img, FIRST_DESCRIPTOR).value;
      Check(hash, WithField(img, pvd, field), abort, stack) == Check(hash, img, abort, stack)
  {
    hide CheckFrom, ScanFrom, MaskExact;
    var pvd := FindPvd(img, FIRST_DESCRIPTOR).value;
    var img' := WithField(img, pvd, field);
    SamePvd(img, field, pvd, FIRST_DESCRIPTOR);
    SameSize(img, field, pvd);
    PvdAligned(img);
    assert img'[pvd + APPDATA_OFFSET..pvd + APPDATA_OFFSET + FIELD_SIZE] == field;
    FieldOverwritten(img, pvd, field, Blanks());
    var values := ParseField(FieldOf(img, pvd)).values;
    var job := Job(img, pvd + APPDATA_OFFSET, IsoSize(img, pvd) - values.skipsectors * SECTOR, values, abort);
    SameVerdictFrom(hash, job, job.(img := img'), pvd, [], 0, 0, stack);
  }

  // ---------- images at which the promises fail ----------

  /** 33 sectors, 18 of which are hashed; sector 17 is the descriptor. */
  function Sector17Image(): (img: seq<byte>)
    ensures |img| == 33 * SECTOR
  {
    seq(33 * SECTOR, i => if i == 17 * SECTOR then 1 else if i == 17 * SECTOR + SIZE_OFFSET + 3 then 33 else 0)
  }

  lemma {:induction false} Sector17Found()
    ensures FindPvd(Sector17Image(), FIRST_DESCRIPTOR) == Some(17 * SECTOR)
    ensures IsoSize(Sector17Image(), 17 * SECTOR) == 33 * SECTOR && !SizeOverflows(Sector17Image(), 17 * SECTOR)
  {
    var img, at := Sector17Image(), 17 * SECTOR + SIZE_OFFSET;
    assert img[FIRST_DESCRIPTOR] == 0 && img[17 * SECTOR] == 1;
    assert FindPvd(img, FIRST_DESCRIPTOR) == FindPvd(img, 17 * SECTOR);
    var b := img[at..at + 4];
    assert b[0] == img[at] && b[1] == img[at + 1] && b[2] == img[at + 2] && b[3] == img[at + 3];
  }

  /** An image with the descriptor in sector 17 on which the fill wraps around right after a successful implant. */
  lemma {:induction false} Sector17Wraps(hash: Hash, supported: bool, abort: (int, int) -> bool, stack: FragBuffer)
    requires forall off, total :: !abort(off, total)
    ensures Implanted(hash, Sector17Image(), supported, true).Done?
    ensures Check(hash, Implanted(hash, Sector17Image(), supported, true).image, abort, stack) == Undefined
  {
    hide Sector17Image, Check, FindPvd, IsoSize;
    Sector17Found();
    ImplantThenCheck(hash, Sector17Image(), supported, true, abort, stack);
    assert MaskOverruns(18 * SECTOR, 17 * SECTOR);
  }

  /** With 34816 bytes hashed, the field in sector 16 is read and not masked to its end. */
  lemma {:induction false} Sector16Partial()
    ensures !MaskExact(34816, FIRST_DESCRIPTOR)
    ensures MaskOf(CHUNK, 34816 - CHUNK, FIRST_DESCRIPTOR + APPDATA_OFFSET) == Range(APPDATA_OFFSET, 282)
  {
  }
}
