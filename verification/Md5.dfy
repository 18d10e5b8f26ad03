/** The one-shot digest of sections 3.1 to 3.5 of RFC 1321, over any compression function. */
module Rfc1321 {
  import opened Words

  /** The four chaining words A, B, C, D. */
  type State = s: seq<word> | |s| == 4 witness [0, 0, 0, 0]

  /** The sixteen words of one 64-byte block. */
  type Block = x: seq<word> | |x| == 16 witness seq(16, i => 0)

  type Compression = (State, Block) -> State

  /** Section 3.3. */
  const INITIAL: State := [0x67452301, 0xefcdab89, 0x98badcfe, 0x10325476]

  /** The 64-bit count, low-order word first. */
  function CountBytes(bits: nat): (b: seq<byte>)
    ensures |b| == 8
  {
    LittleBytes(bits % TWO_TO_THE_32) + LittleBytes(bits / TWO_TO_THE_32 % TWO_TO_THE_32)
  }

  /** Sections 3.1 and 3.2: one bit, then zeros up to 56 modulo 64, then the bit count modulo 2^64. */
  function Padded(m: seq<byte>): (p: seq<byte>)
  {
    m + [0x80] + Zeros((55 - |m|) % 64) + CountBytes(8 * |m| % TWO_TO_THE_64)
  }

  /** Section 3.4: the first `n` blocks of a message, compressed from first to last. */
  function Chain(compress: Compression, m: seq<byte>, n: nat): (s: State)
    requires 64 * n <= |m|
  {
    if n == 0 then INITIAL
    else compress(Chain(compress, m, n - 1), LittleWords(m[64 * (n - 1)..64 * n], 16))
  }

  /** Section 3.5: the chaining words, low-order byte first. */
  function Output(s: State): (d: seq<byte>)
    ensures |d| == 16
  {
    LittleBytes(s[0]) + LittleBytes(s[1]) + LittleBytes(s[2]) + LittleBytes(s[3])
  }

  function Digest(compress: Compression, m: seq<byte>): (d: seq<byte>)
    ensures |d| == 16
  {
    var p := Padded(m);
    Output(Chain(compress, p, |p| / 64))
  }

  /** Padding always completes a block. */
  lemma {:induction false} PaddedLength(m: seq<byte>)
    ensures |Padded(m)| % 64 == 0 && |m| + 9 <= |Padded(m)| < |m| + 73
  {
    hide CountBytes;
    var k, z := (55 - |m|) / 64, (55 - |m|) % 64;
    assert z == 55 - |m| - 64 * k;
    assert |Padded(m)| == |m| + 1 + z + 8 == 64 * (1 - k);
  }

  /** Only the compressed prefix matters. */
  lemma {:induction false} ChainPrefix(compress: Compression, m: seq<byte>, m': seq<byte>, n: nat)
    requires 64 * n <= |m| && 64 * n <= |m'| && m[..64 * n] == m'[..64 * n]
    ensures Chain(compress, m, n) == Chain(compress, m', n)
  {
    if n > 0 {
      assert m[..64 * (n - 1)] == m[..64 * n][..64 * (n - 1)];
      assert m'[..64 * (n - 1)] == m'[..64 * n][..64 * (n - 1)];
      ChainPrefix(compress, m, m', n - 1);
      assert m[64 * (n - 1)..64 * n] == m[..64 * n][64 * (n - 1)..];
      assert m'[64 * (n - 1)..64 * n] == m'[..64 * n][64 * (n - 1)..];
    }
  }
}

/** The streaming digest of md5.c: a carry buffer, a two-word bit counter and a host byte order. */
module Md5 {
  import opened Words
  import opened Rfc1321

  /** The number of whole blocks in `n` bytes. */
  function Blocks(n: nat): (k: nat)
    ensures 64 * k <= n < 64 * k + 64
  {
    n / 64
  }

  /** Copies `src` into `dst` at `at`, leaving the rest alone. */
  method MemCopy(dst: array<byte>, at: nat, src: seq<byte>)
    requires at + |src| <= dst.Length
    modifies dst
    ensures dst[..] == old(dst[..at]) + src + old(dst[at + |src|..])
  {
    forall i | at <= i < at + |src| {
      dst[i] := src[i - at];
    }
  }

  /** One word of memory after a pass of byteReverse. */
  function Reversed(bigEndian: bool, b: seq<byte>): (r: seq<byte>)
    requires |b| == 4
    ensures |r| == 4 && NativeWord(bigEndian, r) == LittleWord(b)
  {
    NativeBytes(bigEndian, LittleWord(b))
  }

  /** The first `k` words of memory have been reversed and the rest is as it was. */
  ghost predicate ReversedUpTo(bigEndian: bool, was: seq<byte>, now: seq<byte>, k: nat)
    requires 4 * k <= |was|
  {
    && |now| == |was|
    && now[4 * k..] == was[4 * k..]
    && forall j :: 0 <= j < k ==> now[4 * j..4 * j + 4] == Reversed(bigEndian, was[4 * j..4 * j + 4])
  }

  lemma {:induction false} ReverseStep(bigEndian: bool, was: seq<byte>, now: seq<byte>, next: seq<byte>, k: nat)
    requires 4 * k + 4 <= |was| && ReversedUpTo(bigEndian, was, now, k)
    requires next == now[..4 * k] + Reversed(bigEndian, now[4 * k..4 * k + 4]) + now[4 * k + 4..]
    ensures ReversedUpTo(bigEndian, was, next, k + 1)
  {
    assert now[4 * k..4 * k + 4] == now[4 * k..][..4] == was[4 * k..4 * k + 4];
    assert next[4 * (k + 1)..] == now[4 * k..][4..] == was[4 * (k + 1)..];
    forall j | 0 <= j < k
      ensures next[4 * j..4 * j + 4] == now[4 * j..4 * j + 4]
    {
    }
  }

  lemma {:induction false} AllReversed(bigEndian: bool, was: seq<byte>, now: seq<byte>, k: nat)
    requires 4 * k <= |was| && ReversedUpTo(bigEndian, was, now, k)
    ensures NativeWords(bigEndian, now, k) == LittleWords(was, k)
  {
    hide Reversed;
    forall j | 0 <= j < k
      ensures NativeWord(bigEndian, now[4 * j..4 * j + 4]) == NativeWord(false, was[4 * j..4 * j + 4])
    {
    }
  }

  /** Rewrites `longs` words of memory so that loading them yields their little-endian values. */
  method ByteReverse(bigEndian: bool, mem: array<byte>, longs: nat)
    requires 0 < longs && 4 * longs <= mem.Length
    modifies mem
    ensures NativeWords(bigEndian, mem[..], longs) == LittleWords(old(mem[..]), longs)
    ensures mem[4 * longs..] == old(mem[4 * longs..])
  {
    hide Reversed, NativeWord;
    var k := 0;
    while k < longs
      invariant 0 <= k <= longs && ReversedUpTo(bigEndian, old(mem[..]), mem[..], k)
    {
      ghost var now := mem[..];
      MemCopy(mem, 4 * k, Reversed(bigEndian, mem[..][4 * k..4 * k + 4]));
      ReverseStep(bigEndian, old(mem[..]), now, mem[..], k);
      k := k + 1;
    }
    AllReversed(bigEndian, old(mem[..]), mem[..], longs);
  }

  /** The two counter words hold eight times the number of bytes, modulo 2^64. */
  ghost predicate Counts(low: word, high: word, seen: nat)
  {
    low as int + TWO_TO_THE_32 * (high as int) == 8 * seen % TWO_TO_THE_64
  }

  lemma {:induction false} LowBits(len: nat)
    ensures 8 * len % TWO_TO_THE_32 == 8 * len - TWO_TO_THE_32 * (len / 0x2000_0000)
  {
    var q, r := len / 0x2000_0000, len % 0x2000_0000;
    assert 8 * len == TWO_TO_THE_32 * q + 8 * r;
  }

  lemma {:induction false} ModUnique(x: nat, k: int, n: nat)
    requires x < TWO_TO_THE_64 && x + TWO_TO_THE_64 * k == n
    ensures n % TWO_TO_THE_64 == x
  {
  }

  /** The carry test of the counter update is exact addition modulo 2^64. */
  lemma {:induction false} CounterAdvance(low: word, high: word, seen: nat, len: word, low': word, high': word)
    requires Counts(low, high, seen)
    requires low' == (low as int + 8 * (len as int) % TWO_TO_THE_32) % TWO_TO_THE_32
    requires var carried := if low' < low then (high as int + 1) % TWO_TO_THE_32 else high as int;
      high' == (carried + len as int / 0x2000_0000) % TWO_TO_THE_32
    ensures Counts(low', high', seen + len as int)
  {
    var carry := if low' < low then 1 else 0;
    var top := len as int / 0x2000_0000;
    LowBits(len);
    assert low' as int + TWO_TO_THE_32 * carry == low as int + 8 * (len as int) - TWO_TO_THE_32 * top;
    var sum := high as int + carry + top;
    var carried := if low' < low then (high as int + 1) % TWO_TO_THE_32 else high as int;
    var wraps := (high as int + carry) / TWO_TO_THE_32 + (carried + top) / TWO_TO_THE_32;
    assert high' as int == sum - TWO_TO_THE_32 * wraps;
    var q := 8 * seen / TWO_TO_THE_64;
    assert 8 * seen == low as int + TWO_TO_THE_32 * (high as int) + TWO_TO_THE_64 * q;
    ModUnique(low' as int + TWO_TO_THE_32 * (high' as int), wraps + q, 8 * (seen + len as int));
  }

  lemma {:induction false} FillModulo(u: int, v: int, k: int)
    requires 64 * k <= u + 64 * v < 64 * k + 64
    ensures 8 * u / 8 % 64 == u + 64 * v - 64 * k
  {
    assert u == 64 * (k - v) + (u + 64 * v - 64 * k);
  }

  /** The low counter word gives the number of bytes waiting in the buffer. */
  lemma {:induction false} CounterGivesFill(low: word, high: word, seen: nat)
    requires Counts(low, high, seen)
    ensures low as int / 8 % 64 == seen - 64 * Blocks(seen)
  {
    var q := 8 * seen / TWO_TO_THE_64;
    var u := seen - 0x2000_0000 * (high as int) - 0x2000_0000_0000_0000 * q;
    assert low as int == 8 * u;
    var v := 0x80_0000 * (high as int) + 0x80_0000_0000_0000 * q;
    assert u == seen - 64 * v;
    FillModulo(u, v, Blocks(seen));
  }

  lemma {:induction false} WordsOf(low: word, high: word, n: nat)
    requires n == low as int + TWO_TO_THE_32 * (high as int)
    ensures n % TWO_TO_THE_32 == low as int && n / TWO_TO_THE_32 == high as int
    ensures n / TWO_TO_THE_32 % TWO_TO_THE_32 == high as int
  {
  }

  /** The counter words, low-order byte first, are the count that RFC 1321 appends. */
  lemma {:induction false} CounterBytes(low: word, high: word, seen: nat)
    requires Counts(low, high, seen)
    ensures CountBytes(8 * seen % TWO_TO_THE_64) == LittleBytes(low) + LittleBytes(high)
  {
    var bits := 8 * seen % TWO_TO_THE_64;
    WordsOf(low, high, bits);
  }

  /** The zeros that complete a message: up to 56 bytes in its last block, or that block and 56 more. */
  lemma {:induction false} PaddingZeros(n: nat)
    ensures
      var room := 63 - (n - 64 * Blocks(n));
      (55 - n) % 64 == if room < 8 then room + 56 else room - 8
  {
    var room := 63 - (n - 64 * Blocks(n));
    if room < 8 {
      assert 55 - n == 64 * (-1 - Blocks(n)) + (room + 56);
    } else {
      assert 55 - n == -64 * Blocks(n) + (room - 8);
    }
  }

  lemma {:induction false} BigWordInjective(a: seq<byte>, b: seq<byte>)
    requires |a| == |b| == 4 && BigWord(a) == BigWord(b)
    ensures a == b
  {
    assert a[0] == b[0];
    assert a[1] == b[1];
    assert a[2] == b[2];
    assert a[3] == b[3];
  }

  /** On a big-endian host the final reversal leaves the low-order byte of each chaining word first. */
  lemma {:induction false} OutputReversed(s: State, before: seq<byte>, after: seq<byte>)
    requires before == BigBytes(s[0]) + BigBytes(s[1]) + BigBytes(s[2]) + BigBytes(s[3])
    requires |after| == 16 && NativeWords(true, after, 4) == LittleWords(before, 4)
    ensures after == Output(s)
  {
    var b0, b1, b2, b3 := BigBytes(s[0]), BigBytes(s[1]), BigBytes(s[2]), BigBytes(s[3]);
    Quarters(b0, b1, b2, b3);
    var a0, a1, a2, a3 := after[0..4], after[4..8], after[8..12], after[12..16];
    assert after == a0 + a1 + a2 + a3;
    assert NativeWords(true, after, 4) == [BigWord(a0), BigWord(a1), BigWord(a2), BigWord(a3)];
    assert LittleWords(before, 4) == [LittleWord(b0), LittleWord(b1), LittleWord(b2), LittleWord(b3)];
    SwapsBack(s[0], a0);
    SwapsBack(s[1], a1);
    SwapsBack(s[2], a2);
    SwapsBack(s[3], a3);
  }

  lemma {:induction false} SwapsBack(w: word, a: seq<byte>)
    requires |a| == 4 && BigWord(a) == LittleWord(BigBytes(w))
    ensures a == LittleBytes(w)
  {
    BigWordInjective(a, LittleBytes(w));
  }

  lemma {:induction false} Quarters<T>(a: seq<T>, b: seq<T>, c: seq<T>, d: seq<T>)
    requires |a| == |b| == |c| == |d| == 4
    ensures var s := a + b + c + d; s[0..4] == a && s[4..8] == b && s[8..12] == c && s[12..16] == d
  {
  }

  lemma {:induction false} SameWords(bigEndian: bool, a: seq<byte>, b: seq<byte>, n: nat)
    requires 4 * n <= |a| && |b| == 4 * n && a[..4 * n] == b
    ensures NativeWords(bigEndian, a, n) == NativeWords(bigEndian, b, n)
  {
    forall k | 0 <= k < n
      ensures a[4 * k..4 * k + 4] == b[4 * k..4 * k + 4]
    {
      assert a[4 * k..4 * k + 4] == a[..4 * n][4 * k..4 * k + 4];
    }
  }

  /** The padding of RFC 1321, cut at the blocks that MD5_Final compresses. */
  ghost predicate FinalShape(p: seq<byte>, m: seq<byte>, low: word, high: word)
  {
    var n := Blocks(|m|);
    var tail := m[64 * n..];
    var room := 63 - |tail|;
    && |p| == 64 * n + (if room < 8 then 128 else 64)
    && m[..64 * n] == p[..64 * n]
    && p[|p| - 8..] == LittleBytes(low) + LittleBytes(high)
    && (room < 8 ==> p[64 * n..64 * n + 64] == tail + [0x80] + Zeros(room))
    && (room < 8 ==> p[64 * n + 64..64 * n + 120] == Zeros(56))
    && (room >= 8 ==> p[64 * n..64 * n + 56] == tail + [0x80] + Zeros(room - 8))
  }

  lemma {:induction false} FinalBlocks(m: seq<byte>, low: word, high: word)
    requires Counts(low, high, |m|)
    ensures FinalShape(Padded(m), m, low, high)
  {
    var p, n := Padded(m), Blocks(|m|);
    var tail := m[64 * n..];
    var room := 63 - |tail|;
    CounterBytes(low, high, |m|);
    PaddingZeros(|m|);
    var zeros := Zeros((55 - |m|) % 64);
    assert m == m[..64 * n] + tail;
    assert p == m[..64 * n] + (tail + [0x80] + zeros) + (LittleBytes(low) + LittleBytes(high));
    if room < 8 {
      assert zeros == Zeros(room) + Zeros(56);
    }
  }

  class Context {
    const transform: Compression
    const bigEndian: bool
    const buf: array<word>
    const bits: array<word>
    const input: array<byte>
    var doByteReverse: bool
    ghost var message: seq<byte>

    /** The fields have the sizes of the C structure and do not overlap. */
    ghost predicate Shaped()
      reads this
    {
      && buf.Length == 4 && bits.Length == 2 && input.Length == 64
      && buf != bits && buf as object != input && bits as object != input
      && doByteReverse == bigEndian
    }

    /** The state is the fold over the full blocks and the buffer holds the bytes after them. */
    ghost predicate Absorbed(m: seq<byte>)
      reads this, buf, input
    {
      && Shaped()
      && buf[..] == Chain(transform, m, Blocks(|m|))
      && input[..|m| - 64 * Blocks(|m|)] == m[64 * Blocks(|m|)..]
    }

    ghost predicate Valid()
      reads this, buf, bits, input
    {
      Absorbed(message) && Counts(bits[0], bits[1], |message|)
    }

    /** MD5_Init. */
    constructor (transform: Compression, bigEndian: bool)
      ensures Valid() && fresh(buf) && fresh(bits) && fresh(input)
      ensures message == [] && this.transform == transform && this.bigEndian == bigEndian
    {
      this.transform := transform;
      this.bigEndian := bigEndian;
      var b := new word[4](i requires 0 <= i < 4 => INITIAL[i]);
      assert b[..] == INITIAL;
      buf := b;
      bits := new word[2](i => 0);
      input := new byte[64](i => 0);
      doByteReverse := bigEndian;
      message := [];
    }

    /** The structure copy taken before a snapshot digest. */
    constructor Copy(other: Context)
      requires other.Valid()
      ensures Valid() && fresh(buf) && fresh(bits) && fresh(input)
      ensures message == other.message && transform == other.transform && bigEndian == other.bigEndian
    {
      transform := other.transform;
      bigEndian := other.bigEndian;
      var b := new word[4](i requires 0 <= i < 4 reads other.buf => other.buf[i]);
      var n := new word[2](i requires 0 <= i < 2 reads other.bits => other.bits[i]);
      var t := new byte[64](i requires 0 <= i < 64 reads other.input => other.input[i]);
      assert b[..] == other.buf[..];
      assert t[..] == other.input[..];
      ghost var fill := |other.message| - 64 * Blocks(|other.message|);
      assert t[..fill] == t[..][..fill] && other.input[..fill] == other.input[..][..fill];
      buf, bits, input := b, n, t;
      doByteReverse := other.doByteReverse;
      message := other.message;
    }

    /** MD5_Transform on the buffer read as native words. */
    method Transform()
      requires Shaped()
      modifies buf
      ensures buf[..] == transform(old(buf[..]), NativeWords(bigEndian, input[..], 16))
    {
      var next := transform(buf[..], NativeWords(bigEndian, input[..], 16));
      forall i | 0 <= i < 4 {
        buf[i] := next[i];
      }
      assert buf[..] == next && input[..] == old(input[..]);
    }

    /** Compresses a full buffer of message bytes, whatever the host order. */
    method Absorb(ghost m: seq<byte>, ghost n: nat)
      requires Shaped() && 64 * n + 64 <= |m|
      requires buf[..] == Chain(transform, m, n) && input[..] == m[64 * n..64 * n + 64]
      modifies buf, input
      ensures buf[..] == Chain(transform, m, n + 1)
    {
      if doByteReverse {
        ByteReverse(bigEndian, input, 16);
      }
      Transform();
      assert m[64 * n..64 * (n + 1)] == m[64 * n..64 * n + 64];
    }

    /** The bit count grows by eight times the length, with the carry made explicit. */
    method Count(len: word) returns (t: nat)
      requires Shaped() && Counts(bits[0], bits[1], |message|)
      modifies bits
      ensures Counts(bits[0], bits[1], |message| + len as int)
      ensures t == |message| - 64 * Blocks(|message|)
    {
      CounterGivesFill(bits[0], bits[1], |message|);
      var low, high := bits[0], bits[1];
      var low' := (low as int + 8 * (len as int) % TWO_TO_THE_32) % TWO_TO_THE_32;
      var carried := if low' < low then (high as int + 1) % TWO_TO_THE_32 else high as int;
      var high' := (carried + len as int / 0x2000_0000) % TWO_TO_THE_32;
      CounterAdvance(low, high, |message|, len, low', high');
      bits[0], bits[1] := low', high';
      t := low as int / 8 % 64;
    }

    /** MD5_Update: the message grows by the given bytes. */
    method Update(data: seq<byte>)
      requires Valid() && |data| < TWO_TO_THE_32
      modifies this`message, buf, bits, input
      ensures Valid() && message == old(message) + data
    {
      hide Counts, Chain, Blocks;
      var t := Count(|data|);
      Feed(t, data, message, message + data);
      message := message + data;
    }

    /** Completes the waiting block, if there is one, and goes on from there. */
    method Feed(fill: nat, data: seq<byte>, ghost seen: seq<byte>, ghost m: seq<byte>)
      requires Absorbed(seen) && fill == |seen| - 64 * Blocks(|seen|) && m == seen + data
      modifies buf, input
      ensures Absorbed(m)
    {
      ghost var n := Blocks(|seen|);
      ChainPrefix(transform, seen, m, n);
      assert m[64 * n..] == seen[64 * n..] + data;
      if fill == 0 {
        UpdateBlocks(data, m, n);
      } else if |data| < 64 - fill {
        MemCopy(input, fill, data);
        assert Blocks(|m|) == n;
        assert input[..fill + |data|] == input[..][..fill + |data|];
      } else {
        var t := 64 - fill;
        MemCopy(input, fill, data[..t]);
        assert m[64 * n..64 * n + 64] == seen[64 * n..] + data[..t];
        Absorb(m, n);
        assert m[64 * (n + 1)..] == data[t..];
        UpdateBlocks(data[t..], m, n + 1);
      }
    }

    /** The whole blocks of the remaining data are compressed and the rest is kept. */
    method UpdateBlocks(data: seq<byte>, ghost m: seq<byte>, ghost start: nat)
      requires Shaped() && 64 * start + |data| == |m| && m[64 * start..] == data
      requires buf[..] == Chain(transform, m, start)
      modifies buf, input
      ensures Absorbed(m)
    {
      ghost var n := start;
      var at := 0;
      while |data| - at >= 64
        invariant 0 <= at <= |data|
        invariant 64 * n == 64 * start + at
        invariant buf[..] == Chain(transform, m, n)
      {
        MemCopy(input, 0, data[at..at + 64]);
        assert m[64 * n..64 * n + 64] == m[64 * start..][at..at + 64];
        Absorb(m, n);
        at := at + 64;
        n := n + 1;
      }
      MemCopy(input, 0, data[at..]);
      assert Blocks(|m|) == n;
      assert m[64 * n..] == m[64 * start..][at..];
    }

    /** MD5_Final: the digest of everything fed, and a wiped structure. */
    method Final() returns (digest: seq<byte>)
      requires Valid()
      modifies this, buf, bits, input
      ensures digest == Digest(transform, old(message))
      ensures forall i :: 0 <= i < 4 ==> buf[i] == 0
      ensures forall i :: 0 <= i < 64 ==> input[i] == 0
      ensures bits[0] == 0 && bits[1] == 0 && !doByteReverse
    {
      FinalBlocks(message, bits[0], bits[1]);
      Finish(Padded(message));
      digest := Emit();
      Wipe();
    }

    /** Compresses what is left of the padded message. */
    method Finish(ghost padded: seq<byte>)
      requires Valid() && FinalShape(padded, message, bits[0], bits[1])
      modifies buf, input
      ensures buf[..] == Chain(transform, padded, |padded| / 64)
    {
      CounterGivesFill(bits[0], bits[1], |message|);
      ghost var n := Blocks(|message|);
      ChainPrefix(transform, message, padded, n);
      var count := bits[0] as int / 8 % 64;
      n := PadTail(count, message[64 * n..], padded, n);
      Close(padded, n);
      assert |padded| / 64 == n + 1;
    }

    /** Writes the padding, compressing a first block when the count does not fit behind it. */
    method PadTail(fill: nat, ghost tail: seq<byte>, ghost m: seq<byte>, ghost n: nat) returns (ghost n': nat)
      requires Shaped() && fill == |tail| < 64 && input[..fill] == tail
      requires 63 - fill < 8 ==>
        |m| == 64 * n + 128 && m[64 * n..64 * n + 64] == tail + [0x80] + Zeros(63 - fill)
        && m[64 * n + 64..64 * n + 120] == Zeros(56)
      requires 63 - fill >= 8 ==>
        |m| == 64 * n + 64 && m[64 * n..64 * n + 56] == tail + [0x80] + Zeros(55 - fill)
      requires buf[..] == Chain(transform, m, n)
      modifies buf, input
      ensures |m| == 64 * n' + 64 && buf[..] == Chain(transform, m, n')
      ensures input[..56] == m[64 * n'..64 * n' + 56]
    {
      n' := n;
      MemCopy(input, fill, [0x80]);
      assert input[..fill + 1] == tail + [0x80];
      var p := fill + 1;
      var count := 64 - 1 - fill;
      if count < 8 {
        MemCopy(input, p, Zeros(count));
        assert input[..] == tail + [0x80] + Zeros(count);
        Absorb(m, n);
        n' := n + 1;
        MemCopy(input, 0, Zeros(56));
        assert input[..56] == Zeros(56);
      } else {
        MemCopy(input, p, Zeros(count - 8));
        assert input[..56] == tail + [0x80] + Zeros(count - 8);
      }
    }

    /** Appends the counter in host order to a block whose first fourteen words are in message order. */
    method Close(ghost m: seq<byte>, ghost n: nat)
      requires Shaped() && |m| == 64 * n + 64 && buf[..] == Chain(transform, m, n)
      requires input[..56] == m[64 * n..64 * n + 56]
      requires m[64 * n + 56..] == LittleBytes(bits[0]) + LittleBytes(bits[1])
      modifies buf, input
      ensures buf[..] == Chain(transform, m, n + 1)
    {
      ghost var front := input[..56];
      assert front == input[..][..56];
      if doByteReverse {
        ByteReverse(bigEndian, input, 14);
      }
      ghost var host := input[..56];
      SameWords(bigEndian, input[..], host, 14);
      SameWords(false, old(input[..]), front, 14);
      assert NativeWords(bigEndian, host, 14) == LittleWords(front, 14);
      MemCopy(input, 56, NativeBytes(bigEndian, bits[0]) + NativeBytes(bigEndian, bits[1]));
      assert input[..] == host + NativeBytes(bigEndian, bits[0]) + NativeBytes(bigEndian, bits[1]);
      NativeWordsAppendTwo(bigEndian, host, 14, NativeBytes(bigEndian, bits[0]), NativeBytes(bigEndian, bits[1]));
      NativeWordsAppendTwo(false, front, 14, LittleBytes(bits[0]), LittleBytes(bits[1]));
      assert m[64 * n..64 * (n + 1)] == front + LittleBytes(bits[0]) + LittleBytes(bits[1]);
      Transform();
    }

    /** The chaining words copied out of host memory after the final reversal. */
    method Emit() returns (digest: seq<byte>)
      requires Shaped()
      ensures digest == Output(buf[..])
    {
      digest := NativeBytes(bigEndian, buf[0]) + NativeBytes(bigEndian, buf[1])
        + NativeBytes(bigEndian, buf[2]) + NativeBytes(bigEndian, buf[3]);
      if doByteReverse {
        var mem := new byte[16](i requires 0 <= i < 16 => digest[i]);
        assert mem[..] == digest;
        ByteReverse(bigEndian, mem, 4);
        OutputReversed(buf[..], digest, mem[..]);
        digest := mem[..];
      }
    }

    /** memset of the whole structure. */
    method Wipe()
      requires Shaped()
      modifies this, buf, bits, input
      ensures forall i :: 0 <= i < 4 ==> buf[i] == 0
      ensures forall i :: 0 <= i < 64 ==> input[i] == 0
      ensures bits[0] == 0 && bits[1] == 0 && !doByteReverse
    {
      forall i | 0 <= i < 4 {
        buf[i] := 0;
      }
      forall i | 0 <= i < 64 {
        input[i] := 0;
      }
      bits[0], bits[1] := 0, 0;
      doByteReverse := false;
    }
  }

  /** The pieces of a message, put together again. */
  function Joined(pieces: seq<seq<byte>>): (m: seq<byte>)
  {
    if pieces == [] then [] else Joined(pieces[..|pieces| - 1]) + pieces[|pieces| - 1]
  }

  /**
   * MD5_Init, one MD5_Update a piece and MD5_Final: the one-shot digest, however the message is split and on both
   * hosts.
   */
  method DigestOfPieces(transform: Compression, bigEndian: bool, pieces: seq<seq<byte>>) returns (digest: seq<byte>)
    requires forall i :: 0 <= i < |pieces| ==> |pieces[i]| < TWO_TO_THE_32
    ensures digest == Digest(transform, Joined(pieces))
  {
    hide Digest, Context.Valid;
    var context := new Context(transform, bigEndian);
    for i := 0 to |pieces|
      invariant context.Valid() && context.transform == transform && context.message == Joined(pieces[..i])
      invariant fresh(context) && fresh(context.buf) && fresh(context.bits) && fresh(context.input)
    {
      assert pieces[..i + 1][..i] == pieces[..i];
      context.Update(pieces[i]);
    }
    assert pieces[..|pieces|] == pieces;
    digest := context.Final();
  }
}
