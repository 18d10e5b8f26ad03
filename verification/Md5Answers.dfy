/** A known answer of RFC 1321, appendix A.5: the digest of "abc", through every operation of the compression. */
module Md5Answers {
  import opened Words
  import opened Rfc1321
  import opened Md5Bits
  import opened Md5Transform

  /** The one block of the padded message: 'a', 'b', 'c', the bit behind them and the count of 24 bits. */
  ghost predicate AbcBlock(x: Words16) {
    x[0] == 0x80636261 && (forall i :: 1 <= i < 14 ==> x[i] == 0) && x[14] == 24 && x[15] == 0
  }

  /** One more operation of a round. */
  lemma {:induction false} Next(round: nat, n: nat, r: Registers, x: Words16,
                                a: bv32, b: bv32, c: bv32, d: bv32, b': bv32)
    requires round < 4 && n < 16
    requires Operations(round, n, r, x) == Registers(a, b, c, d)
    requires Operation(round, n, Registers(a, b, c, d), x) == Registers(d, b', b, c)
    ensures Operations(round, n + 1, r, x) == Registers(d, b', b, c)
  {
  }

  lemma {:induction false} AbcRound1(x: Words16)
    requires AbcBlock(x)
    ensures Operations(0, 16, Registers(0x67452301, 0xefcdab89, 0x98badcfe, 0x10325476), x)
         == Registers(0xdda9b9a6, 0x72aff2e0, 0xe396856b, 0xa1051895)
  {
    hide Operations, Sine, WordIndex, Shift;
    var r := Registers(0x67452301, 0xefcdab89, 0x98badcfe, 0x10325476);
    Schedule1();
    Constants1();
    NoOperations(0, r, x);
    Next(0, 0, r, x, 0x67452301, 0xefcdab89, 0x98badcfe, 0x10325476, 0xd6d117b4);
    Next(0, 1, r, x, 0x10325476, 0xd6d117b4, 0xefcdab89, 0x98badcfe, 0x344a8432);
    Next(0, 2, r, x, 0x98badcfe, 0x344a8432, 0xd6d117b4, 0xefcdab89, 0x2f6fbd72);
    Next(0, 3, r, x, 0xefcdab89, 0x2f6fbd72, 0x344a8432, 0xd6d117b4, 0x7ad956f2);
    Next(0, 4, r, x, 0xd6d117b4, 0x7ad956f2, 0x2f6fbd72, 0x344a8432, 0xc73741ef);
    Next(0, 5, r, x, 0x344a8432, 0xc73741ef, 0x7ad956f2, 0x2f6fbd72, 0x8bac3051);
    Next(0, 6, r, x, 0x2f6fbd72, 0x8bac3051, 0xc73741ef, 0x7ad956f2, 0x207dc67b);
    Next(0, 7, r, x, 0x7ad956f2, 0x207dc67b, 0x8bac3051, 0xc73741ef, 0x928d99f6);
    Next(0, 8, r, x, 0xc73741ef, 0x928d99f6, 0x207dc67b, 0x8bac3051, 0x854b3712);
    Next(0, 9, r, x, 0x8bac3051, 0x854b3712, 0x928d99f6, 0x207dc67b, 0x74e2f284);
    Next(0, 10, r, x, 0x207dc67b, 0x74e2f284, 0x854b3712, 0x928d99f6, 0x3020401c);
    Next(0, 11, r, x, 0x928d99f6, 0x3020401c, 0x74e2f284, 0x854b3712, 0x5ed49596);
    Next(0, 12, r, x, 0x854b3712, 0x5ed49596, 0x3020401c, 0x74e2f284, 0xdda9b9a6);
    Next(0, 13, r, x, 0x74e2f284, 0xdda9b9a6, 0x5ed49596, 0x3020401c, 0xa1051895);
    Next(0, 14, r, x, 0x3020401c, 0xa1051895, 0xdda9b9a6, 0x5ed49596, 0xe396856b);
    Next(0, 15, r, x, 0x5ed49596, 0xe396856b, 0xa1051895, 0xdda9b9a6, 0x72aff2e0);
  }

  lemma {:induction false} AbcRound2(x: Words16)
    requires AbcBlock(x)
    ensures Operations(1, 16, Registers(0xdda9b9a6, 0x72aff2e0, 0xe396856b, 0xa1051895), x)
         == Registers(0x790a77fb, 0x726342d3, 0xa62884aa, 0x9f47e4f8)
  {
    hide Operations, Sine, WordIndex, Shift;
    var r := Registers(0xdda9b9a6, 0x72aff2e0, 0xe396856b, 0xa1051895);
    Schedule2();
    Constants2();
    NoOperations(1, r, x);
    Next(1, 0, r, x, 0xdda9b9a6, 0x72aff2e0, 0xe396856b, 0xa1051895, 0x3e9e9126);
    Next(1, 1, r, x, 0xa1051895, 0x3e9e9126, 0x72aff2e0, 0xe396856b, 0x4a1d804e);
    Next(1, 2, r, x, 0xe396856b, 0x4a1d804e, 0x3e9e9126, 0x72aff2e0, 0xe25e1652);
    Next(1, 3, r, x, 0x72aff2e0, 0xe25e1652, 0x4a1d804e, 0x3e9e9126, 0xb5b204e4);
    Next(1, 4, r, x, 0x3e9e9126, 0xb5b204e4, 0xe25e1652, 0x4a1d804e, 0x59a8ffda);
    Next(1, 5, r, x, 0x4a1d804e, 0x59a8ffda, 0xb5b204e4, 0xe25e1652, 0x6d002f1e);
    Next(1, 6, r, x, 0xe25e1652, 0x6d002f1e, 0x59a8ffda, 0xb5b204e4, 0xabfc7920);
    Next(1, 7, r, x, 0xb5b204e4, 0xabfc7920, 0x6d002f1e, 0x59a8ffda, 0x47092c07);
    Next(1, 8, r, x, 0x59a8ffda, 0x47092c07, 0xabfc7920, 0x6d002f1e, 0xb7f268cf);
    Next(1, 9, r, x, 0x6d002f1e, 0xb7f268cf, 0x47092c07, 0xabfc7920, 0x09388eff);
    Next(1, 10, r, x, 0xabfc7920, 0x09388eff, 0xb7f268cf, 0x47092c07, 0xfe1623b1);
    Next(1, 11, r, x, 0x47092c07, 0xfe1623b1, 0x09388eff, 0xb7f268cf, 0x786acb8f);
    Next(1, 12, r, x, 0xb7f268cf, 0x786acb8f, 0xfe1623b1, 0x09388eff, 0x790a77fb);
    Next(1, 13, r, x, 0x09388eff, 0x790a77fb, 0x786acb8f, 0xfe1623b1, 0x9f47e4f8);
    Next(1, 14, r, x, 0xfe1623b1, 0x9f47e4f8, 0x790a77fb, 0x786acb8f, 0xa62884aa);
    Next(1, 15, r, x, 0x786acb8f, 0xa62884aa, 0x9f47e4f8, 0x790a77fb, 0x726342d3);
  }

  lemma {:induction false} AbcRound3(x: Words16)
    requires AbcBlock(x)
    ensures Operations(2, 16, Registers(0x790a77fb, 0x726342d3, 0xa62884aa, 0x9f47e4f8), x)
         == Registers(0x7f2e507b, 0x7beb9700, 0x8fae6399, 0x99d9679d)
  {
    hide Operations, Sine, WordIndex, Shift;
    var r := Registers(0x790a77fb, 0x726342d3, 0xa62884aa, 0x9f47e4f8);
    Schedule3();
    Constants3();
    NoOperations(2, r, x);
    Next(2, 0, r, x, 0x790a77fb, 0x726342d3, 0xa62884aa, 0x9f47e4f8, 0xb3707ebf);
    Next(2, 1, r, x, 0x9f47e4f8, 0xb3707ebf, 0x726342d3, 0xa62884aa, 0x60127b2e);
    Next(2, 2, r, x, 0xa62884aa, 0x60127b2e, 0xb3707ebf, 0x726342d3, 0x8d212ff5);
    Next(2, 3, r, x, 0x726342d3, 0x8d212ff5, 0x60127b2e, 0xb3707ebf, 0x3b0875c7);
    Next(2, 4, r, x, 0xb3707ebf, 0x3b0875c7, 0x8d212ff5, 0x60127b2e, 0x21b117b9);
    Next(2, 5, r, x, 0x60127b2e, 0x21b117b9, 0x3b0875c7, 0x8d212ff5, 0x6e7429d5);
    Next(2, 6, r, x, 0x8d212ff5, 0x6e7429d5, 0x21b117b9, 0x3b0875c7, 0x3575227e);
    Next(2, 7, r, x, 0x3b0875c7, 0x3575227e, 0x6e7429d5, 0x21b117b9, 0x5a2f5ea5);
    Next(2, 8, r, x, 0x21b117b9, 0x5a2f5ea5, 0x3575227e, 0x6e7429d5, 0x11de1779);
    Next(2, 9, r, x, 0x6e7429d5, 0x11de1779, 0x5a2f5ea5, 0x3575227e, 0xfadcaa38);
    Next(2, 10, r, x, 0x3575227e, 0xfadcaa38, 0x11de1779, 0x5a2f5ea5, 0x31c465ca);
    Next(2, 11, r, x, 0x5a2f5ea5, 0x31c465ca, 0xfadcaa38, 0x11de1779, 0x4c6124f4);
    Next(2, 12, r, x, 0x11de1779, 0x4c6124f4, 0x31c465ca, 0xfadcaa38, 0x7f2e507b);
    Next(2, 13, r, x, 0xfadcaa38, 0x7f2e507b, 0x4c6124f4, 0x31c465ca, 0x99d9679d);
    Next(2, 14, r, x, 0x31c465ca, 0x99d9679d, 0x7f2e507b, 0x4c6124f4, 0x8fae6399);
    Next(2, 15, r, x, 0x4c6124f4, 0x8fae6399, 0x99d9679d, 0x7f2e507b, 0x7beb9700);
  }

  lemma {:induction false} AbcRound4(x: Words16)
    requires AbcBlock(x)
    ensures Operations(3, 16, Registers(0x7f2e507b, 0x7beb9700, 0x8fae6399, 0x99d9679d), x)
         == Registers(0x310ade8f, 0xc08226b3, 0xe484b9d8, 0x624d8cb2)
  {
    hide Operations, Sine, WordIndex, Shift;
    var r := Registers(0x7f2e507b, 0x7beb9700, 0x8fae6399, 0x99d9679d);
    Schedule4();
    Constants4();
    NoOperations(3, r, x);
    Next(3, 0, r, x, 0x7f2e507b, 0x7beb9700, 0x8fae6399, 0x99d9679d, 0x7b201df8);
    Next(3, 1, r, x, 0x99d9679d, 0x7b201df8, 0x7beb9700, 0x8fae6399, 0xf4e8e96e);
    Next(3, 2, r, x, 0x8fae6399, 0xf4e8e96e, 0x7b201df8, 0x7beb9700, 0xb298cefd);
    Next(3, 3, r, x, 0x7beb9700, 0xb298cefd, 0xf4e8e96e, 0x7b201df8, 0x8bf025c4);
    Next(3, 4, r, x, 0x7b201df8, 0x8bf025c4, 0xb298cefd, 0xf4e8e96e, 0x06cc5e8a);
    Next(3, 5, r, x, 0xf4e8e96e, 0x06cc5e8a, 0x8bf025c4, 0xb298cefd, 0x5b0d97aa);
    Next(3, 6, r, x, 0xb298cefd, 0x5b0d97aa, 0x06cc5e8a, 0x8bf025c4, 0x7d632dd0);
    Next(3, 7, r, x, 0x8bf025c4, 0x7d632dd0, 0x5b0d97aa, 0x06cc5e8a, 0x3bfa2c27);
    Next(3, 8, r, x, 0x06cc5e8a, 0x3bfa2c27, 0x7d632dd0, 0x5b0d97aa, 0x7f81cc35);
    Next(3, 9, r, x, 0x5b0d97aa, 0x7f81cc35, 0x3bfa2c27, 0x7d632dd0, 0x094454ab);
    Next(3, 10, r, x, 0x7d632dd0, 0x094454ab, 0x7f81cc35, 0x3bfa2c27, 0x4f9dbe3f);
    Next(3, 11, r, x, 0x3bfa2c27, 0x4f9dbe3f, 0x094454ab, 0x7f81cc35, 0x7327d604);
    Next(3, 12, r, x, 0x7f81cc35, 0x7327d604, 0x4f9dbe3f, 0x094454ab, 0x310ade8f);
    Next(3, 13, r, x, 0x094454ab, 0x310ade8f, 0x7327d604, 0x4f9dbe3f, 0x624d8cb2);
    Next(3, 14, r, x, 0x4f9dbe3f, 0x624d8cb2, 0x310ade8f, 0x7327d604, 0xe484b9d8);
    Next(3, 15, r, x, 0x7327d604, 0xe484b9d8, 0x624d8cb2, 0x310ade8f, 0xc08226b3);
  }

  /** The four rounds from the initial registers, and the final additions. */
  lemma {:induction false} AbcCompressed(x: Words16)
    requires AbcBlock(x)
    ensures Compress(Registers(0x67452301, 0xefcdab89, 0x98badcfe, 0x10325476), x)
         == Registers(0x98500190, 0xb04fd23c, 0x7d3f96d6, 0x727fe128)
  {
    hide Operations, Rounds;
    FourRounds(Registers(0x67452301, 0xefcdab89, 0x98badcfe, 0x10325476), x);
    AbcRound1(x);
    AbcRound2(x);
    AbcRound3(x);
    AbcRound4(x);
  }


  const ABC: seq<byte> := [0x61, 0x62, 0x63]

  /** The words of the padded message. */
  lemma {:induction false} AbcPadded()
    ensures
      var p := Padded(ABC);
      && |p| == 64
      && LittleWords(p, 16)[0] == 0x80636261 && LittleWords(p, 16)[14] == 24 && LittleWords(p, 16)[15] == 0
      && forall i :: 1 <= i < 14 ==> LittleWords(p, 16)[i] == 0
  {
    var p := Padded(ABC);
    assert p == ABC + [0x80] + Zeros(52) + [24, 0, 0, 0] + [0, 0, 0, 0];
    assert p[0..4] == [0x61, 0x62, 0x63, 0x80];
    forall i | 1 <= i < 14
      ensures LittleWord(p[4 * i..4 * i + 4]) == 0
    {
      assert p[4 * i..4 * i + 4] == [0, 0, 0, 0];
    }
    assert p[56..60] == [24, 0, 0, 0];
    assert p[60..64] == [0, 0, 0, 0];
  }

  lemma {:induction false} AbcBits(x: Block)
    requires x[0] == 0x80636261 && x[14] == 24 && x[15] == 0 && forall i :: 1 <= i < 14 ==> x[i] == 0
    ensures AbcBlock(BlockBits(x))
  {
  }

  lemma {:induction false} InitialRegisters()
    ensures RegistersOf(INITIAL) == Registers(0x67452301, 0xefcdab89, 0x98badcfe, 0x10325476)
  {
    hide ToBits;
    InitialBits();
  }

  lemma {:induction false} InitialBits()
    ensures ToBits(0x67452301) == 0x67452301 && ToBits(0xefcdab89) == 0xefcdab89
    ensures ToBits(0x98badcfe) == 0x98badcfe && ToBits(0x10325476) == 0x10325476
  {
  }

  lemma {:induction false} AbcWords()
    ensures StateOf(Registers(0x98500190, 0xb04fd23c, 0x7d3f96d6, 0x727fe128))
         == [0x98500190, 0xb04fd23c, 0x7d3f96d6, 0x727fe128]
  {
  }

  lemma {:induction false} AbcState(x: Block)
    requires x[0] == 0x80636261 && x[14] == 24 && x[15] == 0 && forall i :: 1 <= i < 14 ==> x[i] == 0
    ensures Md5Compression(INITIAL, x) == [0x98500190, 0xb04fd23c, 0x7d3f96d6, 0x727fe128]
  {
    hide Compress, BlockBits, AbcBlock, RegistersOf, StateOf;
    AbcBits(x);
    AbcCompressed(BlockBits(x));
    InitialRegisters();
    AbcWords();
  }

  /** A word leaves low-order byte first. */
  lemma {:induction false} BytesOf(w: word, b0: byte, b1: byte, b2: byte, b3: byte)
    requires w == b0 + 0x100 * b1 + 0x1_0000 * b2 + 0x100_0000 * b3
    ensures LittleBytes(w) == [b0, b1, b2, b3]
  {
    var q := b1 + 0x100 * b2 + 0x1_0000 * b3;
    LowByte(w, b0, q);
    LowByte(q, b1, b2 + 0x100 * b3);
    LowByte(b2 + 0x100 * b3, b2, b3);
  }

  lemma {:induction false} LowByte(n: int, b: byte, q: int)
    requires n == b + 0x100 * q
    ensures n % 0x100 == b && n / 0x100 == q
  {
  }

  lemma {:induction false} AbcOutput()
    ensures Output([0x98500190, 0xb04fd23c, 0x7d3f96d6, 0x727fe128])
         == [0x90, 0x01, 0x50, 0x98, 0x3c, 0xd2, 0x4f, 0xb0, 0xd6, 0x96, 0x3f, 0x7d, 0x28, 0xe1, 0x7f, 0x72]
  {
    hide LittleBytes;
    BytesOf(0x98500190, 0x90, 0x01, 0x50, 0x98);
    BytesOf(0xb04fd23c, 0x3c, 0xd2, 0x4f, 0xb0);
    BytesOf(0x7d3f96d6, 0xd6, 0x96, 0x3f, 0x7d);
    BytesOf(0x727fe128, 0x28, 0xe1, 0x7f, 0x72);
  }

  /** Section 3.3: the initial words, low-order byte first. */
  lemma {:induction false} InitialBytes()
    ensures Output(INITIAL)
         == [0x01, 0x23, 0x45, 0x67, 0x89, 0xab, 0xcd, 0xef, 0xfe, 0xdc, 0xba, 0x98, 0x76, 0x54, 0x32, 0x10]
  {
    hide LittleBytes;
    BytesOf(0x67452301, 0x01, 0x23, 0x45, 0x67);
    BytesOf(0xefcdab89, 0x89, 0xab, 0xcd, 0xef);
    BytesOf(0x98badcfe, 0xfe, 0xdc, 0xba, 0x98);
    BytesOf(0x10325476, 0x76, 0x54, 0x32, 0x10);
  }

  /** The digest of "abc" is 900150983cd24fb0d6963f7d28e17f72. */
  lemma {:induction false} AbcDigest()
    ensures Digest(Md5Compression, [0x61, 0x62, 0x63])
         == [0x90, 0x01, 0x50, 0x98, 0x3c, 0xd2, 0x4f, 0xb0, 0xd6, 0x96, 0x3f, 0x7d, 0x28, 0xe1, 0x7f, 0x72]
  {
    hide Md5Compression, Padded, LittleWords, Output;
    var p := Padded(ABC);
    AbcPadded();
    assert p[64 * 0..64 * 1] == p;
    assert Chain(Md5Compression, p, 0) == INITIAL;
    assert Chain(Md5Compression, p, 1) == Md5Compression(INITIAL, LittleWords(p, 16));
    AbcState(LittleWords(p, 16));
    AbcOutput();
  }
}
