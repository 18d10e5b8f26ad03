/** The auxiliary functions of section 3.4 of RFC 1321, and those of md5.c, on 32-bit words. */
module Md5Bits {
  function F(x: bv32, y: bv32, z: bv32): (r: bv32) {
    (x & y) | (!x & z)
  }

  function G(x: bv32, y: bv32, z: bv32): (r: bv32) {
    (x & z) | (y & !z)
  }

  function H(x: bv32, y: bv32, z: bv32): (r: bv32) {
    x ^ y ^ z
  }

  function I(x: bv32, y: bv32, z: bv32): (r: bv32) {
    y ^ (x | !z)
  }

  function Add(x: bv32, y: bv32): (r: bv32) {
    x + y
  }

  /** The rotation of the macro MD5STEP. */
  function Rotate(w: bv32, s: bv32): (r: bv32)
    requires 0 < s < 32
  {
    (w << s) | (w >> (32 - s))
  }

  /** The bit of `w` that stands for 2^k. */
  predicate Bit(w: bv32, k: bv32)
    requires k < 32
  {
    (w >> k) & 1 == 1
  }

  lemma {:induction false} ShiftsMoveBits(w: bv32, s: bv32, k: bv32)
    requires 0 < s < 32 && k < 32
    ensures (((w << s) | (w >> (32 - s))) >> ((k + s) % 32)) & 1 == (w >> k) & 1
  {
  }

  /** Every bit moves `s` places up, and round to the low end from the high one. */
  lemma {:induction false} RotateMovesBits(w: bv32, s: bv32, k: bv32)
    requires 0 < s < 32 && k < 32
    ensures Bit(Rotate(w, s), (k + s) % 32) <==> Bit(w, k)
  {
    ShiftsMoveBits(w, s, k);
  }

  /** F as the code writes it. */
  function F1(x: bv32, y: bv32, z: bv32): (r: bv32)
  {
    z ^ (x & (y ^ z))
  }

  /** G as the code writes it. */
  function F2(x: bv32, y: bv32, z: bv32): (r: bv32)
  {
    F1(z, x, y)
  }

  function F3(x: bv32, y: bv32, z: bv32): (r: bv32) {
    x ^ y ^ z
  }

  function F4(x: bv32, y: bv32, z: bv32): (r: bv32) {
    y ^ (x | !z)
  }

  lemma {:induction false} AddCommutes(x: bv32, y: bv32)
    ensures Add(x, y) == Add(y, x)
  {
  }

  /** The shorter form selects the same bits. */
  lemma {:induction false} Selects(x: bv32, y: bv32, z: bv32)
    ensures ((x & y) | (!x & z)) == (z ^ (x & (y ^ z)))
  {
  }

  lemma {:induction false} F1IsF(x: bv32, y: bv32, z: bv32)
    ensures F1(x, y, z) == F(x, y, z)
  {
    Selects(x, y, z);
  }

  lemma {:induction false} F2IsG(x: bv32, y: bv32, z: bv32)
    ensures F2(x, y, z) == G(x, y, z)
  {
    Selects(z, x, y);
  }
}

/** MD5_Transform: the sixty-four unrolled steps against the four rounds of section 3.4 of RFC 1321. */
module Md5Transform {
  import opened Words
  import opened Rfc1321
  import Md5
  import opened Md5Bits

  /** The registers A, B, C, D. */
  datatype Registers = Registers(a: bv32, b: bv32, c: bv32, d: bv32)

  type Words16 = x: seq<bv32> | |x| == 16 witness seq(16, i => 0)

  // ---------- section 3.4 ----------

  /** The table T: the element for operation `j` of a round. */
  function Sine(round: nat, j: nat): (t: bv32)
    requires round < 4 && j < 16
  {
    match 16 * round + j
    case 0 => 0xd76aa478 case 1 => 0xe8c7b756 case 2 => 0x242070db case 3 => 0xc1bdceee
    case 4 => 0xf57c0faf case 5 => 0x4787c62a case 6 => 0xa8304613 case 7 => 0xfd469501
    case 8 => 0x698098d8 case 9 => 0x8b44f7af case 10 => 0xffff5bb1 case 11 => 0x895cd7be
    case 12 => 0x6b901122 case 13 => 0xfd987193 case 14 => 0xa679438e case 15 => 0x49b40821
    case 16 => 0xf61e2562 case 17 => 0xc040b340 case 18 => 0x265e5a51 case 19 => 0xe9b6c7aa
    case 20 => 0xd62f105d case 21 => 0x02441453 case 22 => 0xd8a1e681 case 23 => 0xe7d3fbc8
    case 24 => 0x21e1cde6 case 25 => 0xc33707d6 case 26 => 0xf4d50d87 case 27 => 0x455a14ed
    case 28 => 0xa9e3e905 case 29 => 0xfcefa3f8 case 30 => 0x676f02d9 case 31 => 0x8d2a4c8a
    case 32 => 0xfffa3942 case 33 => 0x8771f681 case 34 => 0x6d9d6122 case 35 => 0xfde5380c
    case 36 => 0xa4beea44 case 37 => 0x4bdecfa9 case 38 => 0xf6bb4b60 case 39 => 0xbebfbc70
    case 40 => 0x289b7ec6 case 41 => 0xeaa127fa case 42 => 0xd4ef3085 case 43 => 0x04881d05
    case 44 => 0xd9d4d039 case 45 => 0xe6db99e5 case 46 => 0x1fa27cf8 case 47 => 0xc4ac5665
    case 48 => 0xf4292244 case 49 => 0x432aff97 case 50 => 0xab9423a7 case 51 => 0xfc93a039
    case 52 => 0x655b59c3 case 53 => 0x8f0ccc92 case 54 => 0xffeff47d case 55 => 0x85845dd1
    case 56 => 0x6fa87e4f case 57 => 0xfe2ce6e0 case 58 => 0xa3014314 case 59 => 0x4e0811a1
    case 60 => 0xf7537e82 case 61 => 0xbd3af235 case 62 => 0x2ad7d2bb case _ => 0xeb86d391
  }

  /** The auxiliary function of a round. */
  function Mix(round: nat, x: bv32, y: bv32, z: bv32): (r: bv32)
    requires round < 4
  {
    match round
    case 0 => F(x, y, z)
    case 1 => G(x, y, z)
    case 2 => H(x, y, z)
    case _ => I(x, y, z)
  }

  /** Which word of the block an operation takes. */
  function WordIndex(round: nat, j: nat): (k: nat)
    requires round < 4 && j < 16
    ensures k < 16
  {
    match round
    case 0 => j
    case 1 => (5 * j + 1) % 16
    case 2 => (3 * j + 5) % 16
    case _ => 7 * j % 16
  }

  /** How far an operation rotates: four amounts a round, used in turn. */
  function Shift(round: nat, j: nat): (s: bv32)
    requires round < 4 && j < 16
    ensures 0 < s < 32
  {
    match round
    case 0 => [7, 12, 17, 22][j % 4]
    case 1 => [5, 9, 14, 20][j % 4]
    case 2 => [4, 11, 16, 23][j % 4]
    case _ => [6, 10, 15, 21][j % 4]
  }

  /** One operation: a = b + ((a + f(b, c, d) + X[k] + T[i]) <<< s), then the registers change places. */
  function Operation(round: nat, j: nat, r: Registers, x: Words16): (r': Registers)
    requires round < 4 && j < 16
  {
    var sum := Add(r.a, Add(Mix(round, r.b, r.c, r.d), Add(x[WordIndex(round, j)], Sine(round, j))));
    Registers(r.d, Add(r.b, Rotate(sum, Shift(round, j))), r.b, r.c)
  }

  /** The first `n` operations of a round. */
  function Operations(round: nat, n: nat, r: Registers, x: Words16): (r': Registers)
    requires round < 4 && n <= 16
  {
    if n == 0 then r else Operation(round, n - 1, Operations(round, n - 1, r, x), x)
  }

  /** The first `n` rounds. */
  function Rounds(n: nat, r: Registers, x: Words16): (r': Registers)
    requires n <= 4
  {
    if n == 0 then r else Operations(n - 1, 16, Rounds(n - 1, r, x), x)
  }

  /** All four rounds, and the addition of what the registers held before. */
  function Compress(r: Registers, x: Words16): (r': Registers)
  {
    var q := Rounds(4, r, x);
    Registers(Add(r.a, q.a), Add(r.b, q.b), Add(r.c, q.c), Add(r.d, q.d))
  }

  // ---------- md5.c ----------

  /** Each auxiliary function of the code is that of its round. */
  lemma {:induction false} MixIs(x: bv32, y: bv32, z: bv32)
    ensures F1(x, y, z) == Mix(0, x, y, z) && F2(x, y, z) == Mix(1, x, y, z)
    ensures F3(x, y, z) == Mix(2, x, y, z) && F4(x, y, z) == Mix(3, x, y, z)
  {
    hide F, G, F1, F2;
    F1IsF(x, y, z);
    F2IsG(x, y, z);
  }

  lemma {:induction false} NoOperations(round: nat, r: Registers, x: Words16)
    requires round < 4
    ensures Operations(round, 0, r, x) == r
  {
  }

  type Auxiliary = (bv32, bv32, bv32) -> bv32

  /** The macro MD5STEP: the new value of `w`. */
  function Step(f: Auxiliary, w: bv32, x: bv32, y: bv32, z: bv32, data: bv32, s: bv32): (r: bv32)
    requires 0 < s < 32
  {
    Add(Rotate(Add(w, Add(f(x, y, z), data)), s), x)
  }

  /** What a step is given belongs to operation `j`. */
  ghost predicate Fits(round: nat, j: nat, x: Words16, data: bv32, s: bv32)
  {
    round < 4 && j < 16 && data == Add(x[WordIndex(round, j)], Sine(round, j)) && s == Shift(round, j)
  }

  /** One step is one operation, on registers that the code leaves in place. */
  lemma {:induction false} StepIsOperation(round: nat, j: nat, r: Registers, x: Words16, f: Auxiliary, data: bv32,
                                           s: bv32)
    requires Fits(round, j, x, data, s) && f(r.b, r.c, r.d) == Mix(round, r.b, r.c, r.d)
    ensures Operation(round, j, r, x) == Registers(r.d, Step(f, r.a, r.b, r.c, r.d, data, s), r.b, r.c)
  {
    hide Add, Rotate, Mix, Sine, WordIndex, Shift;
    var v := f(r.b, r.c, r.d);
    AddCommutes(Rotate(Add(r.a, Add(v, data)), s), r.b);
  }

  /** Four consecutive steps, after which the registers are in their places again. */
  method Four(f: Auxiliary, a0: bv32, b0: bv32, c0: bv32, d0: bv32,
              ghost round: nat, ghost j: nat, ghost r: Registers, ghost x: Words16,
              data0: bv32, s0: bv32, data1: bv32, s1: bv32, data2: bv32, s2: bv32, data3: bv32, s3: bv32)
    returns (a: bv32, b: bv32, c: bv32, d: bv32)
    requires round < 4 && j <= 12
    requires forall x, y, z :: f(x, y, z) == Mix(round, x, y, z)
    requires Fits(round, j, x, data0, s0) && Fits(round, j + 1, x, data1, s1)
    requires Fits(round, j + 2, x, data2, s2) && Fits(round, j + 3, x, data3, s3)
    requires Registers(a0, b0, c0, d0) == Operations(round, j, r, x)
    ensures Registers(a, b, c, d) == Operations(round, j + 4, r, x)
  {
    hide Add, Rotate, Mix, Step, Operation, Sine, WordIndex, Shift;
    a, b, c, d := a0, b0, c0, d0;
    StepIsOperation(round, j, Registers(a, b, c, d), x, f, data0, s0);
    a := Step(f, a, b, c, d, data0, s0);
    assert Registers(d, a, b, c) == Operations(round, j + 1, r, x);
    StepIsOperation(round, j + 1, Registers(d, a, b, c), x, f, data1, s1);
    d := Step(f, d, a, b, c, data1, s1);
    assert Registers(c, d, a, b) == Operations(round, j + 2, r, x);
    StepIsOperation(round, j + 2, Registers(c, d, a, b), x, f, data2, s2);
    c := Step(f, c, d, a, b, data2, s2);
    assert Registers(b, c, d, a) == Operations(round, j + 3, r, x);
    StepIsOperation(round, j + 3, Registers(b, c, d, a), x, f, data3, s3);
    b := Step(f, b, c, d, a, data3, s3);
  }

  /** The words and rotations of round 1, as the code writes them out. */
  lemma {:induction false} Schedule1()
    ensures Shift(0, 0) == 7 && Shift(0, 1) == 12 && Shift(0, 2) == 17 && Shift(0, 3) == 22
    ensures WordIndex(0, 0) == 0 && WordIndex(0, 1) == 1 && WordIndex(0, 2) == 2 && WordIndex(0, 3) == 3
    ensures Shift(0, 4) == 7 && Shift(0, 5) == 12 && Shift(0, 6) == 17 && Shift(0, 7) == 22
    ensures WordIndex(0, 4) == 4 && WordIndex(0, 5) == 5 && WordIndex(0, 6) == 6 && WordIndex(0, 7) == 7
    ensures Shift(0, 8) == 7 && Shift(0, 9) == 12 && Shift(0, 10) == 17 && Shift(0, 11) == 22
    ensures WordIndex(0, 8) == 8 && WordIndex(0, 9) == 9 && WordIndex(0, 10) == 10 && WordIndex(0, 11) == 11
    ensures Shift(0, 12) == 7 && Shift(0, 13) == 12 && Shift(0, 14) == 17 && Shift(0, 15) == 22
    ensures WordIndex(0, 12) == 12 && WordIndex(0, 13) == 13 && WordIndex(0, 14) == 14 && WordIndex(0, 15) == 15
  {
  }

  /** The constants of round 1, as the code writes them out, are those of the table. */
  lemma {:induction false} Constants1()
    ensures Sine(0, 0) == 0xd76aa478 && Sine(0, 1) == 0xe8c7b756 && Sine(0, 2) == 0x242070db && Sine(0, 3) == 0xc1bdceee
    ensures Sine(0, 4) == 0xf57c0faf && Sine(0, 5) == 0x4787c62a && Sine(0, 6) == 0xa8304613 && Sine(0, 7) == 0xfd469501
    ensures Sine(0, 8) == 0x698098d8 && Sine(0, 9) == 0x8b44f7af && Sine(0, 10) == 0xffff5bb1
      && Sine(0, 11) == 0x895cd7be
    ensures Sine(0, 12) == 0x6b901122 && Sine(0, 13) == 0xfd987193 && Sine(0, 14) == 0xa679438e
      && Sine(0, 15) == 0x49b40821
  {
  }

  /** Steps 1 to 16. */
  method Round1(a0: bv32, b0: bv32, c0: bv32, d0: bv32, x: Words16) returns (a: bv32, b: bv32, c: bv32, d: bv32)
    ensures Registers(a, b, c, d) == Operations(0, 16, Registers(a0, b0, c0, d0), x)
  {
    hide Add, Sine, WordIndex, Shift, Operation, Operations, Mix, F1, F2, F3, F4;
    var f: Auxiliary := F1;
    ghost var r := Registers(a0, b0, c0, d0);
    forall x, y, z ensures f(x, y, z) == Mix(0, x, y, z) { MixIs(x, y, z); }
    NoOperations(0, r, x);
    Schedule1();
    Constants1();
    a, b, c, d := Four(f, a0, b0, c0, d0, 0, 0, r, x,
      Add(x[0], 0xd76aa478), 7, Add(x[1], 0xe8c7b756), 12, Add(x[2], 0x242070db), 17, Add(x[3], 0xc1bdceee), 22);
    a, b, c, d := Four(f, a, b, c, d, 0, 4, r, x,
      Add(x[4], 0xf57c0faf), 7, Add(x[5], 0x4787c62a), 12, Add(x[6], 0xa8304613), 17, Add(x[7], 0xfd469501), 22);
    a, b, c, d := Four(f, a, b, c, d, 0, 8, r, x,
      Add(x[8], 0x698098d8), 7, Add(x[9], 0x8b44f7af), 12, Add(x[10], 0xffff5bb1), 17, Add(x[11], 0x895cd7be), 22);
    a, b, c, d := Four(f, a, b, c, d, 0, 12, r, x,
      Add(x[12], 0x6b901122), 7, Add(x[13], 0xfd987193), 12, Add(x[14], 0xa679438e), 17, Add(x[15], 0x49b40821), 22);
  }

  /** The words and rotations of round 2, as the code writes them out. */
  lemma {:induction false} Schedule2()
    ensures Shift(1, 0) == 5 && Shift(1, 1) == 9 && Shift(1, 2) == 14 && Shift(1, 3) == 20
    ensures WordIndex(1, 0) == 1 && WordIndex(1, 1) == 6 && WordIndex(1, 2) == 11 && WordIndex(1, 3) == 0
    ensures Shift(1, 4) == 5 && Shift(1, 5) == 9 && Shift(1, 6) == 14 && Shift(1, 7) == 20
    ensures WordIndex(1, 4) == 5 && WordIndex(1, 5) == 10 && WordIndex(1, 6) == 15 && WordIndex(1, 7) == 4
    ensures Shift(1, 8) == 5 && Shift(1, 9) == 9 && Shift(1, 10) == 14 && Shift(1, 11) == 20
    ensures WordIndex(1, 8) == 9 && WordIndex(1, 9) == 14 && WordIndex(1, 10) == 3 && WordIndex(1, 11) == 8
    ensures Shift(1, 12) == 5 && Shift(1, 13) == 9 && Shift(1, 14) == 14 && Shift(1, 15) == 20
    ensures WordIndex(1, 12) == 13 && WordIndex(1, 13) == 2 && WordIndex(1, 14) == 7 && WordIndex(1, 15) == 12
  {
  }

  /** The constants of round 2, as the code writes them out, are those of the table. */
  lemma {:induction false} Constants2()
    ensures Sine(1, 0) == 0xf61e2562 && Sine(1, 1) == 0xc040b340 && Sine(1, 2) == 0x265e5a51 && Sine(1, 3) == 0xe9b6c7aa
    ensures Sine(1, 4) == 0xd62f105d && Sine(1, 5) == 0x02441453 && Sine(1, 6) == 0xd8a1e681 && Sine(1, 7) == 0xe7d3fbc8
    ensures Sine(1, 8) == 0x21e1cde6 && Sine(1, 9) == 0xc33707d6 && Sine(1, 10) == 0xf4d50d87
      && Sine(1, 11) == 0x455a14ed
    ensures Sine(1, 12) == 0xa9e3e905 && Sine(1, 13) == 0xfcefa3f8 && Sine(1, 14) == 0x676f02d9
      && Sine(1, 15) == 0x8d2a4c8a
  {
  }

  /** Steps 17 to 32. */
  method Round2(a0: bv32, b0: bv32, c0: bv32, d0: bv32, x: Words16) returns (a: bv32, b: bv32, c: bv32, d: bv32)
    ensures Registers(a, b, c, d) == Operations(1, 16, Registers(a0, b0, c0, d0), x)
  {
    hide Add, Sine, WordIndex, Shift, Operation, Operations, Mix, F1, F2, F3, F4;
    var f: Auxiliary := F2;
    ghost var r := Registers(a0, b0, c0, d0);
    forall x, y, z ensures f(x, y, z) == Mix(1, x, y, z) { MixIs(x, y, z); }
    NoOperations(1, r, x);
    Schedule2();
    Constants2();
    a, b, c, d := Four(f, a0, b0, c0, d0, 1, 0, r, x,
      Add(x[1], 0xf61e2562), 5, Add(x[6], 0xc040b340), 9, Add(x[11], 0x265e5a51), 14, Add(x[0], 0xe9b6c7aa), 20);
    a, b, c, d := Four(f, a, b, c, d, 1, 4, r, x,
      Add(x[5], 0xd62f105d), 5, Add(x[10], 0x02441453), 9, Add(x[15], 0xd8a1e681), 14, Add(x[4], 0xe7d3fbc8), 20);
    a, b, c, d := Four(f, a, b, c, d, 1, 8, r, x,
      Add(x[9], 0x21e1cde6), 5, Add(x[14], 0xc33707d6), 9, Add(x[3], 0xf4d50d87), 14, Add(x[8], 0x455a14ed), 20);
    a, b, c, d := Four(f, a, b, c, d, 1, 12, r, x,
      Add(x[13], 0xa9e3e905), 5, Add(x[2], 0xfcefa3f8), 9, Add(x[7], 0x676f02d9), 14, Add(x[12], 0x8d2a4c8a), 20);
  }

  /** The words and rotations of round 3, as the code writes them out. */
  lemma {:induction false} Schedule3()
    ensures Shift(2, 0) == 4 && Shift(2, 1) == 11 && Shift(2, 2) == 16 && Shift(2, 3) == 23
    ensures WordIndex(2, 0) == 5 && WordIndex(2, 1) == 8 && WordIndex(2, 2) == 11 && WordIndex(2, 3) == 14
    ensures Shift(2, 4) == 4 && Shift(2, 5) == 11 && Shift(2, 6) == 16 && Shift(2, 7) == 23
    ensures WordIndex(2, 4) == 1 && WordIndex(2, 5) == 4 && WordIndex(2, 6) == 7 && WordIndex(2, 7) == 10
    ensures Shift(2, 8) == 4 && Shift(2, 9) == 11 && Shift(2, 10) == 16 && Shift(2, 11) == 23
    ensures WordIndex(2, 8) == 13 && WordIndex(2, 9) == 0 && WordIndex(2, 10) == 3 && WordIndex(2, 11) == 6
    ensures Shift(2, 12) == 4 && Shift(2, 13) == 11 && Shift(2, 14) == 16 && Shift(2, 15) == 23
    ensures WordIndex(2, 12) == 9 && WordIndex(2, 13) == 12 && WordIndex(2, 14) == 15 && WordIndex(2, 15) == 2
  {
  }

  /** The constants of round 3, as the code writes them out, are those of the table. */
  lemma {:induction false} Constants3()
    ensures Sine(2, 0) == 0xfffa3942 && Sine(2, 1) == 0x8771f681 && Sine(2, 2) == 0x6d9d6122 && Sine(2, 3) == 0xfde5380c
    ensures Sine(2, 4) == 0xa4beea44 && Sine(2, 5) == 0x4bdecfa9 && Sine(2, 6) == 0xf6bb4b60 && Sine(2, 7) == 0xbebfbc70
    ensures Sine(2, 8) == 0x289b7ec6 && Sine(2, 9) == 0xeaa127fa && Sine(2, 10) == 0xd4ef3085
      && Sine(2, 11) == 0x04881d05
    ensures Sine(2, 12) == 0xd9d4d039 && Sine(2, 13) == 0xe6db99e5 && Sine(2, 14) == 0x1fa27cf8
      && Sine(2, 15) == 0xc4ac5665
  {
  }

  /** Steps 33 to 48. */
  method Round3(a0: bv32, b0: bv32, c0: bv32, d0: bv32, x: Words16) returns (a: bv32, b: bv32, c: bv32, d: bv32)
    ensures Registers(a, b, c, d) == Operations(2, 16, Registers(a0, b0, c0, d0), x)
  {
    hide Add, Sine, WordIndex, Shift, Operation, Operations, Mix, F1, F2, F3, F4;
    var f: Auxiliary := F3;
    ghost var r := Registers(a0, b0, c0, d0);
    forall x, y, z ensures f(x, y, z) == Mix(2, x, y, z) { MixIs(x, y, z); }
    NoOperations(2, r, x);
    Schedule3();
    Constants3();
    a, b, c, d := Four(f, a0, b0, c0, d0, 2, 0, r, x,
      Add(x[5], 0xfffa3942), 4, Add(x[8], 0x8771f681), 11, Add(x[11], 0x6d9d6122), 16, Add(x[14], 0xfde5380c), 23);
    a, b, c, d := Four(f, a, b, c, d, 2, 4, r, x,
      Add(x[1], 0xa4beea44), 4, Add(x[4], 0x4bdecfa9), 11, Add(x[7], 0xf6bb4b60), 16, Add(x[10], 0xbebfbc70), 23);
    a, b, c, d := Four(f, a, b, c, d, 2, 8, r, x,
      Add(x[13], 0x289b7ec6), 4, Add(x[0], 0xeaa127fa), 11, Add(x[3], 0xd4ef3085), 16, Add(x[6], 0x04881d05), 23);
    a, b, c, d := Four(f, a, b, c, d, 2, 12, r, x,
      Add(x[9], 0xd9d4d039), 4, Add(x[12], 0xe6db99e5), 11, Add(x[15], 0x1fa27cf8), 16, Add(x[2], 0xc4ac5665), 23);
  }

  /** The words and rotations of round 4, as the code writes them out. */
  lemma {:induction false} Schedule4()
    ensures Shift(3, 0) == 6 && Shift(3, 1) == 10 && Shift(3, 2) == 15 && Shift(3, 3) == 21
    ensures WordIndex(3, 0) == 0 && WordIndex(3, 1) == 7 && WordIndex(3, 2) == 14 && WordIndex(3, 3) == 5
    ensures Shift(3, 4) == 6 && Shift(3, 5) == 10 && Shift(3, 6) == 15 && Shift(3, 7) == 21
    ensures WordIndex(3, 4) == 12 && WordIndex(3, 5) == 3 && WordIndex(3, 6) == 10 && WordIndex(3, 7) == 1
    ensures Shift(3, 8) == 6 && Shift(3, 9) == 10 && Shift(3, 10) == 15 && Shift(3, 11) == 21
    ensures WordIndex(3, 8) == 8 && WordIndex(3, 9) == 15 && WordIndex(3, 10) == 6 && WordIndex(3, 11) == 13
    ensures Shift(3, 12) == 6 && Shift(3, 13) == 10 && Shift(3, 14) == 15 && Shift(3, 15) == 21
    ensures WordIndex(3, 12) == 4 && WordIndex(3, 13) == 11 && WordIndex(3, 14) == 2 && WordIndex(3, 15) == 9
  {
  }

  /** The constants of round 4, as the code writes them out, are those of the table. */
  lemma {:induction false} Constants4()
    ensures Sine(3, 0) == 0xf4292244 && Sine(3, 1) == 0x432aff97 && Sine(3, 2) == 0xab9423a7 && Sine(3, 3) == 0xfc93a039
    ensures Sine(3, 4) == 0x655b59c3 && Sine(3, 5) == 0x8f0ccc92 && Sine(3, 6) == 0xffeff47d && Sine(3, 7) == 0x85845dd1
    ensures Sine(3, 8) == 0x6fa87e4f && Sine(3, 9) == 0xfe2ce6e0 && Sine(3, 10) == 0xa3014314
      && Sine(3, 11) == 0x4e0811a1
    ensures Sine(3, 12) == 0xf7537e82 && Sine(3, 13) == 0xbd3af235 && Sine(3, 14) == 0x2ad7d2bb
      && Sine(3, 15) == 0xeb86d391
  {
  }

  /** Steps 49 to 64. */
  method Round4(a0: bv32, b0: bv32, c0: bv32, d0: bv32, x: Words16) returns (a: bv32, b: bv32, c: bv32, d: bv32)
    ensures Registers(a, b, c, d) == Operations(3, 16, Registers(a0, b0, c0, d0), x)
  {
    hide Add, Sine, WordIndex, Shift, Operation, Operations, Mix, F1, F2, F3, F4;
    var f: Auxiliary := F4;
    ghost var r := Registers(a0, b0, c0, d0);
    forall x, y, z ensures f(x, y, z) == Mix(3, x, y, z) { MixIs(x, y, z); }
    NoOperations(3, r, x);
    Schedule4();
    Constants4();
    a, b, c, d := Four(f, a0, b0, c0, d0, 3, 0, r, x,
      Add(x[0], 0xf4292244), 6, Add(x[7], 0x432aff97), 10, Add(x[14], 0xab9423a7), 15, Add(x[5], 0xfc93a039), 21);
    a, b, c, d := Four(f, a, b, c, d, 3, 4, r, x,
      Add(x[12], 0x655b59c3), 6, Add(x[3], 0x8f0ccc92), 10, Add(x[10], 0xffeff47d), 15, Add(x[1], 0x85845dd1), 21);
    a, b, c, d := Four(f, a, b, c, d, 3, 8, r, x,
      Add(x[8], 0x6fa87e4f), 6, Add(x[15], 0xfe2ce6e0), 10, Add(x[6], 0xa3014314), 15, Add(x[13], 0x4e0811a1), 21);
    a, b, c, d := Four(f, a, b, c, d, 3, 12, r, x,
      Add(x[4], 0xf7537e82), 6, Add(x[11], 0xbd3af235), 10, Add(x[2], 0x2ad7d2bb), 15, Add(x[9], 0xeb86d391), 21);
  }

  lemma {:induction false} FourRounds(r: Registers, x: Words16)
    ensures Rounds(4, r, x) == Operations(3, 16, Operations(2, 16, Operations(1, 16, Operations(0, 16, r, x), x), x), x)
  {
    hide Operations;
    assert Rounds(1, r, x) == Operations(0, 16, r, x);
    assert Rounds(2, r, x) == Operations(1, 16, Rounds(1, r, x), x);
    assert Rounds(3, r, x) == Operations(2, 16, Rounds(2, r, x), x);
  }

  /** MD5_Transform. */
  method Transform(buf: array<bv32>, x: Words16)
    requires buf.Length == 4
    modifies buf
    ensures Registers(buf[0], buf[1], buf[2], buf[3])
         == Compress(Registers(old(buf[0]), old(buf[1]), old(buf[2]), old(buf[3])), x)
  {
    hide Add, Operations, Rounds;
    FourRounds(Registers(buf[0], buf[1], buf[2], buf[3]), x);
    var a, b, c, d := buf[0], buf[1], buf[2], buf[3];
    a, b, c, d := Round1(a, b, c, d, x);
    a, b, c, d := Round2(a, b, c, d, x);
    a, b, c, d := Round3(a, b, c, d, x);
    a, b, c, d := Round4(a, b, c, d, x);
    buf[0] := Add(buf[0], a);
    buf[1] := Add(buf[1], b);
    buf[2] := Add(buf[2], c);
    buf[3] := Add(buf[3], d);
  }

  // ---------- words as numbers ----------

  function ToBits(w: word): (b: bv32) {
    w as bv32
  }

  function ToWord(b: bv32): (w: word) {
    b as int
  }

  function BlockBits(x: Block): (y: Words16) {
    seq(16, i requires 0 <= i < 16 => ToBits(x[i]))
  }

  function RegistersOf(s: State): (r: Registers) {
    Registers(ToBits(s[0]), ToBits(s[1]), ToBits(s[2]), ToBits(s[3]))
  }

  function StateOf(r: Registers): (s: State) {
    [ToWord(r.a), ToWord(r.b), ToWord(r.c), ToWord(r.d)]
  }

  /** The compression function of MD5, as the digest takes it. */
  function Md5Compression(s: State, x: Block): (s': State) {
    StateOf(Compress(RegistersOf(s), BlockBits(x)))
  }

  /** MD5_Transform on words held as numbers. */
  method TransformWords(buf: array<word>, x: Block)
    requires buf.Length == 4
    modifies buf
    ensures buf[..] == Md5Compression(old(buf[..]), x)
  {
    hide Compress, ToBits, ToWord;
    var bits := new bv32[4](i requires 0 <= i < 4 reads buf => ToBits(buf[i]));
    Transform(bits, BlockBits(x));
    forall i | 0 <= i < 4 {
      buf[i] := ToWord(bits[i]);
    }
    assert buf[..] == [buf[0], buf[1], buf[2], buf[3]];
  }

  /** The MD5 sum of a message fed in pieces. */
  method Md5Sum(bigEndian: bool, pieces: seq<seq<byte>>) returns (digest: seq<byte>)
    requires forall i :: 0 <= i < |pieces| ==> |pieces[i]| < TWO_TO_THE_32
    ensures digest == Digest(Md5Compression, Md5.Joined(pieces))
  {
    digest := Md5.DigestOfPieces(Md5Compression, bigEndian, pieces);
  }
}
