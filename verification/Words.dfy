/** Bytes, 32-bit words and the two byte orders in which a host may store a word. */
module Words {
  datatype Option<+T> = None | Some(value: T)

  type byte = x: int | 0 <= x < 256

  type word = x: int | 0 <= x < 0x1_0000_0000

  const TWO_TO_THE_32 := 0x1_0000_0000
  const TWO_TO_THE_64 := 0x1_0000_0000_0000_0000

  /** The values of C's int and, as everywhere the installer runs, long. */
  predicate FitsInt(n: int) {
    -0x8000_0000 <= n < 0x8000_0000
  }

  predicate FitsLong(n: int) {
    -0x8000_0000_0000_0000 <= n < 0x8000_0000_0000_0000
  }

  /** Narrowing to a 32-bit int. */
  function Signed32(n: int): (r: int)
    ensures FitsInt(r) && (FitsInt(n) ==> r == n) && (n - r) % 0x1_0000_0000 == 0
  {
    var w := n % TWO_TO_THE_32;
    if w < 0x8000_0000 then w else w - TWO_TO_THE_32
  }

  function Zeros(n: nat): (z: seq<byte>)
    ensures |z| == n
  {
    seq(n, i => 0)
  }

  /** The word whose low-order byte comes first. */
  function LittleWord(b: seq<byte>): (w: word)
    requires |b| == 4
  {
    b[0] as int + 0x100 * (b[1] as int) + 0x10000 * (b[2] as int) + 0x1000000 * (b[3] as int)
  }

  /** The word whose high-order byte comes first. */
  function BigWord(b: seq<byte>): (w: word)
    requires |b| == 4
  {
    b[3] as int + 0x100 * (b[2] as int) + 0x10000 * (b[1] as int) + 0x1000000 * (b[0] as int)
  }

  function LittleBytes(w: word): (b: seq<byte>)
    ensures |b| == 4 && LittleWord(b) == w
  {
    var q1 := w / 0x100;
    var q2 := q1 / 0x100;
    var q3 := q2 / 0x100;
    [w % 0x100, q1 % 0x100, q2 % 0x100, q3]
  }

  function BigBytes(w: word): (b: seq<byte>)
    ensures |b| == 4 && BigWord(b) == w
  {
    var b := LittleBytes(w);
    [b[3], b[2], b[1], b[0]]
  }

  /** Loading a word from memory on a host of the given byte order. */
  function NativeWord(bigEndian: bool, b: seq<byte>): (w: word)
    requires |b| == 4
  {
    if bigEndian then BigWord(b) else LittleWord(b)
  }

  /** Storing a word to memory on a host of the given byte order. */
  function NativeBytes(bigEndian: bool, w: word): (b: seq<byte>)
    ensures |b| == 4 && NativeWord(bigEndian, b) == w
  {
    if bigEndian then BigBytes(w) else LittleBytes(w)
  }

  /** The first `n` words of memory on a host of the given byte order. */
  function NativeWords(bigEndian: bool, b: seq<byte>, n: nat): (ws: seq<word>)
    requires 4 * n <= |b|
    ensures |ws| == n
  {
    seq(n, k requires 0 <= k < n => NativeWord(bigEndian, b[4 * k..4 * k + 4]))
  }

  function LittleWords(b: seq<byte>, n: nat): (ws: seq<word>)
    requires 4 * n <= |b|
    ensures |ws| == n
  {
    NativeWords(false, b, n)
  }

  /** Two words stored after `n` others are read back after them. */
  lemma {:induction false} NativeWordsAppendTwo(bigEndian: bool, a: seq<byte>, n: nat, v: seq<byte>, w: seq<byte>)
    requires |a| == 4 * n && |v| == |w| == 4
    ensures NativeWords(bigEndian, a + v + w, n + 2)
         == NativeWords(bigEndian, a, n) + [NativeWord(bigEndian, v), NativeWord(bigEndian, w)]
  {
    hide NativeWord;
    var b := a + v + w;
    forall k | 0 <= k < n
      ensures b[4 * k..4 * k + 4] == a[4 * k..4 * k + 4]
    {
    }
    assert b[4 * n..4 * n + 4] == v;
    assert b[4 * (n + 1)..4 * (n + 1) + 4] == w;
  }
}
