/**
  Bytes and 64-bit words as the machine stores them: a word occupies eight
  bytes, least significant byte first; a signed word is kept in two's complement.
 */
module Words {
  type byte = n: int | 0 <= n < 256

  const WORD_SIZE: nat := 8
  const TWO_TO_63: int := 0x8000_0000_0000_0000
  const TWO_TO_64: int := 0x1_0000_0000_0000_0000

  type uword = n: int | 0 <= n < TWO_TO_64
  type word = n: int | -TWO_TO_63 <= n < TWO_TO_63

  datatype Option<+T> = None | Some(value: T)

  function Max(a: int, b: int): int {
    if a <= b then b else a
  }

  function Pow256(k: nat): nat {
    if k == 0 then 1 else 256 * Pow256(k - 1)
  }

  function LittleEndian(n: nat, k: nat): (s: seq<byte>)
    ensures |s| == k
  {
    if k == 0 then [] else [n % 256] + LittleEndian(n / 256, k - 1)
  }

  function FromLittleEndian(s: seq<byte>): (n: nat)
    ensures n < Pow256(|s|)
  {
    if s == [] then 0 else s[0] + 256 * FromLittleEndian(s[1..])
  }

  lemma {:induction false} LittleEndianRoundTrip(n: nat, k: nat)
    requires n < Pow256(k)
    ensures FromLittleEndian(LittleEndian(n, k)) == n
  {
    if k > 0 {
      LittleEndianRoundTrip(n / 256, k - 1);
      assert LittleEndian(n, k)[1..] == LittleEndian(n / 256, k - 1);
    }
  }

  function EncodeWord(w: int): (s: seq<byte>)
    ensures |s| == WORD_SIZE
  {
    LittleEndian(w % TWO_TO_64, WORD_SIZE)
  }

  function DecodeUWord(s: seq<byte>): uword
    requires |s| == WORD_SIZE
  {
    Pow256Word();
    FromLittleEndian(s)
  }

  function DecodeWord(s: seq<byte>): word
    requires |s| == WORD_SIZE
  {
    var u := DecodeUWord(s);
    if u < TWO_TO_63 then u else u - TWO_TO_64
  }

  lemma Pow256Word()
    ensures Pow256(WORD_SIZE) == TWO_TO_64
  {
    assert Pow256(4) == 0x1_0000_0000;
    assert Pow256(8) == 256 * (256 * (256 * (256 * Pow256(4))));
  }

  /** Storing a word and reading it back gives the word, signed or unsigned. */
  lemma WordRoundTrip(w: int)
    ensures 0 <= w < TWO_TO_64 ==> DecodeUWord(EncodeWord(w)) == w
    ensures -TWO_TO_63 <= w < TWO_TO_63 ==> DecodeWord(EncodeWord(w)) == w
  {
    Pow256Word();
    LittleEndianRoundTrip(w % TWO_TO_64, WORD_SIZE);
  }

  /** The low byte comes first. */
  lemma SmallWord(w: byte)
    ensures EncodeWord(w) == [w, 0, 0, 0, 0, 0, 0, 0]
  {
    assert LittleEndian(0, 1) == [0];
    assert LittleEndian(0, 3) == [0, 0, 0];
    assert LittleEndian(0, 5) == [0, 0, 0, 0, 0];
    assert LittleEndian(0, 7) == [0, 0, 0, 0, 0, 0, 0];
  }

  lemma ModuloUnique(a: nat, m: nat, q: nat, r: nat)
    requires a == q * m + r && r < m
    ensures a % m == r
  {
    var d := a / m - q;
    assert d * m == r - a % m by {
      assert a == (a / m) * m + a % m;
    }
    AtLeastOnce(d, m);
  }

  lemma AtLeastOnce(d: int, m: nat)
    ensures d >= 1 ==> d * m >= m
    ensures d <= -1 ==> d * m + m <= 0
  {
  }
}
