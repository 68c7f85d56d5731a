/**
  Machine words as bits, least significant first: rounding up to a power of two,
  bit fields, and the two places that rely on them, buffers and tags.
 */
module Bits {
  import opened Words

  type Bits = seq<bool>

  const WORD_BITS: nat := 64

  function Pow2(n: nat): (p: nat)
    ensures p >= 1
  {
    if n == 0 then 1 else 2 * Pow2(n - 1)
  }

  function ValueOf(b: Bits): (n: nat)
    ensures n < Pow2(|b|)
  {
    if b == [] then 0 else (if b[0] then 1 else 0) + 2 * ValueOf(b[1..])
  }

  function BitsOf(n: nat, len: nat): (b: Bits)
    ensures |b| == len
  {
    if len == 0 then [] else [n % 2 == 1] + BitsOf(n / 2, len - 1)
  }

  lemma {:induction false} BitsRoundTrip(n: nat, len: nat)
    requires n < Pow2(len)
    ensures ValueOf(BitsOf(n, len)) == n
  {
    if len > 0 {
      BitsRoundTrip(n / 2, len - 1);
      assert BitsOf(n, len)[1..] == BitsOf(n / 2, len - 1);
    }
  }

  function And(a: Bits, b: Bits): (r: Bits)
    requires |a| == |b|
    ensures |r| == |a| && forall i :: 0 <= i < |r| ==> (r[i] <==> a[i] && b[i])
  {
    seq(|a|, i requires 0 <= i < |a| => a[i] && b[i])
  }

  function Or(a: Bits, b: Bits): (r: Bits)
    requires |a| == |b|
    ensures |r| == |a| && forall i :: 0 <= i < |r| ==> (r[i] <==> a[i] || b[i])
  {
    seq(|a|, i requires 0 <= i < |a| => a[i] || b[i])
  }

  function Complement(a: Bits): (r: Bits)
    ensures |r| == |a| && forall i :: 0 <= i < |r| ==> (r[i] <==> !a[i])
  {
    seq(|a|, i requires 0 <= i < |a| => !a[i])
  }

  function Shr(a: Bits, n: nat): (r: Bits)
    ensures |r| == |a| && forall i :: 0 <= i < |r| ==> (r[i] <==> i + n < |a| && a[i + n])
  {
    seq(|a|, i requires 0 <= i < |a| => i + n < |a| && a[i + n])
  }

  function Shl(a: Bits, n: nat): (r: Bits)
    ensures |r| == |a| && forall i :: 0 <= i < |r| ==> (r[i] <==> i >= n && a[i - n])
  {
    seq(|a|, i requires 0 <= i < |a| => i >= n && a[i - n])
  }

  /** The word whose lowest `n` bits are set. */
  function Ones(len: nat, n: nat): (r: Bits)
    ensures |r| == len && forall i :: 0 <= i < len ==> (r[i] <==> i < n)
  {
    seq(len, i => i < n)
  }

  lemma {:induction false} OnesValue(len: nat, n: nat)
    requires n <= len
    ensures ValueOf(Ones(len, n)) == Pow2(n) - 1
  {
    if len > 0 {
      assert Ones(len, n)[1..] == Ones(len - 1, if n == 0 then 0 else n - 1);
      OnesValue(len - 1, if n == 0 then 0 else n - 1);
    }
  }

  // Powers of two.

  /** Each bit of the result is set when the word has a bit in the window of `n` bits that starts there. */
  ghost predicate Smeared(y: Bits, n: nat, b: Bits) {
    |b| == |y| && forall i :: 0 <= i < |y| ==> (b[i] <==> exists j :: i <= j < i + n && j < |y| && y[j])
  }

  lemma SmearTwice(y: Bits, n: nat, b: Bits)
    requires Smeared(y, n, b)
    ensures Smeared(y, 2 * n, Or(b, Shr(b, n)))
  {
    var r := Or(b, Shr(b, n));
    forall i | 0 <= i < |y|
      ensures r[i] <==> exists j :: i <= j < i + 2 * n && j < |y| && y[j]
    {
      if j :| i <= j < i + 2 * n && j < |y| && y[j] {
        if j < i + n {
          assert b[i];
        } else {
          assert b[i + n];
        }
      }
    }
  }

  /** The highest set bit of a word that is not zero. */
  lemma {:induction false} TopBit(y: Bits) returns (t: nat)
    requires ValueOf(y) > 0
    ensures t < |y| && y[t] && (forall j :: t < j < |y| ==> !y[j])
    ensures Pow2(t) <= ValueOf(y) < Pow2(t + 1)
  {
    if ValueOf(y[1..]) > 0 {
      var t' := TopBit(y[1..]);
      t := t' + 1;
      assert forall j :: t < j < |y| ==> y[j] == y[1..][j - 1];
    } else {
      t := 0;
      ZeroBits(y[1..]);
      assert forall j :: 0 < j < |y| ==> y[j] == y[1..][j - 1];
    }
  }

  lemma {:induction false} ZeroBits(b: Bits)
    requires ValueOf(b) == 0
    ensures forall j :: 0 <= j < |b| ==> !b[j]
  {
    if b != [] {
      ZeroBits(b[1..]);
      assert forall j :: 1 <= j < |b| ==> b[j] == b[1..][j - 1];
    }
  }

  lemma {:induction false} Pow2Monotone(a: nat, b: nat)
    requires a <= b
    ensures Pow2(a) <= Pow2(b)
  {
    if a < b { Pow2Monotone(a, b - 1); }
  }

  ghost predicate IsPowerOfTwo(n: int) {
    exists k: nat :: n == Pow2(k)
  }

  /** Smearing the bits of `x - 1` downwards and adding one gives the least power of two that is not below `x`. */
  method RoundUpPow2(x: int) returns (r: nat)
    requires 1 <= x <= Pow2(62)
    ensures IsPowerOfTwo(r) && x <= r
    ensures forall k: nat :: x <= Pow2(k) ==> r <= Pow2(k)
  {
    hide Pow2;
    Pow2Monotone(62, WORD_BITS);
    var y := BitsOf(x - 1, WORD_BITS);
    BitsRoundTrip(x - 1, WORD_BITS);
    var b := Smear(y);
    FullySmeared(y, b);
    r := ValueOf(b) + 1;
  }

  /** Copies every bit to all lower places, doubling the distance covered each time. */
  method Smear(y: Bits) returns (b: Bits)
    ensures Smeared(y, 64, b)
  {
    b := y;
    assert Smeared(y, 1, b);
    hide Smeared, Or, Shr;
    SmearTwice(y, 1, b);
    b := Or(b, Shr(b, 1));
    SmearTwice(y, 2, b);
    b := Or(b, Shr(b, 2));
    SmearTwice(y, 4, b);
    b := Or(b, Shr(b, 4));
    SmearTwice(y, 8, b);
    b := Or(b, Shr(b, 8));
    SmearTwice(y, 16, b);
    b := Or(b, Shr(b, 16));
    SmearTwice(y, 32, b);
    b := Or(b, Shr(b, 32));
  }

  lemma FullySmeared(y: Bits, b: Bits)
    requires |y| == WORD_BITS && Smeared(y, 64, b)
    ensures var r := ValueOf(b) + 1;
            IsPowerOfTwo(r) && ValueOf(y) < r && forall k: nat :: ValueOf(y) < Pow2(k) ==> r <= Pow2(k)
  {
    if ValueOf(y) == 0 {
      ZeroBits(y);
      assert b == Ones(64, 0);
      OnesValue(64, 0);
      assert ValueOf(b) + 1 == Pow2(0);
    } else {
      var t := TopBit(y);
      assert b == Ones(64, t + 1) by {
        forall i | 0 <= i < 64 ensures b[i] <==> i < t + 1 {
          if i <= t { assert i <= t < i + 64 && y[t]; }
        }
      }
      OnesValue(64, t + 1);
      forall k: nat | ValueOf(y) < Pow2(k) ensures Pow2(t + 1) <= Pow2(k) {
        if k <= t { Pow2Monotone(k, t); }
        Pow2Monotone(t + 1, Max(k, t + 1));
      }
    }
  }

  // `IsPow2`.

  /** One less, by borrowing. */
  function Decremented(b: Bits): (r: Bits)
    ensures |r| == |b|
  {
    if b == [] then [] else if b[0] then [false] + b[1..] else [true] + Decremented(b[1..])
  }

  lemma {:induction false} DecrementedValue(b: Bits)
    requires ValueOf(b) > 0
    ensures ValueOf(Decremented(b)) == ValueOf(b) - 1
  {
    if b[0] {
      assert Decremented(b)[1..] == b[1..];
    } else {
      DecrementedValue(b[1..]);
      assert Decremented(b)[1..] == Decremented(b[1..]);
    }
  }

  predicate IsPow2(b: Bits) {
    ValueOf(And(b, Decremented(b))) == 0 && ValueOf(b) != 0
  }

  /** The bit test recognises exactly the powers of two. */
  lemma {:induction false} IsPow2Iff(b: Bits)
    ensures IsPow2(b) <==> IsPowerOfTwo(ValueOf(b))
  {
    if b != [] && ValueOf(b) != 0 {
      var rest := b[1..];
      if b[0] {
        assert And(b, Decremented(b))[1..] == rest by {
          assert forall i :: 0 <= i < |rest| ==> b[i + 1] == rest[i] && Decremented(b)[i + 1] == rest[i];
        }
        if ValueOf(rest) == 0 {
          assert ValueOf(b) == Pow2(0);
        }
        if k: nat :| ValueOf(b) == Pow2(k) {
          assert k == 0;
        }
      } else {
        IsPow2Iff(rest);
        assert Decremented(b)[1..] == Decremented(rest);
        assert And(b, Decremented(b))[1..] == And(rest, Decremented(rest)) by {
          assert forall i :: 0 <= i < |rest| ==> b[i + 1] == rest[i] && Decremented(b)[i + 1] == Decremented(rest)[i];
        }
        HalfPower(ValueOf(rest));
      }
    }
  }

  lemma HalfPower(n: nat)
    requires n > 0
    ensures IsPowerOfTwo(2 * n) <==> IsPowerOfTwo(n)
  {
    if k: nat :| 2 * n == Pow2(k) {
      assert n == Pow2(k - 1);
    }
    if k: nat :| n == Pow2(k) {
      assert 2 * n == Pow2(k + 1);
    }
  }

  // Bit fields.

  /** The bits of a field that starts at `position`. */
  datatype Field = Field(position: nat, size: nat)
  {
    predicate Fits() {
      size < WORD_BITS && position + size <= WORD_BITS
    }

    predicate Apart(f: Field) {
      position + size <= f.position || f.position + f.size <= position
    }

    function Mask(): Bits {
      Ones(WORD_BITS, size)
    }

    function Decode(w: Bits): (r: Bits)
      requires |w| == WORD_BITS
      ensures |r| == WORD_BITS
    {
      And(Shr(w, position), Mask())
    }

    function Encode(v: Bits): (r: Bits)
      requires |v| == WORD_BITS
      ensures |r| == WORD_BITS
    {
      Shl(And(v, Mask()), position)
    }

    function Update(v: Bits, w: Bits): (r: Bits)
      requires |v| == |w| == WORD_BITS
      ensures |r| == WORD_BITS
    {
      Or(Encode(v), And(Complement(Shl(Mask(), position)), w))
    }
  }

  /** The low bits of a word are its value modulo a power of two. */
  lemma {:induction false} MaskIsModulo(v: Bits, size: nat)
    ensures ValueOf(And(v, Ones(|v|, size))) == ValueOf(v) % Pow2(size)
  {
    var low := And(v, Ones(|v|, size));
    if size == 0 {
      AllZero(low);
    } else if v != [] {
      assert v[1..] == v[1..] && low[1..] == And(v[1..], Ones(|v| - 1, size - 1)) by {
        assert forall i :: 0 <= i < |v| - 1 ==> low[1..][i] == low[i + 1] && v[1..][i] == v[i + 1];
      }
      MaskIsModulo(v[1..], size - 1);
      DoubleModulo(ValueOf(v[1..]), if v[0] then 1 else 0, Pow2(size - 1));
    }
  }

  lemma {:induction false} AllZero(b: Bits)
    requires forall i :: 0 <= i < |b| ==> !b[i]
    ensures ValueOf(b) == 0
  {
    if b != [] { AllZero(b[1..]); }
  }

  lemma DoubleModulo(n: nat, bit: nat, m: nat)
    requires bit <= 1 && m > 0
    ensures (bit + 2 * n) % (2 * m) == bit + 2 * (n % m)
  {
    var q := n / m;
    assert n == q * m + n % m;
    assert bit + 2 * n == q * (2 * m) + (bit + 2 * (n % m));
    ModuloUnique(bit + 2 * n, 2 * m, q, bit + 2 * (n % m));
  }

  /**
    Updating a field sets that field to the value modulo two to its size, and
    leaves every field with other bits as it was.
   */
  lemma FieldUpdate(f: Field, v: Bits, w: Bits)
    requires f.Fits() && |v| == |w| == WORD_BITS
    ensures ValueOf(f.Decode(f.Update(v, w))) == ValueOf(v) % Pow2(f.size)
    ensures forall g: Field :: g.Fits() && f.Apart(g) ==> g.Decode(f.Update(v, w)) == g.Decode(w)
  {
    UpdatedBits(f, v, w);
    DecodeOwn(f, v, w);
    MaskIsModulo(v, f.size);
    forall g: Field | g.Fits() && f.Apart(g) ensures g.Decode(f.Update(v, w)) == g.Decode(w) {
      DecodeOther(f, g, v, w);
    }
  }

  lemma DecodedBits(f: Field, w: Bits)
    requires f.Fits() && |w| == WORD_BITS
    ensures forall i :: 0 <= i < WORD_BITS ==> (f.Decode(w)[i] <==> i < f.size && w[i + f.position])
  {
  }

  lemma EncodedBits(f: Field, v: Bits)
    requires f.Fits() && |v| == WORD_BITS
    ensures forall i :: 0 <= i < WORD_BITS ==>
        (f.Encode(v)[i] <==> f.position <= i < f.position + f.size && v[i - f.position])
  {
  }

  lemma DecodeOwn(f: Field, v: Bits, w: Bits)
    requires f.Fits() && |v| == |w| == WORD_BITS
    ensures f.Decode(f.Update(v, w)) == And(v, Ones(|v|, f.size))
  {
    var w' := f.Update(v, w);
    UpdatedBits(f, v, w);
    DecodedBits(f, w');
    forall i | 0 <= i < WORD_BITS ensures f.Decode(w')[i] == And(v, Ones(|v|, f.size))[i] {
      if i < f.size { assert w'[i + f.position] == v[i]; }
    }
  }

  lemma DecodeOther(f: Field, g: Field, v: Bits, w: Bits)
    requires f.Fits() && g.Fits() && f.Apart(g) && |v| == |w| == WORD_BITS
    ensures g.Decode(f.Update(v, w)) == g.Decode(w)
  {
    var w' := f.Update(v, w);
    UpdatedBits(f, v, w);
    DecodedBits(g, w');
    DecodedBits(g, w);
    forall i | 0 <= i < WORD_BITS ensures g.Decode(w')[i] == g.Decode(w)[i] {
      if i < g.size { assert w'[i + g.position] == w[i + g.position]; }
    }
  }

  /** The bits of the field come from the value, all others from the word. */
  lemma UpdatedBits(f: Field, v: Bits, w: Bits)
    requires f.Fits() && |v| == |w| == WORD_BITS
    ensures forall i :: 0 <= i < WORD_BITS ==>
              f.Update(v, w)[i] == if f.position <= i < f.position + f.size then v[i - f.position] else w[i]
  {
  }

  datatype Write = Write(field: Field, value: Bits)

  function UpdateAll(writes: seq<Write>, w: Bits): (r: Bits)
    requires |w| == WORD_BITS && forall i :: 0 <= i < |writes| ==> |writes[i].value| == WORD_BITS
    ensures |r| == WORD_BITS
  {
    if writes == [] then w else UpdateAll(writes[1..], writes[0].field.Update(writes[0].value, w))
  }

  /** Any sequence of updates leaves a field alone that none of them touches. */
  lemma {:induction false} UpdatesApart(writes: seq<Write>, w: Bits, g: Field)
    requires |w| == WORD_BITS && g.Fits()
    requires forall i :: 0 <= i < |writes| ==>
        |writes[i].value| == WORD_BITS && writes[i].field.Fits() && writes[i].field.Apart(g)
    ensures g.Decode(UpdateAll(writes, w)) == g.Decode(w)
  {
    if writes != [] {
      var first := writes[0];
      FieldUpdate(first.field, first.value, w);
      UpdatesApart(writes[1..], first.field.Update(first.value, w), g);
    }
  }

  // Tags.

  const REFERENCES := Field(0, 16)
  const NEW_BIT := Field(16, 1)
  const OLD_BIT := Field(17, 1)
  const MARKED_BIT := Field(18, 1)
  const REMEMBERED_BIT := Field(19, 1)
  const SIZE_FIELD := Field(20, 32)

  /** The fields follow one another from the low end of the word: 16 bits of references, four flags, 32 bits of size. */
  lemma TagLayout()
    ensures REFERENCES == Field(0, 16) && SIZE_FIELD.size == 32
    ensures NEW_BIT.position == REFERENCES.position + REFERENCES.size
    ensures OLD_BIT.position == NEW_BIT.position + 1 && MARKED_BIT.position == OLD_BIT.position + 1
    ensures REMEMBERED_BIT.position == MARKED_BIT.position + 1 && SIZE_FIELD.position == REMEMBERED_BIT.position + 1
    ensures forall f :: f in {NEW_BIT, OLD_BIT, MARKED_BIT, REMEMBERED_BIT} ==> f.size == 1
    ensures forall f :: f in {REFERENCES, NEW_BIT, OLD_BIT, MARKED_BIT, REMEMBERED_BIT, SIZE_FIELD} ==> f.Fits()
  {
  }

  function SetRememberedBit(tag: Bits): (r: Bits)
    requires |tag| == WORD_BITS
    ensures |r| == WORD_BITS
  {
    REMEMBERED_BIT.Update(BitsOf(1, WORD_BITS), tag)
  }

  function SizeOf(tag: Bits): nat
    requires |tag| == WORD_BITS
  {
    ValueOf(SIZE_FIELD.Decode(tag))
  }

  /** Setting the remembered bit changes no other field of a tag. */
  lemma RememberedKeepsTag(tag: Bits)
    requires |tag| == WORD_BITS
    ensures var tag' := SetRememberedBit(tag);
            && |tag'| == WORD_BITS && SizeOf(tag') == SizeOf(tag)
            && ValueOf(REMEMBERED_BIT.Decode(tag')) == 1
            && (forall f :: f in {REFERENCES, NEW_BIT, OLD_BIT, MARKED_BIT, SIZE_FIELD} ==>
                 f.Decode(tag') == f.Decode(tag))
  {
    hide Field.Decode, Field.Update, BitsOf, ValueOf;
    FieldUpdate(REMEMBERED_BIT, BitsOf(1, WORD_BITS), tag);
    Pow2Monotone(1, WORD_BITS);
    BitsRoundTrip(1, WORD_BITS);
    assert Pow2(1) == 2;
  }

  // Buffers.

  const MAX_BUFFER_SIZE: nat := 4 * 1024 * 1024

  class Buffer {
    var length: nat
    const capacity: nat
    const data: array<byte>

    ghost predicate Valid()
      reads this
    {
      length <= capacity == data.Length <= MAX_BUFFER_SIZE && IsPowerOfTwo(capacity)
    }

    ghost function Contents(): seq<byte>
      requires Valid()
      reads this, data
    {
      data[..length]
    }

    constructor (initCap: nat)
      requires 1 <= initCap <= MAX_BUFFER_SIZE
      ensures Valid() && length == 0 && initCap <= capacity && fresh(data)
      ensures forall k: nat :: initCap <= Pow2(k) ==> capacity <= Pow2(k)
    {
      Pow2Twenty();
      Pow2Monotone(22, 62);
      var c := RoundUpPow2(initCap);
      length, capacity := 0, c;
      data := new byte[c](_ => 0);
    }

    /** Appends bytes; fails, changing nothing, when they do not fit. */
    method CopyFrom(src: seq<byte>) returns (ok: bool)
      requires Valid()
      modifies this, data
      ensures Valid() && (ok <==> old(length) + |src| <= capacity)
      ensures Contents() == if ok then old(Contents()) + src else old(Contents())
    {
      if length + |src| > capacity { return false; }
      for i := 0 to |src|
        invariant length == old(length) && length + |src| <= capacity
        invariant data[..length + i] == old(data[..length]) + src[..i]
      {
        data[length + i] := src[i];
      }
      length := length + |src|;
      ok := true;
    }
  }

  lemma Pow2Twenty()
    ensures Pow2(22) == MAX_BUFFER_SIZE
  {
    assert Pow2(8) == 256;
    assert Pow2(16) == 65536;
  }
}
