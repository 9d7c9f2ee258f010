/** Sets of numbers below a fixed bound, packed into 64-bit words. */
module BitVector {

  // ----- 64-bit words, with the machine's bitwise operators digit by digit -----

  function Pow2(n: nat): (p: nat)
    ensures p >= 1
  {
    if n == 0 then 1 else 2 * Pow2(n - 1)
  }

  /** Digit k of w: whether w & (1 << k) is not zero, see AndWithPow2. */
  predicate Bit(w: nat, k: nat) {
    if k == 0 then w % 2 == 1 else Bit(w / 2, k - 1)
  }

  function Or(v: nat, w: nat): nat {
    if v == 0 && w == 0 then 0 else 2 * Or(v / 2, w / 2) + if v % 2 == 1 || w % 2 == 1 then 1 else 0
  }

  function And(v: nat, w: nat): nat {
    if v == 0 || w == 0 then 0 else 2 * And(v / 2, w / 2) + if v % 2 == 1 && w % 2 == 1 then 1 else 0
  }

  function Not(w: nat, width: nat): nat
    requires w < Pow2(width)
  {
    Pow2(width) - 1 - w
  }

  lemma {:induction false} ZeroBit(k: nat)
    ensures !Bit(0, k)
  {
    if k > 0 { ZeroBit(k - 1); }
  }

  lemma {:induction false} OrBit(v: nat, w: nat, k: nat)
    ensures Bit(Or(v, w), k) <==> Bit(v, k) || Bit(w, k)
  {
    if v == 0 && w == 0 {
      ZeroBit(k);
    } else if k > 0 {
      OrBit(v / 2, w / 2, k - 1);
    }
  }

  lemma {:induction false} AndBit(v: nat, w: nat, k: nat)
    ensures Bit(And(v, w), k) <==> Bit(v, k) && Bit(w, k)
  {
    if v == 0 || w == 0 {
      ZeroBit(k);
    } else if k > 0 {
      AndBit(v / 2, w / 2, k - 1);
    }
  }

  lemma {:induction false} NotBit(w: nat, width: nat, k: nat)
    requires w < Pow2(width) && k < width
    ensures Bit(Not(w, width), k) <==> !Bit(w, k)
  {
    if k > 0 {
      assert Not(w, width) / 2 == Not(w / 2, width - 1);
      NotBit(w / 2, width - 1, k - 1);
    }
  }

  lemma {:induction false} Pow2Bit(n: nat, k: nat)
    ensures Bit(Pow2(n), k) <==> k == n
  {
    if n > 0 {
      if k > 0 { Pow2Bit(n - 1, k - 1); }
    } else if k > 0 {
      ZeroBit(k - 1);
    }
  }

  lemma {:induction false} MaskBit(n: nat, k: nat)
    ensures Bit(Pow2(n) - 1, k) <==> k < n
  {
    if n == 0 {
      ZeroBit(k);
    } else if k > 0 {
      assert (Pow2(n) - 1) / 2 == Pow2(n - 1) - 1;
      MaskBit(n - 1, k - 1);
    }
  }

  lemma {:induction false} Widths(v: nat, w: nat, width: nat)
    requires v < Pow2(width) && w < Pow2(width)
    ensures Or(v, w) < Pow2(width) && And(v, w) < Pow2(width)
  {
    if width > 0 { Widths(v / 2, w / 2, width - 1); }
  }

  lemma {:induction false} Pow2Grows(k: nat, n: nat)
    requires k < n
    ensures Pow2(k) < Pow2(n)
  {
    if k + 1 < n { Pow2Grows(k, n - 1); }
  }

  /** Words with the same bits are equal. */
  lemma {:induction false} SameBits(v: nat, w: nat, width: nat)
    requires v < Pow2(width) && w < Pow2(width)
    requires forall k :: 0 <= k < width ==> (Bit(v, k) <==> Bit(w, k))
    ensures v == w
  {
    if width > 0 {
      forall k | 0 <= k < width - 1
        ensures Bit(v / 2, k) <==> Bit(w / 2, k)
      {
        assert Bit(v, k + 1) <==> Bit(w, k + 1);
      }
      SameBits(v / 2, w / 2, width - 1);
      assert Bit(v, 0) <==> Bit(w, 0);
    }
  }

  /** The test by masking, as the code writes it. */
  lemma AndWithPow2(w: nat, k: nat, width: nat)
    requires w < Pow2(width) && k < width
    ensures And(w, Pow2(k)) != 0 <==> Bit(w, k)
  {
    Pow2Grows(k, width);
    AndBit(w, Pow2(k), k);
    Pow2Bit(k, k);
    ZeroBit(k);
    if And(w, Pow2(k)) != 0 && !Bit(w, k) {
      forall j | 0 <= j < width
        ensures Bit(And(w, Pow2(k)), j) <==> Bit(0, j)
      {
        AndBit(w, Pow2(k), j);
        Pow2Bit(k, j);
        ZeroBit(j);
      }
      Widths(w, Pow2(k), width);
      SameBits(And(w, Pow2(k)), 0, width);
    }
  }

  const WIDTH: nat := 64

  type Word = w: nat | w < Pow2(WIDTH)

  function OrWord(v: Word, w: Word): (r: Word)
    ensures forall k: nat :: Bit(r, k) <==> Bit(v, k) || Bit(w, k)
  {
    Widths(v, w, WIDTH);
    assert forall k: nat :: Bit(Or(v, w), k) <==> Bit(v, k) || Bit(w, k) by { forall k: nat { OrBit(v, w, k); } }
    Or(v, w)
  }

  function AndWord(v: Word, w: Word): (r: Word)
    ensures forall k: nat :: Bit(r, k) <==> Bit(v, k) && Bit(w, k)
  {
    Widths(v, w, WIDTH);
    assert forall k: nat :: Bit(And(v, w), k) <==> Bit(v, k) && Bit(w, k) by { forall k: nat { AndBit(v, w, k); } }
    And(v, w)
  }

  function NotWord(w: Word): (r: Word)
    ensures forall k: nat :: k < WIDTH ==> (Bit(r, k) <==> !Bit(w, k))
  {
    assert forall k: nat :: k < WIDTH ==> (Bit(Not(w, WIDTH), k) <==> !Bit(w, k)) by {
      forall k: nat | k < WIDTH { NotBit(w, WIDTH, k); }
    }
    Not(w, WIDTH)
  }

  /** 1 << k. */
  function Shifted(k: nat): (r: Word)
    requires k < WIDTH
    ensures forall j: nat :: Bit(r, j) <==> j == k
  {
    Pow2Grows(k, WIDTH);
    assert forall j: nat :: Bit(Pow2(k), j) <==> j == k by { forall j: nat { Pow2Bit(k, j); } }
    Pow2(k)
  }

  /** (1 << n) - 1. */
  function Mask(n: nat): (r: Word)
    requires n < WIDTH
    ensures forall j: nat :: Bit(r, j) <==> j < n
  {
    Pow2Grows(n, WIDTH);
    var mask := Pow2(n) - 1;
    assert forall j: nat :: Bit(mask, j) <==> j < n by {
      forall j: nat ensures Bit(mask, j) <==> j < n { MaskBit(n, j); }
    }
    mask
  }

  // ----- Packed sets -----

  predicate BitAt(words: seq<Word>, pos: nat)
    requires pos < 64 * |words|
  {
    Bit(words[pos / 64], pos % 64)
  }

  function Words(bits: nat): nat { (bits + 63) / 64 }

  /** The words hold exactly the bits below n; those above are zero. */
  ghost predicate Packed(words: seq<Word>, n: nat) {
    |words| == Words(n) && forall pos :: n <= pos < 64 * |words| ==> !BitAt(words, pos)
  }

  ghost function Universe(n: nat): (u: set<nat>)
    ensures forall pos: nat :: pos in u <==> pos < n
  {
    if n == 0 then {} else Universe(n - 1) + {n - 1}
  }

  ghost function Members(words: seq<Word>, n: nat): set<nat>
    requires n <= 64 * |words|
  {
    set pos | 0 <= pos < n && BitAt(words, pos)
  }

  /** Equal sets are packed into equal words: comparing words compares sets. */
  lemma PackingIsUnique(v: seq<Word>, w: seq<Word>, n: nat)
    requires Packed(v, n) && Packed(w, n)
    ensures v == w <==> Members(v, n) == Members(w, n)
  {
    if Members(v, n) == Members(w, n) {
      forall i | 0 <= i < |v|
        ensures v[i] == w[i]
      {
        forall k | 0 <= k < WIDTH
          ensures Bit(v[i], k) <==> Bit(w[i], k)
        {
          var pos := 64 * i + k;
          assert pos / 64 == i && pos % 64 == k;
          assert BitAt(v, pos) <==> Bit(v[i], k);
          assert BitAt(w, pos) <==> Bit(w[i], k);
          assert pos < n ==> (pos in Members(v, n) <==> pos in Members(w, n));
        }
        SameBits(v[i], w[i], WIDTH);
      }
    }
  }

  class BitVector {
    var data: array<Word>
    var bitCount: nat

    ghost predicate Valid()
      reads this, data
    {
      Packed(data[..], bitCount)
    }

    /** The set that is represented. */
    ghost function Bits(): set<nat>
      requires Valid()
      reads this, data
    {
      Members(data[..], bitCount)
    }

    /** The empty set of numbers below size. */
    constructor (size: nat)
      ensures Valid() && fresh(data) && bitCount == size && Bits() == {}
    {
      var words := new Word[Words(size)](i => 0);
      data, bitCount := words, size;
      new;
      forall pos | 0 <= pos < 64 * data.Length
        ensures !BitAt(data[..], pos)
      {
        ZeroBit(pos % 64);
      }
    }

    constructor Copy(other: BitVector)
      requires other.Valid()
      ensures Valid() && fresh(data) && bitCount == other.bitCount && Bits() == other.Bits()
    {
      bitCount := other.bitCount;
      var words := new Word[other.data.Length](i requires 0 <= i < other.data.Length reads other,
        other.data => other.data[i]);
      data := words;
      new;
      assert data[..] == other.data[..];
    }

    method Read(pos: nat) returns (r: bool)
      requires Valid() && pos < bitCount
      ensures r <==> pos in Bits()
    {
      AndWithPow2(data[pos / 64], pos % 64, WIDTH);
      r := AndWord(data[pos / 64], Shifted(pos % 64)) != 0;
      assert r == BitAt(data[..], pos);
    }

    method Write(pos: nat, val: bool)
      requires Valid() && pos < bitCount
      modifies data
      ensures Valid() && Bits() == if val then old(Bits()) + {pos} else old(Bits()) - {pos}
    {
      var i, k := pos / 64, pos % 64;
      if val {
        data[i] := OrWord(data[i], Shifted(k));
      } else {
        data[i] := AndWord(data[i], NotWord(Shifted(k)));
      }
      WordWritten(old(data[..]), data[..], bitCount, pos, val);
    }

    method Equals(other: BitVector) returns (r: bool)
      requires Valid() && other.Valid() && bitCount == other.bitCount
      ensures r <==> Bits() == other.Bits()
    {
      PackingIsUnique(data[..], other.data[..], bitCount);
      var i := 0;
      while i < data.Length
        invariant 0 <= i <= data.Length
        invariant data[..i] == other.data[..i]
      {
        if data[i] != other.data[i] {
          assert data[..][i] != other.data[..][i];
          return false;
        }
        i := i + 1;
      }
      assert data[..] == data[..i] && other.data[..] == other.data[..i];
      return true;
    }

    method OrWith(other: BitVector)
      requires Valid() && other.Valid() && bitCount == other.bitCount
      modifies data
      ensures Valid() && Bits() == old(Bits() + other.Bits())
    {
      var i := 0;
      while i < data.Length
        invariant 0 <= i <= data.Length
        invariant forall j :: 0 <= j < i ==> data[j] == OrWord(old(data[j]), old(other.data[j]))
        invariant forall j :: i <= j < data.Length ==> data[j] == old(data[j]) && other.data[j] == old(other.data[j])
      {
        data[i] := OrWord(data[i], other.data[i]);
        i := i + 1;
      }
      Combined(old(data[..]), old(other.data[..]), data[..], bitCount, true);
    }

    method AndWith(other: BitVector)
      requires Valid() && other.Valid() && bitCount == other.bitCount
      modifies data
      ensures Valid() && Bits() == old(Bits() * other.Bits())
    {
      var i := 0;
      while i < data.Length
        invariant 0 <= i <= data.Length
        invariant forall j :: 0 <= j < i ==> data[j] == AndWord(old(data[j]), old(other.data[j]))
        invariant forall j :: i <= j < data.Length ==> data[j] == old(data[j]) && other.data[j] == old(other.data[j])
      {
        data[i] := AndWord(data[i], other.data[i]);
        i := i + 1;
      }
      Combined(old(data[..]), old(other.data[..]), data[..], bitCount, false);
    }

    /** The complement among the numbers below bitCount; the unused bits are cleared again. */
    method Negate()
      requires Valid()
      modifies data
      ensures Valid() && Bits() == Universe(bitCount) - old(Bits())
    {
      var i := 0;
      while i < data.Length
        invariant 0 <= i <= data.Length
        invariant forall j :: 0 <= j < i ==> data[j] == NotWord(old(data[j]))
        invariant forall j :: i <= j < data.Length ==> data[j] == old(data[j])
      {
        data[i] := NotWord(data[i]);
        i := i + 1;
      }
      ghost var flipped := data[..];
      if bitCount % 64 != 0 {
        var last := data.Length - 1;
        data[last] := AndWord(data[last], Mask(bitCount % 64));
      }
      Negated(old(data[..]), flipped, data[..], bitCount);
    }
  }

  lemma WordWritten(pre: seq<Word>, post: seq<Word>, n: nat, pos: nat, val: bool)
    requires Packed(pre, n) && pos < n
    requires var (w, mask) := (pre[pos / 64], Shifted(pos % 64));
             post == pre[pos / 64 := if val then OrWord(w, mask) else AndWord(w, NotWord(mask))]
    ensures Packed(post, n) && Members(post, n) == if val then Members(pre, n) + {pos} else Members(pre, n) - {pos}
  {
    forall q | 0 <= q < 64 * |pre|
      ensures BitAt(post, q) <==> if q == pos then val else BitAt(pre, q)
    {
      assert q == 64 * (q / 64) + q % 64 && pos == 64 * (pos / 64) + pos % 64;
    }
  }

  lemma Combined(v: seq<Word>, w: seq<Word>, post: seq<Word>, n: nat, union: bool)
    requires Packed(v, n) && Packed(w, n) && |post| == |v|
    requires forall i :: 0 <= i < |v| ==> post[i] == if union then OrWord(v[i], w[i]) else AndWord(v[i], w[i])
    ensures Packed(post, n)
    ensures Members(post, n) == if union then Members(v, n) + Members(w, n) else Members(v, n) * Members(w, n)
  {
    forall q | 0 <= q < 64 * |v|
      ensures BitAt(post, q) <==> if union then BitAt(v, q) || BitAt(w, q) else BitAt(v, q) && BitAt(w, q)
    {
    }
  }

  lemma Negated(pre: seq<Word>, flipped: seq<Word>, post: seq<Word>, n: nat)
    requires Packed(pre, n) && |flipped| == |pre|
    requires forall i :: 0 <= i < |pre| ==> flipped[i] == NotWord(pre[i])
    requires post == if n % 64 == 0 then flipped
                     else flipped[n / 64 := AndWord(flipped[n / 64], Mask(n % 64))]
    ensures Packed(post, n) && Members(post, n) == Universe(n) - Members(pre, n)
  {
    forall q | 0 <= q < 64 * |pre|
      ensures BitAt(post, q) <==> q < n && !BitAt(pre, q)
    {
      assert q == 64 * (q / 64) + q % 64 && n == 64 * (n / 64) + n % 64;
    }
  }
}
