/** Eight-bit device registers, the bit fields inside them, and the 16-bit address space they live in.

    A register is kept as its eight bits, least significant first, so that a field is a slice of it.
    `Put` is what regmap_update_bits does with a contiguous mask: the field takes the low bits of the
    value and every bit outside the mask stays. */
module Registers {

  type Byte = s: seq<bool> | |s| == 8 witness [false, false, false, false, false, false, false, false]

  const ZERO: Byte := [false, false, false, false, false, false, false, false]

  // GENMASK(lo + width - 1, lo)
  datatype FieldRange = Field(lo: nat, width: nat)

  type Field = f: FieldRange | f.lo + f.width <= 8 witness Field(0, 0)

  const WHOLE: Field := Field(0, 8)

  type RegFile = s: seq<Byte> | |s| == 0x1_0000 witness seq(0x1_0000, _ => ZERO)

  function Pow2(n: nat): (r: nat)
    ensures r > 0
  {
    if n == 0 then 1 else 2 * Pow2(n - 1)
  }

  // The low `width` bits of `x`.
  function ToBits(x: nat, width: nat): (s: seq<bool>)
    ensures |s| == width
  {
    if width == 0 then [] else [x % 2 == 1] + ToBits(x / 2, width - 1)
  }

  function FromBits(s: seq<bool>): (x: nat)
    ensures x < Pow2(|s|)
  {
    if s == [] then 0 else (if s[0] then 1 else 0) + 2 * FromBits(s[1..])
  }

  function Get(b: Byte, f: Field): (x: nat)
    ensures x < Pow2(f.width)
  {
    FromBits(b[f.lo..f.lo + f.width])
  }

  function Put(b: Byte, f: Field, x: nat): Byte {
    b[..f.lo] + ToBits(x, f.width) + b[f.lo + f.width..]
  }

  predicate Disjoint(f: Field, g: Field) {
    f.lo + f.width <= g.lo || g.lo + g.width <= f.lo
  }

  lemma ModByProduct(x: nat, p: nat)
    requires p > 0
    ensures x % (2 * p) == x % 2 + 2 * ((x / 2) % p) && x / (2 * p) == (x / 2) / p
  {
    var q, r := (x / 2) / p, (x / 2) % p;
    assert x == q * (2 * p) + (2 * r + x % 2) by {
      assert x / 2 == q * p + r;
      assert q * (2 * p) == 2 * (q * p);
    }
    ModIs(x, 2 * p, q, 2 * r + x % 2);
  }

  lemma ModIs(x: nat, m: nat, q: nat, r: nat)
    requires x == q * m + r && r < m
    ensures x % m == r && x / m == q
  {
    var q', r' := x / m, x % m;
    assert x == q' * m + r';
    assert q' < q ==> (q' + 1) * m <= q * m;
    assert q < q' ==> (q + 1) * m <= q' * m;
  }

  /** Writing a value as bits and reading the bits back keeps it modulo the width. */
  lemma {:induction false} FromToBits(x: nat, width: nat)
    ensures FromBits(ToBits(x, width)) == x % Pow2(width)
  {
    if width == 0 {
    } else {
      FromToBits(x / 2, width - 1);
      ModByProduct(x, Pow2(width - 1));
      assert ToBits(x, width)[1..] == ToBits(x / 2, width - 1);
    }
  }

  lemma GetPut(b: Byte, f: Field, x: nat)
    ensures Get(Put(b, f, x), f) == x % Pow2(f.width)
  {
    assert Put(b, f, x)[f.lo..f.lo + f.width] == ToBits(x, f.width);
    FromToBits(x, f.width);
  }

  lemma GetPutOther(b: Byte, f: Field, x: nat, g: Field)
    requires Disjoint(f, g)
    ensures Get(Put(b, f, x), g) == Get(b, g)
  {
    var after := Put(b, f, x);
    forall k: nat | g.lo <= k < g.lo + g.width ensures after[k] == b[k] {
      if k >= f.lo {
        assert after[f.lo + f.width..] == b[f.lo + f.width..];
        assert after[k] == after[f.lo + f.width..][k - f.lo - f.width];
      }
    }
    assert after[g.lo..g.lo + g.width] == b[g.lo..g.lo + g.width];
  }

  /** A one-bit field is one bit: setting it changes that bit and no other. */
  lemma PutBit(b: Byte, k: nat, on: bool)
    requires k < 8
    ensures Put(b, Field(k, 1), if on then 1 else 0) == b[k := on]
  {
  }

  lemma {:induction false} PowerBits(k: nat, width: nat, i: nat)
    requires k < width && i < width
    ensures ToBits(Pow2(k), width)[i] <==> i == k
  {
    if i == 0 {
    } else if k == 0 {
      NoBits(width - 1, i - 1);
    } else {
      PowerBits(k - 1, width - 1, i - 1);
    }
  }

  lemma {:induction false} NoBits(width: nat, i: nat)
    requires i < width
    ensures !ToBits(0, width)[i]
  {
    if i == 0 {
    } else {
      NoBits(width - 1, i - 1);
    }
  }

  /** A power of two sets one bit of a field and clears the others. */
  lemma OneBit(b: Byte, f: Field, k: nat)
    requires k < f.width
    ensures Put(b, f, Pow2(k))[f.lo..f.lo + f.width] == seq(f.width, i => i == k)
  {
    assert Put(b, f, Pow2(k))[f.lo..f.lo + f.width] == ToBits(Pow2(k), f.width);
    forall i: nat | i < f.width ensures ToBits(Pow2(k), f.width)[i] == (i == k) {
      PowerBits(k, f.width, i);
    }
  }

  /** Updates of disjoint fields commute. */
  lemma PutCommutes(b: Byte, f: Field, x: nat, g: Field, y: nat)
    requires Disjoint(f, g)
    ensures Put(Put(b, f, x), g, y) == Put(Put(b, g, y), f, x)
  {
  }
}
