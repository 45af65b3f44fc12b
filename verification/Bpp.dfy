/** Which pixel depths can share a link: the bitmask algorithm against a reading of the depths as a set. */
module Bpp {

  // A u32 mask, as its 32 bits.
  type Word = s: seq<bool> | |s| == 32 witness seq(32, _ => false)

  function Depths(w: Word): set<nat> {
    set d: nat | d < 32 && w[d]
  }

  function Bit(d: nat): Word
    requires d < 32
  {
    seq(32, i => i == d)
  }

  function Or(a: Word, b: Word): Word { seq(32, i requires 0 <= i < 32 => a[i] || b[i]) }

  function AndNot(a: Word, b: Word): Word { seq(32, i requires 0 <= i < 32 => a[i] && !b[i]) }

  // __ffs and __fls, undefined for 0 in the source.
  function Ffs(w: Word, from: nat := 0): (d: nat)
    requires exists i: nat | from <= i < 32 :: w[i]
    ensures from <= d < 32 && w[d] && forall i: nat | from <= i < d :: !w[i]
    decreases 32 - from
  {
    if w[from] then from else Ffs(w, from + 1)
  }

  function Fls(w: Word, below: nat := 32): (d: nat)
    requires below <= 32 && exists i: nat | i < below :: w[i]
    ensures d < below && w[d] && forall i: nat | d < i < below :: !w[i]
  {
    if w[below - 1] then below - 1 else Fls(w, below - 1)
  }

  // ----- The rules, over sets of depths -----

  predicate IsLeast(d: nat, depths: set<nat>) {
    d in depths && forall e | e in depths :: d <= e
  }

  // The one depth the hardware doubles, or 0: a least depth of 8, or 10 or 12 alone or with its double.
  function Doubled(depths: set<nat>, allowed: set<nat>): nat {
    if IsLeast(8, depths) && 8 in allowed then 8
    else if (depths == {10} || depths == {10, 20}) && 10 in allowed then 10
    else if (depths == {12} || depths == {12, 24}) && 12 in allowed then 12
    else 0
  }

  function AfterDoubling(depths: set<nat>, allowed: set<nat>): set<nat> {
    var d := Doubled(depths, allowed);
    if d == 0 then depths else depths - {d} + {2 * d}
  }

  // Either every depth can be padded to at most 16, or a single depth of at most 24 is sent as it is.
  predicate Streamable(depths: set<nat>) {
    (forall d | d in depths :: d <= 16) || exists d | d in depths :: depths == {d} && d <= 24
  }

  method ProcessBpps(bppsIn: Word, allowedDouble: Word) returns (ok: bool, doubledBpp: nat)
    ensures doubledBpp == Doubled(Depths(bppsIn), Depths(allowedDouble))
    ensures ok <==> Streamable(AfterDoubling(Depths(bppsIn), Depths(allowedDouble)))
  {
    var bpps := bppsIn;
    doubledBpp := 0;
    ghost var depths := Depths(bpps);
    if !(exists i: nat | i < 32 :: bpps[i]) {
      assert depths == {};
      return true, 0;
    }
    var minBpp, maxBpp := Ffs(bpps), Fls(bpps);
    var doubled := false;
    if minBpp == 8 {
      doubled := true;
    } else if minBpp == 10 || minBpp == 12 {
      var otherBpps := AndNot(bpps, Or(Bit(minBpp), Bit(minBpp * 2)));
      if !(exists i: nat | i < 32 :: otherBpps[i]) {
        doubled := true;
      }
      OthersEmpty(bpps, minBpp, otherBpps);
    }
    if doubled && allowedDouble[minBpp] {
      doubledBpp := minBpp;
      bpps := Or(AndNot(bpps, Bit(minBpp)), Bit(minBpp * 2));
      ReplacedDepth(bppsIn, minBpp);
    }
    DoubledIs(bppsIn, allowedDouble, minBpp, doubled);
    assert doubledBpp != 0 ==> bpps[minBpp * 2];
    minBpp, maxBpp := Ffs(bpps), Fls(bpps);
    StreamableIs(bpps, minBpp, maxBpp);
    ok := !(maxBpp > 24) && !(minBpp <= 16 && maxBpp > 16) && !(maxBpp > 16 && minBpp != maxBpp);
  }

  lemma OthersEmpty(w: Word, d: nat, others: Word)
    requires d < 16 && w[d] && others == AndNot(w, Or(Bit(d), Bit(2 * d)))
    ensures (exists i: nat | i < 32 :: others[i]) <==> !(Depths(w) <= {d, 2 * d})
    ensures Depths(w) <= {d, 2 * d} <==> Depths(w) == {d} || Depths(w) == {d, 2 * d}
  {
    if i: nat :| i < 32 && others[i] {
      assert i in Depths(w);
    } else {
      assert forall i: nat | i < 32 && w[i] :: !others[i];
    }
    assert d in Depths(w);
  }

  lemma ReplacedDepth(w: Word, d: nat)
    requires 0 < d < 16
    ensures Depths(Or(AndNot(w, Bit(d)), Bit(2 * d))) == Depths(w) - {d} + {2 * d}
  {
  }

  lemma DoubledIs(w: Word, allowed: Word, least: nat, doubled: bool)
    requires least < 32 && w[least] && forall i: nat | i < least :: !w[i]
    requires doubled <==>
      least == 8 || ((least == 10 || least == 12) && (Depths(w) == {least} || Depths(w) == {least, 2 * least}))
    ensures Doubled(Depths(w), Depths(allowed)) == if doubled && allowed[least] then least else 0
  {
    assert IsLeast(least, Depths(w));
    assert forall d | IsLeast(d, Depths(w)) :: d == least;
    assert Depths(w) == {10} || Depths(w) == {10, 20} ==> least == 10;
    assert Depths(w) == {12} || Depths(w) == {12, 24} ==> least == 12;
  }

  lemma StreamableIs(w: Word, lo: nat, hi: nat)
    requires lo < 32 && hi < 32 && w[lo] && w[hi] && forall i: nat | i < 32 && (i < lo || hi < i) :: !w[i]
    ensures Streamable(Depths(w)) <==> !(hi > 24) && !(lo <= 16 && hi > 16) && !(hi > 16 && lo != hi)
  {
    assert lo in Depths(w) && hi in Depths(w);
    if lo == hi {
      assert Depths(w) == {lo};
    }
  }

  /** Allowing more depths to be doubled never turns success into failure. */
  lemma AllowingMoreNeverHurts(depths: set<nat>, allowed: set<nat>, more: set<nat>)
    requires allowed <= more && Streamable(AfterDoubling(depths, allowed))
    ensures Streamable(AfterDoubling(depths, more))
  {
  }

  /** Doubling makes the difference exactly for 10 with 20 and for 12 with 24. */
  lemma DoublingHelpsExactly(depths: set<nat>, allowed: set<nat>)
    ensures !Streamable(depths) && Streamable(AfterDoubling(depths, allowed)) <==>
      (depths == {10, 20} && 10 in allowed) || (depths == {12, 24} && 12 in allowed)
  {
    match Doubled(depths, allowed) {
      case 8 =>
        assert 8 in depths && 16 in AfterDoubling(depths, allowed);
      case 10 =>
        assert depths == {10} || depths == {10, 20};
        assert AfterDoubling(depths, allowed) == {20};
      case 12 =>
        assert depths == {12} || depths == {12, 24};
        assert AfterDoubling(depths, allowed) == {24};
      case _ =>
        assert AfterDoubling(depths, allowed) == depths;
    }
  }

  /** The doubled depth is a permitted one of 8, 10 and 12, it was present, and it is gone afterwards. */
  lemma DoubledDepth(depths: set<nat>, allowed: set<nat>)
    ensures var d := Doubled(depths, allowed);
      d != 0 ==>
        && d in {8, 10, 12} && d in allowed && d in depths
        && d !in AfterDoubling(depths, allowed) && 2 * d in AfterDoubling(depths, allowed)
  {
  }
}
