/**
 The bucket arithmetic of the latency histogram: values below 64 have a bucket
 each, and every octave [2^e, 2^(e+1)) above is cut into 64 equal buckets.

 `subBits` is 6 and `subCount` is 64, written as literals. Values are unbounded
 here; `ValuesStayInWord` shows that nothing the program does with a 64-bit
 value leaves 64 bits.
 */
module Buckets {
  const MAX_TRACK_MICROS: nat := 600_000_000
  const TWO_64: nat := 0x1_0000_0000_0000_0000
  /** `len(newHist().counts)`; see `TrackedRange`. */
  const BUCKETS: nat := 1544
  /** The index of the last bucket a 64-bit value can reach. */
  const LAST_INDEX: nat := 3775

  /** `q << k`. */
  function Shl(q: nat, k: nat): nat {
    if k == 0 then q else 2 * Shl(q, k - 1)
  }

  /** `v >> k`. */
  function Shr(v: nat, k: nat): nat {
    if k == 0 then v else Shr(v / 2, k - 1)
  }

  /** The position of the highest set bit, `bits.Len64(v) - 1`. */
  function TopBit(v: nat): (e: nat)
    requires v >= 1
  {
    if v == 1 then 0 else 1 + TopBit(v / 2)
  }

  function IndexFor(v: nat): nat {
    if v < 64 then v
    else
      var e := TopBit(v);
      TopBitAtLeastSix(v);
      var sub := Shr(v, e - 6) % 64;
      (e - 6 + 1) * 64 + sub
  }

  function ValueForIndex(i: nat): nat {
    if i < 64 then i
    else
      var e := i / 64 + 6 - 1;
      var low := Shl(64 + i % 64, e - 6);
      var width := Shl(1, e - 6);
      low + width / 2
  }

  /** The least value of bucket `i`. */
  ghost function Low(i: nat): nat {
    if i < 64 then i else Shl(64 + i % 64, i / 64 - 1)
  }

  ghost function Width(i: nat): nat {
    if i < 64 then 1 else Shl(1, i / 64 - 1)
  }

  lemma {:induction false} ShlAdd(a: nat, b: nat, k: nat)
    ensures Shl(a + b, k) == Shl(a, k) + Shl(b, k)
  {
    if k > 0 {
      ShlAdd(a, b, k - 1);
    }
  }

  lemma {:induction false} ShlAt64(k: nat)
    ensures Shl(1, k) >= 1
    ensures Shl(64, k) == 64 * Shl(1, k) == Shl(1, k + 6)
    ensures Shl(128, k) == 2 * Shl(64, k)
  {
    if k > 0 {
      ShlAt64(k - 1);
    } else {
      assert Shl(1, 6) == 2 * Shl(1, 5) == 4 * Shl(1, 4) == 8 * Shl(1, 3);
      assert Shl(1, 3) == 2 * Shl(1, 2) == 4 * Shl(1, 1);
    }
  }

  /** Shifting right by `k` yields `q` exactly on the cell of width 2^k that starts at `q << k`. */
  lemma {:induction false} ShrIff(v: nat, k: nat, q: nat)
    ensures Shr(v, k) == q <==> Shl(q, k) <= v < Shl(q, k) + Shl(1, k)
  {
    if k > 0 {
      ShrIff(v / 2, k - 1, q);
    }
  }

  lemma {:induction false} ShrMonotone(u: nat, v: nat, k: nat)
    requires u <= v
    ensures Shr(u, k) <= Shr(v, k)
  {
    if k > 0 {
      ShrMonotone(u / 2, v / 2, k - 1);
    }
  }

  lemma {:induction false} TopBitBounds(v: nat)
    requires v >= 1
    ensures Shl(1, TopBit(v)) <= v < 2 * Shl(1, TopBit(v))
  {
    if v > 1 {
      TopBitBounds(v / 2);
    }
  }

  lemma {:induction false} ShlOneMonotone(a: nat, b: nat)
    requires a <= b
    ensures Shl(1, a) <= Shl(1, b)
    decreases b
  {
    if a < b {
      ShlOneMonotone(a, b - 1);
    }
  }

  lemma TopBitAtLeastSix(v: nat)
    requires v >= 64
    ensures TopBit(v) >= 6
  {
    TopBitBounds(v);
    ShlAt64(0);
    var e := TopBit(v);
    if e <= 5 {
      ShlOneMonotone(e, 5);
    }
  }

  lemma ShrBetween(v: nat, k: nat)
    requires Shl(64, k) <= v < Shl(128, k)
    ensures 64 <= Shr(v, k) < 128
  {
    ShlAt64(k);
    ShrIff(Shl(64, k), k, 64);
    ShrIff(Shl(128, k), k, 128);
    ShrMonotone(Shl(64, k), v, k);
    ShrMonotone(v, Shl(128, k), k);
    ShrIff(v, k, 128);
  }

  lemma OctaveBounds(v: nat, e: nat)
    requires v >= 64 && e == TopBit(v)
    ensures e >= 6 && Shl(64, e - 6) <= v < Shl(128, e - 6)
  {
    TopBitAtLeastSix(v);
    TopBitBounds(v);
    ShlAt64(e - 6);
  }

  /** Shifted down to seven bits, a value is between 64 and 127. */
  lemma OctaveQuotient(v: nat)
    requires v >= 64
    ensures TopBit(v) >= 6
    ensures 64 <= Shr(v, TopBit(v) - 6) < 128
  {
    OctaveBounds(v, TopBit(v));
    ShrBetween(v, TopBit(v) - 6);
  }

  lemma BlockAndSub(k: nat, q: nat) returns (i: nat)
    requires 64 <= q < 128
    ensures i == (k + 1) * 64 + (q - 64)
    ensures i >= 64 && i / 64 - 1 == k && 64 + i % 64 == q
  {
    i := (k + 1) * 64 + (q - 64);
  }

  /** What the index `(k + 1, q - 64)` stands for. */
  lemma BucketShape(k: nat, q: nat) returns (i: nat)
    requires 64 <= q < 128
    ensures i == (k + 1) * 64 + (q - 64) >= 64 && i / 64 - 1 == k && 64 + i % 64 == q
    ensures Low(i) == Shl(q, k) && Width(i) == Shl(1, k)
    ensures ValueForIndex(i) == Shl(q, k) + Shl(1, k) / 2
  {
    i := BlockAndSub(k, q);
  }

  /** A value lies in the bucket it is indexed to. */
  lemma IndexContains(v: nat)
    ensures Low(IndexFor(v)) <= v < Low(IndexFor(v)) + Width(IndexFor(v))
  {
    if v >= 64 {
      OctaveQuotient(v);
      var k := TopBit(v) - 6;
      var q := Shr(v, k);
      var i := BucketShape(k, q);
      assert q % 64 == q - 64;
      assert IndexFor(v) == i;
      ShrIff(v, k, q);
    }
  }

  lemma OctaveTiling(k: nat, q: nat) returns (i: nat)
    requires 64 <= q < 128
    ensures i == (k + 1) * 64 + (q - 64)
    ensures Width(i) >= 1 && Low(i) >= 64 * Width(i)
    ensures Low(i) + Width(i) == Low(i + 1)
  {
    i := BucketShape(k, q);
    ShlAt64(k);
    ShlAdd(q, 1, k);
    ShlAdd(64, q - 64, k);
    if q < 127 {
      var _ := BucketShape(k, q + 1);
    } else {
      var _ := BucketShape(k + 1, 64);
    }
  }

  /** Buckets tile the values: the first starts at 0 and each ends where the next begins. */
  lemma Tiling(i: nat)
    ensures Low(0) == 0
    ensures Width(i) >= 1
    ensures Low(i) + Width(i) == Low(i + 1)
    ensures i >= 64 ==> Low(i) >= 64 * Width(i)
  {
    if i >= 64 {
      var _ := OctaveTiling(i / 64 - 1, 64 + i % 64);
    }
  }

  lemma {:induction false} LowMonotone(i: nat, j: nat)
    requires i <= j
    ensures Low(i) <= Low(j)
    ensures i < j ==> Low(i) + Width(i) <= Low(j)
    decreases j
  {
    if i < j {
      LowMonotone(i, j - 1);
      Tiling(j - 1);
      Tiling(i);
    }
  }

  /** The buckets partition the values: each value has exactly one, the one it is indexed to. */
  lemma IndexForIff(v: nat, i: nat)
    ensures IndexFor(v) == i <==> Low(i) <= v < Low(i) + Width(i)
  {
    IndexContains(v);
    var k := IndexFor(v);
    if k < i {
      LowMonotone(k, i);
    } else if i < k {
      LowMonotone(i, k);
    }
  }

  lemma IndexMonotone(u: nat, v: nat)
    requires u <= v
    ensures IndexFor(u) <= IndexFor(v)
  {
    IndexContains(u);
    IndexContains(v);
    if IndexFor(v) < IndexFor(u) {
      LowMonotone(IndexFor(v), IndexFor(u));
    }
  }

  lemma RepresentativeInBucket(i: nat)
    ensures Low(i) <= ValueForIndex(i) < Low(i) + Width(i)
  {
    Tiling(i);
  }

  /** Indexing a representative gives its bucket back. */
  lemma RoundTrip(i: nat)
    ensures IndexFor(ValueForIndex(i)) == i
  {
    RepresentativeInBucket(i);
    IndexForIff(ValueForIndex(i), i);
  }

  /** The representative is off by at most one part in 128, half the documented 1/64. */
  lemma RelativeError(v: nat)
    ensures var r := ValueForIndex(IndexFor(v));
            128 * (r - v) <= v && 128 * (v - r) <= v
  {
    var i := IndexFor(v);
    IndexContains(v);
    Tiling(i);
  }

  /** One part in 128 cannot be improved: the least value of every octave from 128 up attains it. */
  lemma RelativeErrorAttained(k: nat) returns (v: nat)
    ensures v == Shl(1, k + 7)
    ensures 128 * (ValueForIndex(IndexFor(v)) - v) == v
  {
    v := Shl(1, k + 7);
    var w := Shl(1, k + 1);
    assert w / 2 == Shl(1, k);
    ShlAt64(k + 1);
    ShlAt64(k);
    var i := BucketShape(k + 1, 64);
    assert Low(i) == v && Width(i) == w;
    IndexForIff(v, i);
  }

  lemma ShlOneAt58()
    ensures Shl(1, 58) == 0x400_0000_0000_0000
  {
    assert Shl(1, 4) == 16;
    ShlAt64(4);
    ShlAt64(10);
    ShlAt64(16);
    ShlAt64(22);
    ShlAt64(28);
    ShlAt64(34);
    ShlAt64(40);
    ShlAt64(46);
    ShlAt64(52);
  }

  /** Exactly the 64-bit values use the indices up to `LAST_INDEX`, and there no representative overflows. */
  lemma ValuesStayInWord(v: nat, i: nat)
    ensures v < TWO_64 <==> IndexFor(v) <= LAST_INDEX
    ensures i <= LAST_INDEX ==> ValueForIndex(i) < TWO_64
  {
    ShlOneAt58();
    ShlAt64(58);
    var _ := BucketShape(58, 64);
    assert Low(LAST_INDEX + 1) == TWO_64;
    IndexContains(v);
    RepresentativeInBucket(i);
    if IndexFor(v) <= LAST_INDEX {
      LowMonotone(IndexFor(v), LAST_INDEX + 1);
    } else {
      LowMonotone(LAST_INDEX + 1, IndexFor(v));
    }
    if i <= LAST_INDEX {
      LowMonotone(i, LAST_INDEX + 1);
    }
  }

  /** There are 1544 buckets, and the values they can tell apart are those below 603.979776 s. */
  lemma TrackedRange(v: nat)
    ensures IndexFor(MAX_TRACK_MICROS) + 1 == BUCKETS
    ensures IndexFor(v) < BUCKETS <==> v < 603_979_776
    ensures ValueForIndex(1543) == 599_785_472
  {
    TopTrackedBucket();
    Tiling(1543);
    IndexForIff(MAX_TRACK_MICROS, 1543);
    IndexContains(v);
    if IndexFor(v) < 1544 {
      LowMonotone(IndexFor(v), 1544);
    } else {
      LowMonotone(1544, IndexFor(v));
    }
  }

  lemma TopTrackedBucket()
    ensures Low(1543) == 595_591_168 && Width(1543) == 8_388_608
    ensures ValueForIndex(1543) == 599_785_472
  {
    assert Shl(1, 23) == 8_388_608 by {
      assert Shl(1, 5) == 32;
      ShlAt64(5);
      ShlAt64(11);
      ShlAt64(17);
    }
    ShlAt64(23);
    ShlAdd(64, 7, 23);
    ShlSeven(23);
    var i := BucketShape(23, 71);
  }

  lemma {:induction false} ShlSeven(k: nat)
    ensures Shl(7, k) == 7 * Shl(1, k)
  {
    if k > 0 {
      ShlSeven(k - 1);
    }
  }
}
