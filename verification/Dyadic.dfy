/** Powers of two, machine shifts, and dyadic covers of a range of messages.

    A place `(l, i)` is the interval of length `2^l` that starts at `i * 2^l`. Places in a list cover
    `from..to` when their intervals, in list order, join up without gap or overlap. The main result here is that a
    cover of `0..t` in which no two neighbours are siblings is forced: it is the binary expansion of `t`. */
module Dyadic {

  /** `i` doubled `l` times. */
  function Scale(i: nat, l: nat): (r: nat)
    ensures r >= i
  {
    if l == 0 then i else 2 * Scale(i, l - 1)
  }

  function Pow2(n: nat): nat { Scale(1, n) }

  lemma {:induction false} ScaleAdd(a: nat, b: nat, l: nat)
    ensures Scale(a + b, l) == Scale(a, l) + Scale(b, l)
  {
    if l > 0 {
      ScaleAdd(a, b, l - 1);
    }
  }

  lemma {:induction false} ScaleMonotone(a: nat, b: nat, l: nat)
    requires a <= b
    ensures Scale(a, l) <= Scale(b, l)
    ensures a < b ==> Scale(a, l) < Scale(b, l)
  {
    ScaleAdd(a, b - a, l);
  }

  lemma {:induction false} Cancel(a: nat, b: nat, l: nat)
    requires Scale(a, l) == Scale(b, l)
    ensures a == b
  {
    if a <= b {
      ScaleMonotone(a, b, l);
    } else {
      ScaleMonotone(b, a, l);
    }
  }

  lemma {:induction false} ScaleScale(i: nat, a: nat, b: nat)
    ensures Scale(Scale(i, a), b) == Scale(i, a + b)
  {
    if b > 0 {
      ScaleScale(i, a, b - 1);
    }
  }

  lemma {:induction false} ScaleIsProduct(i: nat, l: nat)
    ensures Scale(i, l) == i * Pow2(l)
  {
    if l > 0 {
      ScaleIsProduct(i, l - 1);
      MulAssoc(i, 2, Pow2(l - 1));
    }
  }

  lemma {:induction false} MulAssoc(x: int, y: int, z: int)
    ensures x * (y * z) == y * (x * z)
  {
  }

  lemma {:induction false} Pow2Monotone(a: nat, b: nat)
    requires a <= b
    ensures Pow2(a) <= Pow2(b)
  {
    ScaleScale(1, b - a, a);
    ScaleMonotone(1, Scale(1, b - a), a);
  }

  /** Powers of two below `2^n` have exponents below `n`. */
  lemma {:induction false} Pow2Below(a: nat, n: nat)
    requires Pow2(a) < Pow2(n)
    ensures a < n
  {
    if n <= a {
      Pow2Monotone(n, a);
    }
  }

  /** `v` reduced modulo `m`. */
  function Wrap(v: nat, m: nat): (r: nat)
    requires m > 0
    ensures r < m
    decreases v
  {
    if v < m then v else Wrap(v - m, m)
  }

  const U64: nat := 0x1_0000_0000_0000_0000
  const U128: nat := 0x1_0000_0000_0000_0000_0000_0000_0000_0000

  lemma {:induction false} WordSizes()
    ensures Pow2(64) == U64 && Pow2(128) == U128
  {
    TimesHalfWord(1, 0);
    TimesHalfWord(1, 32);
    TimesHalfWord(1, 64);
    TimesHalfWord(1, 96);
  }

  lemma {:induction false} TimesHalfWord(i: nat, l: nat)
    ensures Scale(i, l + 32) == 0x1_0000_0000 * Scale(i, l)
  {
    Times256(i, l);
    Times256(i, l + 8);
    Times256(i, l + 16);
    Times256(i, l + 24);
  }

  lemma {:induction false} Times256(i: nat, l: nat)
    ensures Scale(i, l + 8) == 256 * Scale(i, l)
  {
    assert Scale(i, l + 8) == 4 * Scale(i, l + 6);
    assert Scale(i, l + 6) == 4 * Scale(i, l + 4);
    assert Scale(i, l + 4) == 4 * Scale(i, l + 2);
  }

  /** `x << bits` in a machine word of `size` values: what falls off the top is lost. */
  function ShiftLeft(x: nat, bits: nat, size: nat): nat
    requires size > 0
  {
    Wrap(Scale(x, bits), size)
  }

  /** A level and an index in it. */
  datatype Place = Place(l: nat, i: nat)

  ghost function Start(p: Place): nat { Scale(p.i, p.l) }

  ghost function End(p: Place): nat { Scale(p.i + 1, p.l) }

  lemma {:induction false} EndIsStartPlusCount(p: Place)
    ensures End(p) == Start(p) + Pow2(p.l)
  {
    ScaleAdd(p.i, 1, p.l);
  }

  /** The left and the right half of one parent. */
  predicate Siblings(a: Place, b: Place) { a.l == b.l && a.i % 2 == 0 && b.i == a.i + 1 }

  function ParentOf(left: Place): Place { Place(left.l + 1, left.i / 2) }

  lemma {:induction false} SiblingsMakeParent(a: Place, b: Place)
    requires Siblings(a, b)
    ensures Start(ParentOf(a)) == Start(a) && End(ParentOf(a)) == End(b)
  {
    var h := a.i / 2;
    ScaleAdd(h, h, a.l);
    ScaleAdd(h + 1, h + 1, a.l);
    assert h + h == a.i && (h + 1) + (h + 1) == b.i + 1;
  }

  /** `v` covers the messages `from..to`, oldest first, without a gap or an overlap. */
  ghost predicate Cover(v: seq<Place>, from: nat, to: nat)
  {
    if v == [] then from == to else Start(v[0]) == from && Cover(v[1..], End(v[0]), to)
  }

  ghost predicate PairAt(v: seq<Place>, at: int) { 0 <= at < |v| - 1 && Siblings(v[at], v[at + 1]) }

  ghost predicate NoPair(v: seq<Place>) { forall at :: !PairAt(v, at) }

  /** `v` with the pair at `at` merged into its parent. */
  ghost function MergeAt(v: seq<Place>, at: nat): seq<Place>
    requires at + 1 < |v|
  {
    v[..at] + [ParentOf(v[at])] + v[at + 2..]
  }

  lemma {:induction false} CoverGrows(v: seq<Place>, from: nat, to: nat)
    requires Cover(v, from, to)
    ensures from <= to && (v != [] ==> from < to)
  {
    if v != [] {
      CoverGrows(v[1..], End(v[0]), to);
      EndIsStartPlusCount(v[0]);
    }
  }

  lemma {:induction false} CoverConcat(a: seq<Place>, b: seq<Place>, from: nat, mid: nat, to: nat)
    requires Cover(a, from, mid) && Cover(b, mid, to)
    ensures Cover(a + b, from, to)
  {
    if a == [] {
      assert a + b == b;
    } else {
      CoverConcat(a[1..], b, End(a[0]), mid, to);
      assert (a + b)[1..] == a[1..] + b;
    }
  }

  /** A cover can be cut before any of its places. */
  lemma {:induction false} CoverCut(v: seq<Place>, from: nat, to: nat, at: nat)
    requires Cover(v, from, to) && at < |v|
    ensures Cover(v[..at], from, Start(v[at])) && Cover(v[at..], Start(v[at]), to)
    ensures from <= Start(v[at]) < End(v[at]) <= to
  {
    if at == 0 {
      assert v[0..] == v && v[..0] == [];
      CoverGrows(v[1..], End(v[0]), to);
      EndIsStartPlusCount(v[0]);
    } else {
      CoverCut(v[1..], End(v[0]), to, at - 1);
      assert v[1..][..at - 1] == v[..at][1..];
      assert v[1..][at - 1..] == v[at..];
      EndIsStartPlusCount(v[0]);
    }
  }

  lemma {:induction false} CoverAppend(v: seq<Place>, p: Place, from: nat, to: nat)
    requires Cover(v, from, to) && Start(p) == to
    ensures Cover(v + [p], from, End(p))
  {
    assert [p][1..] == [];
    assert Cover([p], to, End(p));
    CoverConcat(v, [p], from, to, End(p));
  }

  /** Merging a pair moves no boundary of the range: the cover still covers `from..to`. */
  lemma {:induction false} MergeKeepsCover(v: seq<Place>, from: nat, to: nat, at: nat)
    requires Cover(v, from, to) && PairAt(v, at)
    ensures Cover(MergeAt(v, at), from, to)
  {
    var p := ParentOf(v[at]);
    CoverCut(v, from, to, at);
    assert v[at..][1..] == v[at + 1..];
    assert v[at + 1..][0] == v[at + 1] && v[at + 1..][1..] == v[at + 2..];
    SiblingsMakeParent(v[at], v[at + 1]);
    CoverAppend(v[..at], p, from, Start(v[at]));
    CoverConcat(v[..at] + [p], v[at + 2..], from, End(p), to);
  }

  /** The lengths of the intervals of `v`, added up. */
  ghost function Total(v: seq<Place>): nat
  {
    if v == [] then 0 else Pow2(v[0].l) + Total(v[1..])
  }

  lemma {:induction false} TotalOfCover(v: seq<Place>, from: nat, to: nat)
    requires Cover(v, from, to)
    ensures from + Total(v) == to
  {
    if v != [] {
      EndIsStartPlusCount(v[0]);
      TotalOfCover(v[1..], End(v[0]), to);
    }
  }

  /** Every place of a cover of `0..to` lies inside a machine word when `to` does. */
  lemma {:induction false} PlaceFits(v: seq<Place>, to: nat, at: nat)
    requires Cover(v, 0, to) && to < U64 && at < |v|
    ensures v[at].l < 64 && End(v[at]) <= to && Start(v[at]) < to
  {
    CoverCut(v, 0, to, at);
    EndIsStartPlusCount(v[at]);
    WordSizes();
    Pow2Below(v[at].l, 64);
  }

  // ---- The binary expansion ----

  /** The cover of `0..h * 2^k` read off the bits of `h`, highest bit first: bit `b` of `h`, when it
      is set, gives one node of level `k + b`. */
  ghost function Expansion(h: nat, k: nat): seq<Place>
  {
    if h == 0 then []
    else Expansion(h / 2, k + 1) + (if h % 2 == 1 then [Place(k, h - 1)] else [])
  }

  function PopCount(n: nat): nat
  {
    if n == 0 then 0 else n % 2 + PopCount(n / 2)
  }

  ghost predicate LevelsFrom(v: seq<Place>, k: nat) { forall p :: p in v ==> k <= p.l }

  lemma {:induction false} ScaleEven(i: nat, l: nat)
    requires l > 0
    ensures Scale(i, l) % 2 == 0
  {
    TwiceIsEven(Scale(i, l - 1));
  }

  lemma {:induction false} TwiceIsEven(n: nat)
    ensures (2 * n) % 2 == 0
  {
  }

  /** A place of level `k` or more starts and ends at multiples of `2^k`, even ones above level `k`. */
  lemma {:induction false} InUnits(p: Place, k: nat)
    requires k <= p.l
    ensures Start(p) == Scale(Scale(p.i, p.l - k), k) && End(p) == Scale(Scale(p.i + 1, p.l - k), k)
    ensures k < p.l ==> Scale(p.i, p.l - k) % 2 == 0 && Scale(p.i + 1, p.l - k) % 2 == 0
  {
    ScaleScale(p.i, p.l - k, k);
    ScaleScale(p.i + 1, p.l - k, k);
    if k < p.l {
      ScaleEven(p.i, p.l - k);
      ScaleEven(p.i + 1, p.l - k);
    }
  }

  /** Between two even multiples of `2^k`, a cover by levels `k` and up without a pair uses no node
      of level `k` at all. */
  lemma {:induction false} EvenRangeHasNoLowNode(v: seq<Place>, a: nat, b: nat, k: nat)
    requires Cover(v, Scale(a, k), Scale(b, k)) && a % 2 == 0 && b % 2 == 0
    requires LevelsFrom(v, k) && NoPair(v)
    ensures LevelsFrom(v, k + 1)
  {
    if v != [] {
      var p, rest := v[0], v[1..];
      assert p in v;
      InUnits(p, k);
      if p.l == k {
        Cancel(p.i, a, k);
        if rest == [] {
          Cancel(p.i + 1, b, k);
        } else {
          assert rest[0] == v[1] && v[1] in v;
          InUnits(v[1], k);
          Cancel(Scale(v[1].i, v[1].l - k), a + 1, k);
          assert v[1].l == k;
          assert PairAt(v, 0);
        }
        assert false;
      }
      forall at ensures !PairAt(rest, at) {
        assert PairAt(rest, at) ==> PairAt(v, at + 1);
      }
      EvenRangeHasNoLowNode(rest, Scale(p.i + 1, p.l - k), b, k);
      forall q | q in v ensures k + 1 <= q.l {
        assert q == p || q in rest;
      }
    }
  }

  lemma {:induction false} HalveUnits(h: nat, k: nat)
    ensures Scale(h / 2, k + 1) == Scale(h - h % 2, k)
  {
    ScaleAdd(h / 2, h / 2, k);
    assert h / 2 + h / 2 == h - h % 2;
  }

  lemma {:induction false} ScaleZero(k: nat)
    ensures Scale(0, k) == 0
  {
    if k > 0 {
      ScaleZero(k - 1);
    }
  }

  /** A cover of an odd number of units of `2^k` by levels `k` and up ends in a node of level `k`. */
  lemma {:induction false} OddRangeEndsLow(v: seq<Place>, h: nat, k: nat)
    requires Cover(v, 0, Scale(h, k)) && LevelsFrom(v, k) && h % 2 == 1
    ensures v != [] && v[|v| - 1] == Place(k, h - 1) && Cover(v[..|v| - 1], 0, Scale(h - 1, k))
  {
    ScaleMonotone(1, h, k);
    var n := |v| - 1;
    var last := v[n];
    CoverCut(v, 0, Scale(h, k), n);
    assert v[n..] == [last] && [last][1..] == [];
    assert End(last) == Scale(h, k);
    assert last in v;
    InUnits(last, k);
    Cancel(Scale(last.i + 1, last.l - k), h, k);
  }

  lemma {:induction false} NoPairInFront(v: seq<Place>, n: nat)
    requires NoPair(v) && n <= |v|
    ensures NoPair(v[..n])
  {
    forall at ensures !PairAt(v[..n], at) {
      assert PairAt(v[..n], at) ==> PairAt(v, at);
    }
  }

  /** A cover of `0..h * 2^k` by levels `k` and up without a pair is the expansion of `h`. */
  lemma {:induction false} NoPairIsExpansionFrom(v: seq<Place>, h: nat, k: nat)
    requires Cover(v, 0, Scale(h, k)) && LevelsFrom(v, k) && NoPair(v)
    ensures v == Expansion(h, k)
    decreases h
  {
    if h == 0 {
      ScaleZero(k);
      CoverGrows(v, 0, 0);
    } else if h % 2 == 1 {
      OddFront(v, h, k);
      var front := v[..|v| - 1];
      NoPairIsExpansionFrom(front, h / 2, k + 1);
      assert v == front + [v[|v| - 1]];
    } else {
      HalveUnits(h, k);
      ScaleZero(k);
      EvenRangeHasNoLowNode(v, 0, h, k);
      NoPairIsExpansionFrom(v, h / 2, k + 1);
    }
  }

  /** An odd range ends with one low node, and what stands before it is an even range without low ones. */
  lemma {:induction false} OddFront(v: seq<Place>, h: nat, k: nat)
    requires Cover(v, 0, Scale(h, k)) && LevelsFrom(v, k) && NoPair(v) && h % 2 == 1
    ensures v != [] && v[|v| - 1] == Place(k, h - 1)
    ensures var front := v[..|v| - 1];
            Cover(front, 0, Scale(h / 2, k + 1)) && LevelsFrom(front, k + 1) && NoPair(front)
  {
    HalveUnits(h, k);
    ScaleZero(k);
    OddRangeEndsLow(v, h, k);
    var front := v[..|v| - 1];
    NoPairInFront(v, |v| - 1);
    EvenRangeHasNoLowNode(front, 0, h - 1, k);
  }

  lemma {:induction false} ExpansionCovers(h: nat, k: nat)
    ensures Cover(Expansion(h, k), 0, Scale(h, k))
    ensures LevelsFrom(Expansion(h, k), k) && NoPair(Expansion(h, k))
  {
    if h == 0 {
      ScaleZero(k);
    } else {
      var high := Expansion(h / 2, k + 1);
      ExpansionCovers(h / 2, k + 1);
      HalveUnits(h, k);
      if h % 2 == 1 {
        var p := Place(k, h - 1);
        CoverAppend(high, p, 0, Scale(h - 1, k));
        forall at ensures !PairAt(high + [p], at) {
          assert PairAt(high + [p], at) && at < |high| - 1 ==> PairAt(high, at);
          assert at == |high| - 1 && at >= 0 ==> high[at] in high;
        }
      } else {
        assert high + [] == high;
      }
    }
  }

  /** "Nothing left to merge" leaves one possible view: the binary expansion of `t`. */
  lemma {:induction false} NothingToMergeIffExpansion(v: seq<Place>, t: nat)
    requires Cover(v, 0, t)
    ensures NoPair(v) <==> v == Expansion(t, 0)
  {
    assert Scale(t, 0) == t;
    if NoPair(v) {
      NoPairIsExpansionFrom(v, t, 0);
    }
    ExpansionCovers(t, 0);
  }

  /** The expansion holds one node per set bit. */
  lemma {:induction false} ExpansionSize(h: nat, k: nat)
    ensures |Expansion(h, k)| == PopCount(h)
  {
    if h != 0 {
      ExpansionSize(h / 2, k + 1);
    }
  }

  lemma {:induction false} PopCountBound(n: nat, bits: nat)
    requires n < Pow2(bits)
    ensures PopCount(n) <= bits
  {
    if n != 0 {
      PopCountBound(n / 2, bits - 1);
    }
  }

  /** Bit `b` of `n`. */
  predicate Bit(n: nat, b: nat)
    decreases b
  {
    if b == 0 then n % 2 == 1 else Bit(n / 2, b - 1)
  }

  /** The expansion of `h` has a node for bit `b` exactly when that bit of `h` is set. */
  lemma {:induction false} ExpansionLevelIffBit(h: nat, k: nat, b: nat)
    ensures (exists p: Place :: p in Expansion(h, k) && p.l == k + b) <==> Bit(h, b)
    decreases b
  {
    if h == 0 {
      ZeroHasNoBit(b);
    } else {
      var high := Expansion(h / 2, k + 1);
      var low := if h % 2 == 1 then [Place(k, h - 1)] else [];
      assert Expansion(h, k) == high + low;
      ExpansionCovers(h / 2, k + 1);
      if b == 0 {
        if h % 2 == 1 {
          assert Place(k, h - 1) in high + low;
        }
      } else {
        ExpansionLevelIffBit(h / 2, k + 1, b - 1);
        assert forall p: Place :: p in high + low && p.l == k + b <==> p in high && p.l == k + 1 + (b - 1);
      }
    }
  }

  lemma {:induction false} ZeroHasNoBit(b: nat)
    ensures !Bit(0, b)
  {
    if b > 0 {
      ZeroHasNoBit(b - 1);
    }
  }
}
