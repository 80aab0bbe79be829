/** A chat's view. It is a list of places in the summary tree; `Whole` says that they leave out nothing of
    the chat. Growing adds one place for each message, and batches of merges, ordered by how due a pair of
    neighbours is, shorten it again. */
module ChatView {
  import opened Dyadic
  import opened ChatTree

  function PlacesOf(nodes: seq<Node>): seq<Place>
  {
    seq(|nodes|, k requires 0 <= k < |nodes| => nodes[k].place)
  }

  /** A whole chat short enough to count in a machine word. */
  ghost predicate Whole(v: seq<Place>, total: nat)
  {
    Cover(v, 0, total) && total < U64
  }

  lemma {:induction false} WholePlace(v: seq<Place>, total: nat, at: nat)
    requires Whole(v, total) && at < |v|
    ensures v[at].l < WORD && v[at].i < U64
    ensures First(v[at].l, v[at].i) == Start(v[at]) && Count(v[at].l) == Pow2(v[at].l)
  {
    PlaceFits(v, total, at);
    WordExact(v[at]);
  }

  /** The parent of a pair of the view lies inside the chat, so its shifts are exact too. */
  lemma {:induction false} WholeParent(v: seq<Place>, total: nat, at: nat)
    requires Whole(v, total) && PairAt(v, at)
    ensures ParentOf(v[at]).l < WORD && End(ParentOf(v[at])) <= total
    ensures Last(ParentOf(v[at]).l, ParentOf(v[at]).i) + 1 == End(ParentOf(v[at])) == End(v[at + 1])
  {
    MergeKeepsCover(v, 0, total, at);
    PlaceFits(MergeAt(v, at), total, at);
    WordExact(ParentOf(v[at]));
    SiblingsMakeParent(v[at], v[at + 1]);
  }

  // ---- Sizes ----

  ghost predicate Held(v: seq<Place>, held: map<Place, Node>) { forall p :: p in v ==> p in held }

  ghost predicate HeldNodes(nodes: seq<Node>, held: map<Place, Node>)
  {
    forall n :: n in nodes ==> n.place in held && held[n.place] == n
  }

  /** The size of the rendered lines. */
  function Bytes(nodes: seq<Node>): nat
    requires forall n :: n in nodes ==> n.place.l < WORD
  {
    if nodes == [] then 0 else |Line(nodes[0])| + Bytes(nodes[1..])
  }

  ghost function LineBytes(p: Place, held: map<Place, Node>): nat
  {
    if p in held && held[p].place.l < WORD then |Line(held[p])| else 0
  }

  /** The size of the view `v` of a tree: what its places take as lines. */
  ghost function ViewBytes(v: seq<Place>, held: map<Place, Node>): nat
  {
    if v == [] then 0 else LineBytes(v[0], held) + ViewBytes(v[1..], held)
  }

  lemma {:induction false} BytesAreViewBytes(nodes: seq<Node>, held: map<Place, Node>)
    requires HeldNodes(nodes, held) && forall n :: n in nodes ==> n.place.l < WORD
    ensures Bytes(nodes) == ViewBytes(PlacesOf(nodes), held)
  {
    if nodes != [] {
      assert nodes[0] in nodes;
      assert PlacesOf(nodes)[1..] == PlacesOf(nodes[1..]);
      BytesAreViewBytes(nodes[1..], held);
    }
  }

  lemma {:induction false} ViewBytesExtend(v: seq<Place>, held: map<Place, Node>, more: map<Place, Node>)
    requires Held(v, held) && Extends(held, more)
    ensures Held(v, more) && ViewBytes(v, held) == ViewBytes(v, more)
  {
    if v != [] {
      assert v[0] in v;
      assert Held(v[1..], held);
      ViewBytesExtend(v[1..], held, more);
    }
  }

  lemma {:induction false} ViewBytesBound(v: seq<Place>, held: map<Place, Node>, line: nat)
    requires forall p :: p in held ==> LineBytes(p, held) <= line
    ensures ViewBytes(v, held) <= |v| * line
  {
    if v != [] {
      ViewBytesBound(v[1..], held, line);
      assert |v| * line == line + (|v| - 1) * line;
    }
  }

  lemma {:induction false} MulMonotone(x: nat, y: nat, p: nat)
    requires x <= y
    ensures x * p <= y * p
  {
  }

  /** A chat of fewer than 2^64 messages whose view has nothing left to merge takes at most 64 lines. */
  lemma {:induction false} NothingToMergeIsShort(v: seq<Place>, total: nat, held: map<Place, Node>, line: nat)
    requires Whole(v, total) && NoPair(v)
    requires forall p :: p in held ==> LineBytes(p, held) <= line
    ensures |v| == PopCount(total) <= WORD
    ensures ViewBytes(v, held) <= WORD * line
  {
    NothingToMergeIffExpansion(v, total);
    ExpansionSize(total, 0);
    WordSizes();
    PopCountBound(total, WORD);
    ViewBytesBound(v, held, line);
    MulMonotone(|v|, WORD, line);
  }

  const VIEW_BYTES_LOW: nat := 64000
  const SUMMARY_BYTES: nat := 512

  /** With the operator's numbers a fully merged view always fits the low size: it does as long as
      no summary passes 957 bytes, and summaries are asked for at 512. */
  lemma {:induction false} OperatorSizesSuffice(v: seq<Place>, total: nat, held: map<Place, Node>)
    requires Whole(v, total) && NoPair(v)
    requires forall p :: p in held ==> |held[p].text| <= 957
    ensures ViewBytes(v, held) <= VIEW_BYTES_LOW && SUMMARY_BYTES <= 957
  {
    forall p | p in held ensures LineBytes(p, held) <= 1000 {
      if held[p].place.l < WORD {
        LineLength(held[p]);
      }
    }
    NothingToMergeIsShort(v, total, held, 1000);
  }

  // ---- What a merge is shown ----

  function Render(nodes: seq<Node>): Text
    requires forall n :: n in nodes ==> n.place.l < WORD
  {
    "<chat>\n" + Lines(nodes) + "</chat>\n"
  }

  function Lines(nodes: seq<Node>): Text
    requires forall n :: n in nodes ==> n.place.l < WORD
  {
    if nodes == [] then "" else Line(nodes[0]) + Lines(nodes[1..])
  }

  /** The front of the list, as far as nodes start no later than `upto`. */
  function ShownUpto(nodes: seq<Node>, upto: int): (shown: seq<Node>)
    requires forall n :: n in nodes ==> n.place.l < WORD
    ensures forall n :: n in shown ==> n in nodes
  {
    if nodes == [] || First(nodes[0].place.l, nodes[0].place.i) > upto then []
    else [nodes[0]] + ShownUpto(nodes[1..], upto)
  }

  lemma {:induction false} ShownUptoPrefix(nodes: seq<Node>, upto: int, n: nat)
    requires n <= |nodes| && forall x :: x in nodes ==> x.place.l < WORD
    requires forall k :: 0 <= k < n ==> First(nodes[k].place.l, nodes[k].place.i) <= upto
    requires n < |nodes| ==> First(nodes[n].place.l, nodes[n].place.i) > upto
    ensures ShownUpto(nodes, upto) == nodes[..n]
  {
    if n > 0 {
      ShownUptoPrefix(nodes[1..], upto, n - 1);
      assert nodes[..n] == [nodes[0]] + nodes[1..][..n - 1];
    }
  }

  lemma {:induction false} StartsIncrease(v: seq<Place>, from: nat, to: nat, j: nat, k: nat)
    requires Cover(v, from, to) && j < k < |v|
    ensures End(v[j]) <= Start(v[k])
  {
    CoverCut(v, from, to, k);
    CoverCut(v[..k], from, Start(v[k]), j);
  }

  lemma {:induction false} StartsBefore(v: seq<Place>, to: nat, k: nat, at: nat)
    requires Cover(v, 0, to) && k < |v| && at < |v|
    ensures Start(v[k]) < End(v[at]) <==> k <= at
  {
    EndIsStartPlusCount(v[at]);
    EndIsStartPlusCount(v[k]);
    if k < at {
      StartsIncrease(v, 0, to, k, at);
    } else if k > at {
      StartsIncrease(v, 0, to, at, k);
    }
  }

  /** Exactly the nodes up to the pair at `at` start at or before the last message of its parent. */
  lemma {:induction false} FirstUptoPair(v: seq<Place>, total: nat, at: nat, k: nat)
    requires Whole(v, total) && PairAt(v, at) && k < |v|
    ensures v[k].l < WORD && ParentOf(v[at]).l < WORD
    ensures First(v[k].l, v[k].i) <= Last(ParentOf(v[at]).l, ParentOf(v[at]).i) <==> k < at + 2
  {
    WholeParent(v, total, at);
    WholePlace(v, total, k);
    StartsBefore(v, total, k, at + 1);
  }

  /** A merge is shown the view up to the end of its pair, and nothing later. */
  lemma {:induction false} MergeIsShownItsPast(nodes: seq<Node>, total: nat, at: nat)
    requires Whole(PlacesOf(nodes), total) && PairAt(PlacesOf(nodes), at)
    requires forall n :: n in nodes ==> n.place.l < WORD
    ensures ParentOf(nodes[at].place).l < WORD
    ensures ShownUpto(nodes, Last(ParentOf(nodes[at].place).l, ParentOf(nodes[at].place).i)) == nodes[..at + 2]
  {
    var v := PlacesOf(nodes);
    FirstUptoPair(v, total, at, at);
    var upto := Last(ParentOf(v[at]).l, ParentOf(v[at]).i);
    forall k | 0 <= k < |nodes| ensures First(nodes[k].place.l, nodes[k].place.i) <= upto <==> k < at + 2 {
      FirstUptoPair(v, total, at, k);
    }
    ShownUptoPrefix(nodes, upto, at + 2);
  }

  // ---- Pairs and the most due of them ----

  /** The program's test whether `a` and `b` are the halves of one parent. */
  predicate Mergeable(a: Place, b: Place)
  {
    Halves(ParentOf(a).l, ParentOf(a).i) == Some((a, b))
  }

  lemma {:induction false} MergeableIsPair(v: seq<Place>, total: nat, at: nat)
    requires Whole(v, total) && at + 1 < |v|
    ensures Mergeable(v[at], v[at + 1]) <==> PairAt(v, at)
  {
    WholePlace(v, total, at);
    HalvesIffSiblings(v[at], v[at + 1]);
  }

  /** What merging the pair at `at` asks for; nothing when the two nodes are no siblings. */
  method PairWish(nodes: seq<Node>, at: nat, ghost total: nat) returns (wish: Option<Wanted>)
    requires Whole(PlacesOf(nodes), total) && at + 1 < |nodes|
    requires forall n :: n in nodes ==> n.place.l < WORD
    ensures wish.Some? <==> PairAt(PlacesOf(nodes), at)
    ensures wish.Some? ==> wish.value == PairWanted(nodes, at)
  {
    MergeableIsPair(PlacesOf(nodes), total, at);
    if !Mergeable(nodes[at].place, nodes[at + 1].place) {
      return None;
    }
    MergeIsShownItsPast(nodes, total, at);
    var parent := ParentOf(nodes[at].place);
    return Some(Pair(parent.l, parent.i, Render(ShownUpto(nodes, Last(parent.l, parent.i)))));
  }

  /** Where the sibling pairs among the first `n + 1` places stand, in order. */
  ghost function PairPlaces(v: seq<Place>, n: nat): (ats: seq<nat>)
    ensures forall at :: at in ats <==> at < n && PairAt(v, at)
  {
    if n == 0 then [] else PairPlaces(v, n - 1) + if PairAt(v, n - 1) then [n - 1] else []
  }

  lemma {:induction false} WishJoins(nodes: seq<Node>, wanted: seq<Wanted>, at: nat)
    requires at < |nodes| && WantedAt(nodes, wanted, PairPlaces(PlacesOf(nodes), at))
    ensures PairAt(PlacesOf(nodes), at) ==>
              WantedAt(nodes, wanted + [PairWanted(nodes, at)], PairPlaces(PlacesOf(nodes), at + 1))
    ensures !PairAt(PlacesOf(nodes), at) ==> WantedAt(nodes, wanted, PairPlaces(PlacesOf(nodes), at + 1))
  {
  }

  /** The wishes so far and that of the pair at `at`, when there is one. */
  method WithWish(nodes: seq<Node>, at: nat, ghost total: nat, wanted: seq<Wanted>) returns (more: seq<Wanted>)
    requires Whole(PlacesOf(nodes), total) && at + 1 < |nodes|
    requires WantedAt(nodes, wanted, PairPlaces(PlacesOf(nodes), at))
    ensures WantedAt(nodes, more, PairPlaces(PlacesOf(nodes), at + 1))
  {
    WishJoins(nodes, wanted, at);
    var wish := PairWish(nodes, at, total);
    more := if wish.Some? then wanted + [wish.value] else wanted;
  }

  lemma {:induction false} LevelsFit(nodes: seq<Node>, total: nat)
    requires Whole(PlacesOf(nodes), total)
    ensures forall n :: n in nodes ==> n.place.l < WORD
  {
    forall n | n in nodes
      ensures n.place.l < WORD
    {
      var k :| 0 <= k < |nodes| && nodes[k] == n;
      WholePlace(PlacesOf(nodes), total, k);
    }
  }

  /** One wish for each place where two neighbours are siblings, in view order. */
  method Pairs(nodes: seq<Node>, ghost total: nat) returns (wanted: seq<Wanted>)
    requires Whole(PlacesOf(nodes), total)
    ensures AllWished(nodes, wanted)
  {
    LevelsFit(nodes, total);
    wanted := [];
    var at := 0;
    while at + 1 < |nodes|
      invariant at < |nodes| || at == |nodes| == 0
      invariant WantedAt(nodes, wanted, PairPlaces(PlacesOf(nodes), at))
    {
      wanted := WithWish(nodes, at, total, wanted);
      at := at + 1;
    }
    if nodes != [] { WishJoins(nodes, wanted, at); }
  }

  /** The wishes are those for all pairs, in order. */
  ghost predicate AllWished(nodes: seq<Node>, wanted: seq<Wanted>)
  {
    WantedAt(nodes, wanted, PairPlaces(PlacesOf(nodes), |nodes|))
  }

  /** The wishes are those for the pairs at `ats`, in order. */
  ghost predicate WantedAt(nodes: seq<Node>, wanted: seq<Wanted>, ats: seq<nat>)
  {
    |ats| == |wanted| && (forall n :: n in nodes ==> n.place.l < WORD) &&
    forall j :: 0 <= j < |ats| ==> PairAt(PlacesOf(nodes), ats[j]) && wanted[j] == PairWanted(nodes, ats[j])
  }

  ghost function PairWanted(nodes: seq<Node>, at: int): Wanted
    requires PairAt(PlacesOf(nodes), at) && forall n :: n in nodes ==> n.place.l < WORD
  {
    var parent := ParentOf(nodes[at].place);
    Pair(parent.l, parent.i, Render(nodes[..at + 2]))
  }

  /** `a / 2^l`. */
  ghost function Ratio(a: int, l: nat): real
  {
    if l == 0 then a as real else Ratio(a, l - 1) / 2.0
  }

  /** The messages since the last one of the pair at `at`. */
  ghost function Since(v: seq<Place>, total: nat, at: int): int
    requires PairAt(v, at)
  {
    total + 1 - End(ParentOf(v[at]))
  }

  /** How due the pair at `at` is: the messages since its last one, over the size of its nodes. */
  ghost function Due(v: seq<Place>, total: nat, at: int): real
    requires PairAt(v, at)
  {
    Ratio(Since(v, total, at), v[at].l)
  }

  /** The pair at `at` is the most due one of `v`, the oldest among equals. */
  ghost predicate MostDueAt(v: seq<Place>, total: nat, at: int)
  {
    PairAt(v, at) &&
    forall k :: PairAt(v, k) ==> Due(v, total, k) <= Due(v, total, at) && (k < at ==> Due(v, total, k) < Due(v, total, at))
  }

  lemma {:induction false} MostDueUnique(v: seq<Place>, total: nat, a: int, b: int)
    requires MostDueAt(v, total, a) && MostDueAt(v, total, b)
    ensures a == b
  {
  }

  lemma {:induction false} RatioMonotone(a: int, b: int, l: nat)
    ensures a > b <==> Ratio(a, l) > Ratio(b, l)
  {
    if l > 0 {
      RatioMonotone(a, b, l - 1);
    }
  }

  lemma {:induction false} RatioDouble(a: int, l: nat)
    ensures Ratio(2 * a, l + 1) == Ratio(a, l)
  {
    if l > 0 {
      RatioDouble(a, l - 1);
    }
  }

  lemma {:induction false} RatioScale(a: nat, p: nat, q: nat)
    ensures Ratio(Scale(a, q), p + q) == Ratio(a, p)
  {
    if q > 0 {
      RatioDouble(Scale(a, q - 1), p + q - 1);
      RatioScale(a, p, q - 1);
    }
  }

  /** Comparing `a / 2^p` with `b / 2^q` by cross-multiplied shifts. */
  lemma {:induction false} CrossMultiply(a: nat, p: nat, b: nat, q: nat)
    ensures Scale(a, q) > Scale(b, p) <==> Ratio(a, p) > Ratio(b, q)
  {
    RatioScale(a, p, q);
    RatioScale(b, q, p);
    RatioMonotone(Scale(a, q), Scale(b, p), p + q);
  }

  /** The cross-multiplied shifts lose no bits in 128 and compare the two dues. */
  lemma {:induction false} DueComparison(v: seq<Place>, total: nat, a: int, b: int)
    requires Whole(v, total) && PairAt(v, a) && PairAt(v, b)
    ensures v[a].l < WORD && v[b].l < WORD && Since(v, total, a) > 0 && Since(v, total, b) > 0
    ensures ShiftLeft(Since(v, total, a), v[b].l, U128) > ShiftLeft(Since(v, total, b), v[a].l, U128)
            <==> Due(v, total, a) > Due(v, total, b)
  {
    WholeParent(v, total, a);
    WholeParent(v, total, b);
    EndIsStartPlusCount(ParentOf(v[a]));
    EndIsStartPlusCount(ParentOf(v[b]));
    ShiftFits(Since(v, total, a), v[b].l);
    ShiftFits(Since(v, total, b), v[a].l);
    CrossMultiply(Since(v, total, a), v[a].l, Since(v, total, b), v[b].l);
  }

  lemma {:induction false} ShiftFits(since: nat, level: nat)
    requires since < U64 && level < WORD
    ensures ShiftLeft(since, level, U128) == Scale(since, level)
  {
    ScaleMonotone(since, U64, level);
    WordSizes();
    ScaleScale(1, WORD, level);
    Pow2Monotone(WORD + level, 128);
  }

  /** The messages since the pair at `at`; nothing when the two nodes are no siblings. */
  method PairSince(nodes: seq<Node>, total: nat, at: nat) returns (since: Option<nat>)
    requires Whole(PlacesOf(nodes), total) && at + 1 < |nodes|
    ensures since.Some? <==> PairAt(PlacesOf(nodes), at)
    ensures since.Some? ==> since.value == Since(PlacesOf(nodes), total, at)
  {
    MergeableIsPair(PlacesOf(nodes), total, at);
    if !Mergeable(nodes[at].place, nodes[at + 1].place) {
      return None;
    }
    WholeParent(PlacesOf(nodes), total, at);
    var parent := ParentOf(nodes[at].place);
    var last := Last(parent.l, parent.i);
    return Some(if total >= last then total - last else 0);
  }

  /** The best pair seen so far: where it starts, its messages since, its level. */
  type Best = Option<(nat, nat, nat)>

  ghost predicate BestSoFar(v: seq<Place>, total: nat, best: Best, upto: int)
  {
    match best
    case None => forall k :: PairAt(v, k) ==> upto <= k
    case Some((at, since, l)) =>
      PairAt(v, at) && at < upto && l == v[at].l && since == Since(v, total, at) &&
      forall k :: PairAt(v, k) && k < upto ==>
        Due(v, total, k) <= Due(v, total, at) && (k < at ==> Due(v, total, k) < Due(v, total, at))
  }

  /** Whether the pair at hand is due more than the best so far, compared by cross-multiplied shifts. */
  predicate MoreDue(best: Best, since: nat, l: nat)
  {
    best.None? || ShiftLeft(since, best.value.2, U128) > ShiftLeft(best.value.1, l, U128)
  }

  /** A look at the place `at` keeps the best pair best. */
  lemma {:induction false} BestStep(v: seq<Place>, total: nat, best: Best, at: nat, since: Option<nat>)
    requires Whole(v, total) && BestSoFar(v, total, best, at) && at + 1 < |v|
    requires since.Some? <==> PairAt(v, at)
    requires since.Some? ==> since.value == Since(v, total, at)
    ensures var next := if since.Some? && MoreDue(best, since.value, v[at].l) then Some((at, since.value, v[at].l))
                        else best;
            BestSoFar(v, total, next, at + 1)
  {
    if since.Some? && best.Some? {
      DueComparison(v, total, at, best.value.0);
    }
  }

  /** Finds the pair to merge next. Without siblings there is none to find. */
  method MostDue(nodes: seq<Node>, total: nat) returns (found: Option<nat>)
    requires Whole(PlacesOf(nodes), total)
    ensures found.None? <==> NoPair(PlacesOf(nodes))
    ensures found.Some? ==> MostDueAt(PlacesOf(nodes), total, found.value)
  {
    ghost var v := PlacesOf(nodes);
    var best: Best := None;
    var at := 0;
    while at + 1 < |nodes|
      invariant 0 <= at && (at < |nodes| || nodes == [])
      invariant BestSoFar(v, total, best, at)
    {
      var since := PairSince(nodes, total, at);
      BestStep(v, total, best, at, since);
      if since.Some? && MoreDue(best, since.value, nodes[at].place.l) {
        best := Some((at, since.value, nodes[at].place.l));
      }
      at := at + 1;
    }
    return if best.Some? then Some(best.value.0) else None;
  }

  // ---- Batches ----

  /** `v` after `n` merges, each of the then most due pair. */
  ghost function Batch(v: seq<Place>, total: nat, n: nat): seq<Place>
  {
    if n == 0 then v else MergeMostDue(Batch(v, total, n - 1), total)
  }

  ghost function MergeMostDue(v: seq<Place>, total: nat): seq<Place>
  {
    if at: nat :| MostDueAt(v, total, at) then MergeAt(v, at) else v
  }

  lemma {:induction false} MergeMostDueIs(v: seq<Place>, total: nat, at: nat)
    requires MostDueAt(v, total, at)
    ensures MergeMostDue(v, total) == MergeAt(v, at)
  {
    var other: nat :| MostDueAt(v, total, other) && MergeMostDue(v, total) == MergeAt(v, other);
    MostDueUnique(v, total, at, other);
  }

  lemma {:induction false} BatchCovers(v: seq<Place>, total: nat, n: nat)
    requires Cover(v, 0, total)
    ensures Cover(Batch(v, total, n), 0, total)
  {
    if n > 0 {
      BatchCovers(v, total, n - 1);
      var w := Batch(v, total, n - 1);
      if at: nat :| MostDueAt(w, total, at) && MergeMostDue(w, total) == MergeAt(w, at) {
        MergeKeepsCover(w, 0, total, at);
      }
    }
  }

  // ---- The view ----

  datatype Growth = Grown(merged: bool) | MissingNode(place: Place) | LogTooShort | BuildFailed(outcome: Outcome)

  /** `v` followed by the leaves of the messages `from..to`. */
  ghost function WithLeaves(v: seq<Place>, from: nat, to: nat): seq<Place>
    requires from <= to
  {
    if from == to then v else WithLeaves(v, from, to - 1) + [Place(MESSAGE_LEVEL, to - 1)]
  }

  lemma {:induction false} LeavesCover(v: seq<Place>, from: nat, to: nat)
    requires Cover(v, 0, from) && from <= to
    ensures Cover(WithLeaves(v, from, to), 0, to)
  {
    if from < to {
      LeavesCover(v, from, to - 1);
      CoverAppend(WithLeaves(v, from, to - 1), Place(MESSAGE_LEVEL, to - 1), 0, to - 1);
    }
  }

  lemma {:induction false} LeavesJoin(v: seq<Place>, a: nat, b: nat, c: nat)
    requires a <= b <= c
    ensures WithLeaves(WithLeaves(v, a, b), b, c) == WithLeaves(v, a, c)
  {
    if b < c {
      LeavesJoin(v, a, b, c - 1);
    }
  }

  lemma {:induction false} ViewFacts(nodes: seq<Node>, v: seq<Place>, total: nat, held: map<Place, Node>)
    requires PlacesOf(nodes) == v && HeldNodes(nodes, held) && Whole(v, total)
    ensures Held(v, held) && Total(v) == total
    ensures forall n :: n in nodes ==> n.place.l < WORD
    ensures Bytes(nodes) == ViewBytes(v, held)
  {
    forall n | n in nodes ensures n.place.l < WORD {
      var k :| 0 <= k < |nodes| && nodes[k] == n;
      WholePlace(v, total, k);
    }
    HeldPlaces(nodes, held);
    TotalOfCover(v, 0, total);
    BytesAreViewBytes(nodes, held);
  }

  /** `v` and all it was merged to in `n` merges is held by the tree, and each merge was made past
      the low size. */
  ghost predicate Merging(v: seq<Place>, total: nat, n: nat, held: map<Place, Node>, low: nat)
  {
    Held(Batch(v, total, n), held) &&
    (n > 0 ==> ViewBytes(Batch(v, total, n - 1), held) > low && Merging(v, total, n - 1, held, low))
  }

  /** Said of every merge: none was made on a view that already fitted. */
  lemma {:induction false} MergingNeeded(v: seq<Place>, total: nat, n: nat, held: map<Place, Node>, low: nat, m: nat)
    requires Merging(v, total, n, held, low) && m < n
    ensures ViewBytes(Batch(v, total, m), held) > low
  {
    if m < n - 1 {
      MergingNeeded(v, total, n - 1, held, low, m);
    }
  }

  lemma {:induction false} MergingExtends(v: seq<Place>, total: nat, n: nat, held: map<Place, Node>,
                                          more: map<Place, Node>, low: nat)
    requires Merging(v, total, n, held, low) && Extends(held, more)
    ensures Merging(v, total, n, more, low)
  {
    ViewBytesExtend(Batch(v, total, n), held, more);
    if n > 0 {
      MergingExtends(v, total, n - 1, held, more, low);
      ViewBytesExtend(Batch(v, total, n - 1), held, more);
    }
  }

  /** `view` is `grown`, past the high size, merged most due pair first until it fit the low size or
      nothing was left to merge. */
  ghost predicate MergedDown(grown: seq<Place>, view: seq<Place>, total: nat, held: map<Place, Node>, fitting: Fitting)
  {
    ViewBytes(grown, held) > fitting.high &&
    (exists n: nat :: view == Batch(grown, total, n) && Merging(grown, total, n, held, fitting.low)) &&
    (ViewBytes(view, held) <= fitting.low || NoPair(view))
  }

  /** A batch's first wishes are all ready, as the tree holds every node shown. */
  lemma {:induction false} PairsAreReady(nodes: seq<Node>, total: nat, wanted: seq<Wanted>, ats: seq<nat>,
                                         held: map<Place, Node>)
    requires Whole(PlacesOf(nodes), total) && HeldNodes(nodes, held) && WantedAt(nodes, wanted, ats)
    ensures forall w :: w in wanted ==> Ready(held, w)
  {
    forall w | w in wanted ensures Ready(held, w) {
      var j :| 0 <= j < |wanted| && wanted[j] == w;
      MergeableIsPair(PlacesOf(nodes), total, ats[j]);
      assert nodes[ats[j]] in nodes && nodes[ats[j] + 1] in nodes;
    }
  }

  lemma {:induction false} PlacesOfMerged(nodes: seq<Node>, at: nat, parent: Node, merged: seq<Node>)
    requires at + 1 < |nodes| && merged == nodes[..at] + [parent] + nodes[at + 2..]
    ensures PlacesOf(merged) == PlacesOf(nodes)[..at] + [parent.place] + PlacesOf(nodes)[at + 2..]
  {
    var v, w := PlacesOf(merged), PlacesOf(nodes)[..at] + [parent.place] + PlacesOf(nodes)[at + 2..];
    forall k | 0 <= k < |v| ensures v[k] == w[k] {
      assert v[k] == merged[k].place;
    }
  }

  lemma {:induction false} HeldPlaces(nodes: seq<Node>, held: map<Place, Node>)
    requires HeldNodes(nodes, held)
    ensures Held(PlacesOf(nodes), held)
  {
    forall p | p in PlacesOf(nodes) ensures p in held {
      var k :| 0 <= k < |nodes| && nodes[k].place == p;
      assert nodes[k] in nodes;
    }
  }

  lemma {:induction false} HeldMerged(nodes: seq<Node>, at: nat, parent: Node, merged: seq<Node>, held: map<Place,
                                      Node>)
    requires at + 1 < |nodes| && merged == nodes[..at] + [parent] + nodes[at + 2..]
    requires HeldNodes(nodes, held) && parent.place in held && held[parent.place] == parent
    ensures HeldNodes(merged, held)
  {
  }

  /** One merge of a batch. */
  lemma {:induction false} MergeStep(v: seq<Place>, w: seq<Place>, at: nat, total: nat, n: nat,
                                     held: map<Place, Node>, low: nat)
    requires Whole(w, total) && w == Batch(v, total, n) && MostDueAt(w, total, at)
    requires Held(MergeAt(w, at), held) && ViewBytes(w, held) > low && Merging(v, total, n, held, low)
    ensures MergeAt(w, at) == Batch(v, total, n + 1) && Whole(MergeAt(w, at), total)
    ensures Merging(v, total, n + 1, held, low)
  {
    MergeMostDueIs(w, total, at);
    MergeKeepsCover(w, 0, total, at);
  }

  /** A batch under way: `nodes` is the view `v` after `n` merges. */
  ghost predicate Batching(nodes: seq<Node>, v: seq<Place>, total: nat, n: nat, held: map<Place, Node>, low: nat)
  {
    HeldNodes(nodes, held) && Whole(PlacesOf(nodes), total) && PlacesOf(nodes) == Batch(v, total, n) &&
    Merging(v, total, n, held, low)
  }

  lemma {:induction false} BatchingStep(nodes: seq<Node>, merged: seq<Node>, at: nat, v: seq<Place>, total: nat, n: nat,
                                        held: map<Place, Node>, more: map<Place, Node>, low: nat)
    requires Batching(nodes, v, total, n, held, low) && MostDueAt(PlacesOf(nodes), total, at)
    requires ViewBytes(PlacesOf(nodes), held) > low && Extends(held, more)
    requires HeldNodes(merged, more) && PlacesOf(merged) == MergeAt(PlacesOf(nodes), at)
    ensures Batching(merged, v, total, n + 1, more, low)
  {
    MergingExtends(v, total, n, held, more, low);
    HeldPlaces(nodes, held);
    ViewBytesExtend(PlacesOf(nodes), held, more);
    HeldPlaces(merged, more);
    MergeStep(v, PlacesOf(nodes), at, total, n, more, low);
  }

  lemma {:induction false} BatchDone(nodes: seq<Node>, v: seq<Place>, total: nat, n: nat, held: map<Place, Node>,
                                     fitting: Fitting)
    requires Batching(nodes, v, total, n, held, fitting.low) && ViewBytes(v, held) > fitting.high
    requires ViewBytes(PlacesOf(nodes), held) <= fitting.low || NoPair(PlacesOf(nodes))
    ensures MergedDown(v, PlacesOf(nodes), total, held, fitting) && Held(PlacesOf(nodes), held)
  {
    HeldPlaces(nodes, held);
  }

  /** No held line is longer than a 64th of `low`. */
  ghost predicate LinesFit(held: map<Place, Node>, low: nat)
  {
    forall p :: p in held ==> WORD * LineBytes(p, held) <= low
  }

  /** After a batch over a tree whose lines all fit a 64th of the low size, the view fits it. */
  lemma {:induction false} BatchFits(grown: seq<Place>, view: seq<Place>, total: nat, held: map<Place, Node>,
                                     fitting: Fitting)
    requires Whole(view, total) && MergedDown(grown, view, total, held, fitting) && LinesFit(held, fitting.low)
    ensures ViewBytes(view, held) <= fitting.low
  {
    if NoPair(view) {
      var line := fitting.low / WORD;
      forall p | p in held ensures LineBytes(p, held) <= line {
      }
      NothingToMergeIsShort(view, total, held, line);
    }
  }

  lemma {:induction false} PlacesOfPush(nodes: seq<Node>, n: Node)
    ensures PlacesOf(nodes + [n]) == PlacesOf(nodes) + [n.place]
  {
  }

  function Messages(round: seq<Entry>, context: Text): (wanted: seq<Wanted>)
    ensures |wanted| == |round|
    ensures forall k :: 0 <= k < |round| ==> wanted[k] == Message(round[k], context)
    ensures forall w :: w in wanted ==> w.Message?
  {
    if round == [] then [] else [Message(round[0], context)] + Messages(round[1..], context)
  }

  // ---- What a growth asks of the tree ----

  /** A growth of the view `start`, which covers the first `covered` messages, to all of `entries`. */
  datatype Growing = Growing(entries: seq<Entry>, start: seq<Place>, covered: nat, fitting: Fitting)
  {
    ghost predicate Ordered() { covered <= |entries| && forall k :: 0 <= k < |entries| ==> entries[k].i == k }

    /** The messages from `from` on that one round writes. */
    ghost predicate InRound(round: seq<Entry>, from: nat)
    {
      StartsRound(from) && from + |round| <= |entries| && |round| <= fitting.calls &&
      round == entries[from..from + |round|]
    }

    /** Rounds begin where the view ended and are all of the size of a round, but for the last. */
    predicate StartsRound(at: nat) { covered <= at && fitting.calls > 0 && (at - covered) % fitting.calls == 0 }

    /** The view after the leaves of the messages up to `at`. */
    ghost function Leafed(at: nat): seq<Place>
      requires covered <= at
    {
      WithLeaves(start, covered, at)
    }

    /** The grown view after `n` merges. */
    ghost function Merged(n: nat): seq<Place>
      requires covered <= |entries|
    {
      Batch(Leafed(|entries|), |entries|, n)
    }
  }

  /** The lines of the nodes, one behind the other. */
  ghost function InOrder(nodes: seq<Node>): Text
    requires forall n :: n in nodes ==> n.place.l < WORD
  {
    if nodes == [] then "" else InOrder(nodes[..|nodes| - 1]) + Line(nodes[|nodes| - 1])
  }

  lemma {:induction false} LinesAppend(nodes: seq<Node>, n: Node)
    requires n.place.l < WORD && forall x :: x in nodes ==> x.place.l < WORD
    ensures Lines(nodes + [n]) == Lines(nodes) + Line(n)
  {
    if nodes == [] {
      assert nodes + [n] == [n] && [n][1..] == [];
    } else {
      assert (nodes + [n])[1..] == nodes[1..] + [n];
      LinesAppend(nodes[1..], n);
    }
  }

  lemma {:induction false} LinesInOrder(nodes: seq<Node>)
    requires forall n :: n in nodes ==> n.place.l < WORD
    ensures Lines(nodes) == InOrder(nodes)
  {
    if nodes != [] {
      var front, last := nodes[..|nodes| - 1], nodes[|nodes| - 1];
      LinesInOrder(front);
      LinesAppend(front, last);
      assert nodes == front + [last];
    }
  }

  /** The context is the lines of the places of `v`, in the chat's brackets. */
  ghost predicate Shows(context: Text, v: seq<Place>, held: map<Place, Node>)
  {
    exists nodes: seq<Node> ::
      PlacesOf(nodes) == v && HeldNodes(nodes, held) && (forall n :: n in nodes ==> n.place.l < WORD) &&
      context == "<chat>\n" + InOrder(nodes) + "</chat>\n"
  }

  /** A wish for a message's own line, shown the view as its round found it. */
  ghost predicate LeafWish(w: Wanted, g: Growing, held: map<Place, Node>)
  {
    w.Message? && w.entry.i < |g.entries| && w.entry == g.entries[w.entry.i] &&
    exists at: nat ::
      g.StartsRound(at) && at <= w.entry.i < at + g.fitting.calls && Shows(w.context, g.Leafed(at), held)
  }

  /** A wish for the parent of a pair of the view as far as merged, shown that view up to the end of the pair. */
  ghost predicate MergeWish(w: Wanted, g: Growing, held: map<Place, Node>)
  {
    w.Pair? && g.covered <= |g.entries| && exists n: nat, k: nat :: MergeWishAt(w, g, held, n, k)
  }

  ghost predicate MergeWishAt(w: Wanted, g: Growing, held: map<Place, Node>, n: nat, k: nat)
    requires g.covered <= |g.entries|
  {
    PairAt(g.Merged(n), k) && w.At() == ParentOf(g.Merged(n)[k]) && Shows(w.context, g.Merged(n)[..k + 2], held)
  }

  ghost predicate Wished(w: Wanted, g: Growing, held: map<Place, Node>) { LeafWish(w, g, held) || MergeWish(w, g, held) }

  /** What the tree gains in a growth: nothing held changes, and what is new was made as wished. */
  ghost predicate Gains(before: map<Place, Node>, after: map<Place, Node>, g: Growing)
  {
    Extends(before, after) && (Grounded(before) ==> Grounded(after)) && MadeAsWished(before, after, g)
  }

  lemma {:induction false} GainsThrough(a: map<Place, Node>, b: map<Place, Node>, c: map<Place, Node>, g: Growing)
    requires Gains(a, b, g) && Gains(b, c, g)
    ensures Gains(a, c, g) && (GotNoLine(b, c, g) ==> GotNoLine(a, c, g))
  {
    MadeThrough(a, b, c, g);
  }

  lemma {:induction false} GainsNothing(a: map<Place, Node>, g: Growing)
    ensures Gains(a, a, g)
  {
  }

  lemma {:induction false} HeldOn(nodes: seq<Node>, before: map<Place, Node>, after: map<Place, Node>, g: Growing)
    requires HeldNodes(nodes, before) && Gains(before, after, g)
    ensures HeldNodes(nodes, after)
  {
  }

  /** Every node that is new was made from the source of such a wish. */
  ghost predicate MadeAsWished(before: map<Place, Node>, after: map<Place, Node>, g: Growing)
  {
    forall p :: p in after && p !in before ==> exists w :: Wished(w, g, after) && w.At() == p && MadeFor(after, w, g.fitting)
  }

  /** The conversation about such a wish gave no line. */
  ghost predicate GotNoLine(before: map<Place, Node>, after: map<Place, Node>, g: Growing)
  {
    exists w :: Wished(w, g, after) && w.At() !in before && Ready(after, w) && NoLine(w, Source(after, w), g.fitting)
  }

  lemma {:induction false} ShowsMore(context: Text, v: seq<Place>, held: map<Place, Node>, more: map<Place, Node>)
    requires Shows(context, v, held) && Extends(held, more)
    ensures Shows(context, v, more)
  {
    var nodes: seq<Node> :| PlacesOf(nodes) == v && HeldNodes(nodes, held) && (forall n :: n in nodes ==> n.place.l < WORD) &&
      context == "<chat>\n" + InOrder(nodes) + "</chat>\n";
    assert HeldNodes(nodes, more);
  }

  lemma {:induction false} WishedMore(w: Wanted, g: Growing, held: map<Place, Node>, more: map<Place, Node>)
    requires Wished(w, g, held) && Extends(held, more)
    ensures Wished(w, g, more)
  {
    if LeafWish(w, g, held) {
      var at: nat :| g.StartsRound(at) && at <= w.entry.i < at + g.fitting.calls && Shows(w.context, g.Leafed(at), held);
      ShowsMore(w.context, g.Leafed(at), held, more);
    } else {
      var n: nat, k: nat :| MergeWishAt(w, g, held, n, k);
      ShowsMore(w.context, g.Merged(n)[..k + 2], held, more);
      assert MergeWishAt(w, g, more, n, k);
    }
  }

  lemma {:induction false} MadeThrough(a: map<Place, Node>, b: map<Place, Node>, c: map<Place, Node>, g: Growing)
    requires Extends(a, b) && Extends(b, c) && MadeAsWished(a, b, g) && MadeAsWished(b, c, g)
    ensures MadeAsWished(a, c, g) && (GotNoLine(b, c, g) ==> GotNoLine(a, c, g))
  {
    forall p | p in c && p !in a
      ensures exists w :: Wished(w, g, c) && w.At() == p && MadeFor(c, w, g.fitting)
    {
      if p in b {
        var w :| Wished(w, g, b) && w.At() == p && MadeFor(b, w, g.fitting);
        WishedMore(w, g, b, c);
        Extended(b, c, w, g.fitting);
      }
    }
  }

  lemma {:induction false} BuiltAsWished(before: map<Place, Node>, after: map<Place, Node>, wanted: seq<Wanted>,
                                         g: Growing)
    requires Extends(before, after) && OnlyWanted(before, after, wanted, g.fitting)
    requires forall w :: w in wanted ==> Wished(w, g, before)
    ensures MadeAsWished(before, after, g)
    ensures (exists w :: Unmade(before, after, wanted, w, g.fitting)) ==> GotNoLine(before, after, g)
  {
    forall w | w in wanted ensures Wished(w, g, after) {
      WishedMore(w, g, before, after);
    }
    assert forall w :: FirstFor(wanted, w) ==> w in wanted;
  }

  lemma {:induction false} RoundIds(round: seq<Entry>, from: nat, g: Growing)
    requires g.Ordered() && g.InRound(round, from)
    ensures forall k :: 0 <= k < |round| ==> round[k].i == from + k
  {
    assert forall k :: 0 <= k < |round| ==> round[k] == g.entries[from + k];
  }

  lemma {:induction false} IsRound(g: Growing, at: nat, end: nat)
    requires g.StartsRound(at) && at <= end <= |g.entries| && end <= at + g.fitting.calls
    ensures g.InRound(g.entries[at..end], at) && |g.entries[at..end]| == end - at
  {
  }

  lemma {:induction false} NextStarts(g: Growing, at: nat)
    requires g.StartsRound(at)
    ensures g.StartsRound(at + g.fitting.calls)
  {
    Rounds(at - g.covered, g.fitting.calls);
  }

  lemma {:induction false} Rounds(n: nat, size: nat)
    requires size > 0 && n % size == 0
    ensures (n + size) % size == 0
  {
    var k, q := n / size, (n + size) / size;
    assert (n + size) % size == size * (k + 1 - q);
    NoMultiple(size, k + 1 - q);
  }

  /** No multiple but zero is less than what it is a multiple of. */
  lemma {:induction false} NoMultiple(size: nat, k: int)
    requires 0 <= size * k < size
    ensures size * k == 0
  {
    if k > 0 { MulMonotone(1, k, size); }
  }

  lemma {:induction false} LeafIsWish(round: seq<Entry>, k: nat, context: Text, from: nat, g: Growing,
                                      held: map<Place, Node>)
    requires g.Ordered() && g.InRound(round, from) && k < |round| && Shows(context, g.Leafed(from), held)
    ensures Wished(Message(round[k], context), g, held)
  {
    assert round[k] == g.entries[from + k] && round[k].i == from + k;
    assert LeafWish(Message(round[k], context), g, held);
  }

  lemma {:induction false} LeafWishes(round: seq<Entry>, nodes: seq<Node>, from: nat, g: Growing, held: map<Place, Node>)
    requires g.Ordered() && g.InRound(round, from) && PlacesOf(nodes) == g.Leafed(from) && HeldNodes(nodes, held)
    requires forall n :: n in nodes ==> n.place.l < WORD
    ensures forall w :: w in Messages(round, Render(nodes)) ==> Wished(w, g, held)
  {
    var context := Render(nodes);
    LinesInOrder(nodes);
    assert Shows(context, g.Leafed(from), held);
    forall w | w in Messages(round, context) ensures Wished(w, g, held) {
      var k :| 0 <= k < |round| && Messages(round, context)[k] == w;
      LeafIsWish(round, k, context, from, g, held);
    }
  }

  lemma {:induction false} PairIsMergeWish(nodes: seq<Node>, at: nat, n: nat, g: Growing, held: map<Place, Node>)
    requires g.covered <= |g.entries| && PlacesOf(nodes) == g.Merged(n) && PairAt(PlacesOf(nodes), at)
    requires HeldNodes(nodes, held) && forall n :: n in nodes ==> n.place.l < WORD
    ensures Wished(PairWanted(nodes, at), g, held)
  {
    var w := PairWanted(nodes, at);
    var shown := nodes[..at + 2];
    assert PlacesOf(shown) == PlacesOf(nodes)[..at + 2];
    LinesInOrder(shown);
    assert HeldNodes(shown, held) && w.context == Render(shown);
    assert MergeWishAt(w, g, held, n, at);
  }

  lemma {:induction false} PairsAreWished(nodes: seq<Node>, wanted: seq<Wanted>, g: Growing, held: map<Place, Node>)
    requires g.covered <= |g.entries| && PlacesOf(nodes) == g.Leafed(|g.entries|) && AllWished(nodes, wanted)
    requires HeldNodes(nodes, held)
    ensures forall w :: w in wanted ==> Wished(w, g, held)
  {
    var ats := PairPlaces(PlacesOf(nodes), |nodes|);
    assert g.Merged(0) == g.Leafed(|g.entries|);
    forall w | w in wanted ensures Wished(w, g, held) {
      var j :| 0 <= j < |wanted| && wanted[j] == w;
      PairIsMergeWish(nodes, ats[j], 0, g, held);
    }
  }

  class View {
    var places: seq<Place>

    /** The places cover a beginning of the chat short enough to be counted. */
    ghost predicate Valid()
      reads this
    {
      Whole(places, Total(places))
    }

    constructor ()
      ensures Valid() && places == []
    {
      places := [];
    }

    /** The length of the part of the chat behind the view. */
    method Covered() returns (total: nat)
      requires Valid()
      ensures total == Total(places)
    {
      TotalOfCover(places, 0, Total(places));
      total := 0;
      for k := 0 to |places|
        invariant Cover(places[k..], total, Total(places))
      {
        WholePlace(places, Total(places), k);
        EndIsStartPlusCount(places[k]);
        assert places[k..][1..] == places[k + 1..];
        total := total + Count(places[k].l);
      }
    }

    /** Looks up the node of each place; the first place without one ends the search. */
    method Nodes(tree: Tree) returns (nodes: seq<Node>, missing: Option<Place>)
      requires tree.Valid()
      ensures missing.None? <==> Held(places, tree.nodes)
      ensures missing.None? ==> PlacesOf(nodes) == places && HeldNodes(nodes, tree.nodes)
      ensures missing.Some? ==> missing.value in places && missing.value !in tree.nodes
    {
      nodes := [];
      for k := 0 to |places|
        invariant |nodes| == k && Held(places[..k], tree.nodes) && HeldNodes(nodes, tree.nodes)
        invariant forall j :: 0 <= j < k ==> nodes[j].place == places[j]
      {
        if places[k] !in tree.nodes {
          return [], Some(places[k]);
        }
        nodes := nodes + [tree.nodes[places[k]]];
      }
      assert places[..|places|] == places;
      missing := None;
    }

    /** The view takes up the leaves of the messages it lacks; when it then passes the high size, one batch of
        merges brings it down to the low size.

        When every line fits a 64th of the low size, a success leaves a view that fits the high size. On
        every outcome the view still covers the chat without a gap and what the tree held is unchanged; what
        it gained are lines of messages and of pairs, for which the model saw the view of that moment.
        Without a batch the view only gained leaves; after a batch it is the grown view merged most due pair
        first, and by no merge more than it took to reach the low size. */
    method Grow(entries: seq<Entry>, tree: Tree, fitting: Fitting) returns (growth: Growth)
      requires Valid() && tree.Valid() && fitting.calls > 0 && |entries| < U64
      requires forall k :: 0 <= k < |entries| ==> entries[k].i == k
      modifies this, tree
      ensures Valid() && tree.Valid() && Extends(old(tree.nodes), tree.nodes)
      ensures old(Grounded(tree.nodes)) ==> Grounded(tree.nodes)
      ensures MadeAsWished(old(tree.nodes), tree.nodes, Growing(entries, old(places), old(Total(places)), fitting))
      ensures growth.BuildFailed? && tree.reliable ==>
                GotNoLine(old(tree.nodes), tree.nodes, Growing(entries, old(places), old(Total(places)), fitting))
      ensures growth.MissingNode? <==> !old(Held(places, tree.nodes))
      ensures growth.LogTooShort? <==> old(Held(places, tree.nodes)) && |entries| < old(Total(places))
      ensures growth.MissingNode? || growth.LogTooShort? ==> places == old(places)
      ensures growth.Grown? || growth.BuildFailed? ==> Held(places, tree.nodes)
      ensures growth.BuildFailed? ==>
                growth.outcome == Failed && old(Total(places)) <= Total(places) <= |entries| &&
                places == WithLeaves(old(places), old(Total(places)), Total(places))
      ensures growth == Grown(false) ==>
                old(Total(places)) <= |entries| &&
                places == WithLeaves(old(places), old(Total(places)), |entries|) &&
                ViewBytes(places, tree.nodes) <= fitting.high
      ensures growth.Grown? && fitting.low <= fitting.high && LinesFit(tree.nodes, fitting.low) ==>
                ViewBytes(places, tree.nodes) <= fitting.high
      ensures growth == Grown(true) ==>
                old(Total(places)) <= |entries| == Total(places) &&
                MergedDown(WithLeaves(old(places), old(Total(places)), |entries|), places, |entries|, tree.nodes, fitting)
    {
      var nodes, missing := Nodes(tree);
      if missing.Some? {
        return MissingNode(missing.value);
      }
      var covered := Covered();
      if covered > |entries| {
        return LogTooShort;
      }
      TotalOfCover(places, 0, Total(places));
      ghost var g := Growing(entries, places, covered, fitting);
      var outcome: Outcome;
      ghost var upto: nat;
      nodes, outcome, upto := AppendLeaves(entries, covered, tree, fitting, nodes, g);
      ghost var leafed := tree.nodes;
      ViewFacts(nodes, places, upto, tree.nodes);
      if outcome != Built {
        return BuildFailed(outcome);
      }
      if Bytes(nodes) <= fitting.high {
        return Grown(false);
      }
      ghost var grown := places;
      growth := Merge(tree, fitting, nodes, |entries|, g);
      MadeThrough(old(tree.nodes), leafed, tree.nodes, g);
      TotalOfCover(places, 0, |entries|);
      if growth == Grown(true) && LinesFit(tree.nodes, fitting.low) {
        BatchFits(grown, places, |entries|, tree.nodes, fitting);
      }
    }

    /** The leaves of one round, just built, join the view. */
    method PushLeaves(round: seq<Entry>, tree: Tree, from: nat, before: seq<Node>) returns (nodes: seq<Node>)
      requires tree.Valid() && PlacesOf(before) == places && HeldNodes(before, tree.nodes)
      requires forall k :: 0 <= k < |round| ==> round[k].i == from + k && Place(MESSAGE_LEVEL, round[k].i) in tree.nodes
      modifies this
      ensures places == WithLeaves(old(places), from, from + |round|)
      ensures PlacesOf(nodes) == places && HeldNodes(nodes, tree.nodes)
    {
      nodes := before;
      for k := 0 to |round|
        invariant places == WithLeaves(old(places), from, from + k)
        invariant PlacesOf(nodes) == places && HeldNodes(nodes, tree.nodes)
      {
        var leaf := tree.nodes[Place(MESSAGE_LEVEL, round[k].i)];
        PlacesOfPush(nodes, leaf);
        places := places + [leaf.place];
        nodes := nodes + [leaf];
      }
    }

    /** The lines of one round of new messages. */
    method BuildLeaves(round: seq<Entry>, tree: Tree, fitting: Fitting, nodes: seq<Node>, from: nat, ghost g: Growing)
      returns (outcome: Outcome)
      requires g.fitting == fitting && g.Ordered() && g.InRound(round, from) && |g.entries| < U64
      requires Cover(g.start, 0, g.covered) && PlacesOf(nodes) == g.Leafed(from) && HeldNodes(nodes, tree.nodes)
      requires tree.Valid() && fitting.calls > 0
      modifies tree
      ensures tree.Valid() && Gains(old(tree.nodes), tree.nodes, g)
      ensures outcome == Failed && tree.reliable ==> GotNoLine(old(tree.nodes), tree.nodes, g)
      ensures outcome == Failed || outcome == Built
      ensures outcome == Built ==> forall k :: 0 <= k < |round| ==> Place(MESSAGE_LEVEL, round[k].i) in tree.nodes
    {
      LeavesCover(g.start, g.covered, from);
      ViewFacts(nodes, g.Leafed(from), from, tree.nodes);
      var wanted := Messages(round, Render(nodes));
      LeafWishes(round, nodes, from, g, tree.nodes);
      outcome := tree.BuildReady(wanted, fitting);
      BuiltAsWished(old(tree.nodes), tree.nodes, wanted, g);
      if outcome.Built? {
        forall k | 0 <= k < |round| ensures Place(MESSAGE_LEVEL, round[k].i) in tree.nodes {
          assert wanted[k] in wanted && wanted[k].At() == Place(MESSAGE_LEVEL, round[k].i);
        }
      }
    }

    /** One round of new messages: their lines are built, then all of them join the view. */
    method AppendRound(round: seq<Entry>, tree: Tree, fitting: Fitting, before: seq<Node>, from: nat, ghost g: Growing)
      returns (nodes: seq<Node>, outcome: Outcome)
      requires g.fitting == fitting && g.Ordered() && g.InRound(round, from) && |g.entries| < U64
      requires places == g.Leafed(from) && Cover(g.start, 0, g.covered) && tree.Valid() && fitting.calls > 0
      requires PlacesOf(before) == places && HeldNodes(before, tree.nodes)
      modifies this, tree
      ensures tree.Valid() && Gains(old(tree.nodes), tree.nodes, g)
      ensures outcome == Failed && tree.reliable ==> GotNoLine(old(tree.nodes), tree.nodes, g)
      ensures outcome == Failed || outcome == Built
      ensures places == g.Leafed(if outcome == Built then from + |round| else from)
      ensures PlacesOf(nodes) == places && HeldNodes(nodes, tree.nodes)
    {
      nodes := before;
      outcome := BuildLeaves(round, tree, fitting, nodes, from, g);
      HeldOn(nodes, old(tree.nodes), tree.nodes, g);
      if outcome.Built? {
        RoundIds(round, from, g);
        nodes := PushLeaves(round, tree, from, nodes);
        LeavesJoin(g.start, g.covered, from, from + |round|);
      }
    }

    /** The round of the messages from `at` on. */
    method NextRound(entries: seq<Entry>, at: nat, tree: Tree, fitting: Fitting, before: seq<Node>, ghost g: Growing)
      returns (nodes: seq<Node>, outcome: Outcome, next: nat)
      requires g.fitting == fitting && g.entries == entries && g.Ordered() && g.StartsRound(at) && at < |entries| < U64
      requires places == g.Leafed(at) && Cover(g.start, 0, g.covered) && tree.Valid() && fitting.calls > 0
      requires PlacesOf(before) == places && HeldNodes(before, tree.nodes)
      modifies this, tree
      ensures tree.Valid() && Gains(old(tree.nodes), tree.nodes, g)
      ensures outcome == Failed && tree.reliable ==> GotNoLine(old(tree.nodes), tree.nodes, g)
      ensures outcome == Failed || outcome == Built
      ensures if outcome == Built then at < next <= |entries| else next == at
      ensures next < |entries| ==> g.StartsRound(next)
      ensures places == g.Leafed(next) && PlacesOf(nodes) == places && HeldNodes(nodes, tree.nodes)
    {
      var end := if fitting.calls < |entries| - at then at + fitting.calls else |entries|;
      IsRound(g, at, end);
      NextStarts(g, at);
      nodes, outcome := AppendRound(entries[at..end], tree, fitting, before, at, g);
      next := if outcome == Built then end else at;
    }

    /** The rounds of new messages. */
    method AppendLeaves(entries: seq<Entry>, covered: nat, tree: Tree, fitting: Fitting, before: seq<Node>,
                        ghost g: Growing)
      returns (nodes: seq<Node>, outcome: Outcome, ghost upto: nat)
      requires g == Growing(entries, places, covered, fitting) && g.Ordered() && |entries| < U64
      requires Cover(places, 0, covered) && PlacesOf(before) == places && HeldNodes(before, tree.nodes)
      requires tree.Valid() && fitting.calls > 0
      modifies this, tree
      ensures tree.Valid() && Gains(old(tree.nodes), tree.nodes, g)
      ensures outcome == Failed && tree.reliable ==> GotNoLine(old(tree.nodes), tree.nodes, g)
      ensures covered <= upto <= |entries| && places == g.Leafed(upto) && Whole(places, upto)
      ensures PlacesOf(nodes) == places && HeldNodes(nodes, tree.nodes)
      ensures outcome == Failed || (outcome == Built && upto == |entries|)
    {
      nodes := before;
      outcome := Built;
      var at := covered;
      GainsNothing(tree.nodes, g);
      while at < |entries|
        invariant covered <= at <= |entries| && places == g.Leafed(at) && outcome == Built
        invariant at < |entries| ==> g.StartsRound(at)
        invariant tree.Valid() && Gains(old(tree.nodes), tree.nodes, g)
        invariant PlacesOf(nodes) == places && HeldNodes(nodes, tree.nodes)
      {
        ghost var held := tree.nodes;
        nodes, outcome, at := NextRound(entries, at, tree, fitting, nodes, g);
        GainsThrough(old(tree.nodes), held, tree.nodes, g);
        if outcome != Built {
          LeavesCover(g.start, covered, at);
          return nodes, outcome, at;
        }
      }
      LeavesCover(g.start, covered, at);
      upto := at;
    }

    /** The pair at `at` gives way to its parent. */
    method MergeOne(tree: Tree, fitting: Fitting, nodes: seq<Node>, total: nat, at: nat, ghost g: Growing, ghost n: nat)
      returns (outcome: Outcome, merged: seq<Node>)
      requires Whole(PlacesOf(nodes), total) && PairAt(PlacesOf(nodes), at)
      requires g.fitting == fitting && g.covered <= |g.entries| && PlacesOf(nodes) == g.Merged(n)
      requires tree.Valid() && fitting.calls > 0 && HeldNodes(nodes, tree.nodes)
      modifies tree
      ensures tree.Valid() && Extends(old(tree.nodes), tree.nodes)
      ensures old(Grounded(tree.nodes)) ==> Grounded(tree.nodes)
      ensures MadeAsWished(old(tree.nodes), tree.nodes, g)
      ensures outcome == Failed && tree.reliable ==> GotNoLine(old(tree.nodes), tree.nodes, g)
      ensures outcome == Built || outcome == Failed
      ensures HeldNodes(nodes, tree.nodes) && HeldNodes(merged, tree.nodes)
      ensures outcome == Built ==> PlacesOf(merged) == MergeAt(PlacesOf(nodes), at)
    {
      ViewFacts(nodes, PlacesOf(nodes), total, tree.nodes);
      WholeParent(PlacesOf(nodes), total, at);
      MergeableIsPair(PlacesOf(nodes), total, at);
      var parent := ParentOf(nodes[at].place);
      var context := Render(ShownUpto(nodes, Last(parent.l, parent.i)));
      assert nodes[at] in nodes && nodes[at + 1] in nodes;
      MergeIsShownItsPast(nodes, total, at);
      PairIsMergeWish(nodes, at, n, g, tree.nodes);
      ghost var wish := PairWanted(nodes, at);
      var node: Option<Node>;
      outcome, node := tree.Parent(parent.l, parent.i, context, fitting);
      WishedMore(wish, g, old(tree.nodes), tree.nodes);
      assert wish == Pair(parent.l, parent.i, context);
      if !outcome.Built? {
        return outcome, nodes;
      }
      merged := nodes[..at] + [node.value] + nodes[at + 2..];
      HeldMerged(nodes, at, node.value, merged, tree.nodes);
      PlacesOfMerged(nodes, at, node.value, merged);
    }

    /** One batch, from a view past the high size. */
    method Merge(tree: Tree, fitting: Fitting, before: seq<Node>, total: nat, ghost g: Growing) returns (growth: Growth)
      requires Whole(places, total) && tree.Valid() && fitting.calls > 0
      requires PlacesOf(before) == places && HeldNodes(before, tree.nodes)
      requires ViewBytes(places, tree.nodes) > fitting.high
      requires g.fitting == fitting && g.covered <= |g.entries| == total && places == g.Leafed(total)
      modifies this, tree
      ensures tree.Valid() && Extends(old(tree.nodes), tree.nodes)
      ensures old(Grounded(tree.nodes)) ==> Grounded(tree.nodes)
      ensures MadeAsWished(old(tree.nodes), tree.nodes, g)
      ensures growth.BuildFailed? && tree.reliable ==> GotNoLine(old(tree.nodes), tree.nodes, g)
      ensures Whole(places, total) && Held(places, tree.nodes)
      ensures growth.BuildFailed? ==> places == old(places)
      ensures growth == BuildFailed(Failed) || growth == Grown(true)
      ensures growth == Grown(true) ==> MergedDown(old(places), places, total, tree.nodes, fitting)
    {
      ViewFacts(before, places, total, tree.nodes);
      var wanted := Pairs(before, total);
      PairsAreReady(before, total, wanted, PairPlaces(PlacesOf(before), |before|), tree.nodes);
      PairsAreWished(before, wanted, g, tree.nodes);
      var outcome := tree.BuildReady(wanted, fitting);
      BuiltAsWished(old(tree.nodes), tree.nodes, wanted, g);
      ViewBytesExtend(places, old(tree.nodes), tree.nodes);
      if !outcome.Built? {
        return BuildFailed(outcome);
      }
      ghost var built := tree.nodes;
      var nodes: seq<Node>;
      ghost var merges: nat;
      outcome, nodes, merges := MergeLoop(tree, fitting, before, total, places, g);
      MadeThrough(old(tree.nodes), built, tree.nodes, g);
      ViewBytesExtend(places, old(tree.nodes), tree.nodes);
      if !outcome.Built? {
        return BuildFailed(outcome);
      }
      BatchDone(nodes, places, total, merges, tree.nodes, fitting);
      places := PlacesOf(nodes);
      growth := Grown(true);
    }

    /** The most due pair, when there is one, gives way to its parent. */
    method MergeDue(tree: Tree, fitting: Fitting, nodes: seq<Node>, total: nat, ghost v: seq<Place>, ghost n: nat,
                    ghost g: Growing)
      returns (outcome: Outcome, merged: Option<seq<Node>>)
      requires g.fitting == fitting && g.covered <= |g.entries| == total && v == g.Leafed(total)
      requires tree.Valid() && fitting.calls > 0 && Batching(nodes, v, total, n, tree.nodes, fitting.low)
      requires ViewBytes(PlacesOf(nodes), tree.nodes) > fitting.low
      modifies tree
      ensures tree.Valid() && Extends(old(tree.nodes), tree.nodes)
      ensures old(Grounded(tree.nodes)) ==> Grounded(tree.nodes)
      ensures MadeAsWished(old(tree.nodes), tree.nodes, g)
      ensures outcome == Failed && tree.reliable ==> GotNoLine(old(tree.nodes), tree.nodes, g)
      ensures outcome == Built || outcome == Failed
      ensures outcome == Built && merged.None? ==> NoPair(PlacesOf(nodes)) && tree.nodes == old(tree.nodes)
      ensures outcome == Built && merged.Some? ==>
                Batching(merged.value, v, total, n + 1, tree.nodes, fitting.low) && |merged.value| < |nodes|
    {
      var due := MostDue(nodes, total);
      if due.None? {
        return Built, None;
      }
      var next: seq<Node>;
      outcome, next := MergeOne(tree, fitting, nodes, total, due.value, g, n);
      merged := Some(next);
      if outcome.Built? {
        BatchingStep(nodes, next, due.value, v, total, n, old(tree.nodes), tree.nodes, fitting.low);
      }
    }

    /** Most due pairs are merged until the view fits the low size or no pair is left. */
    method MergeLoop(tree: Tree, fitting: Fitting, before: seq<Node>, total: nat, ghost v: seq<Place>, ghost g: Growing)
      returns (outcome: Outcome, nodes: seq<Node>, ghost merges: nat)
      requires g.fitting == fitting && g.covered <= |g.entries| == total && v == g.Leafed(total)
      requires tree.Valid() && fitting.calls > 0 && Batching(before, v, total, 0, tree.nodes, fitting.low)
      modifies tree
      ensures tree.Valid() && Extends(old(tree.nodes), tree.nodes)
      ensures old(Grounded(tree.nodes)) ==> Grounded(tree.nodes)
      ensures MadeAsWished(old(tree.nodes), tree.nodes, g)
      ensures outcome == Failed && tree.reliable ==> GotNoLine(old(tree.nodes), tree.nodes, g)
      ensures outcome == Built || outcome == Failed
      ensures outcome == Built ==> Batching(nodes, v, total, merges, tree.nodes, fitting.low)
      ensures outcome == Built ==>
                ViewBytes(PlacesOf(nodes), tree.nodes) <= fitting.low || NoPair(PlacesOf(nodes))
    {
      outcome, nodes, merges := Built, before, 0;
      ViewFacts(nodes, PlacesOf(nodes), total, tree.nodes);
      while Bytes(nodes) > fitting.low
        invariant tree.Valid() && Extends(old(tree.nodes), tree.nodes) && outcome == Built
        invariant old(Grounded(tree.nodes)) ==> Grounded(tree.nodes)
        invariant MadeAsWished(old(tree.nodes), tree.nodes, g)
        invariant Batching(nodes, v, total, merges, tree.nodes, fitting.low)
        invariant forall n :: n in nodes ==> n.place.l < WORD
        decreases |nodes|
      {
        ViewFacts(nodes, PlacesOf(nodes), total, tree.nodes);
        var merged: Option<seq<Node>>;
        ghost var held := tree.nodes;
        outcome, merged := MergeDue(tree, fitting, nodes, total, v, merges, g);
        MadeThrough(old(tree.nodes), held, tree.nodes, g);
        if outcome != Built || merged.None? {
          return;
        }
        ViewFacts(merged.value, PlacesOf(merged.value), total, tree.nodes);
        nodes, merges := merged.value, merges + 1;
      }
      ViewFacts(nodes, PlacesOf(nodes), total, tree.nodes);
    }
  }
}
