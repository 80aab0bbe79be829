/** What a reader of a node's line can tell from it: the place of the node, and for short messages their
    texts. */
module ChatLines {
  import opened Dyadic
  import opened ChatTree
  import opened Numerals

  // ---- The place ----

  lemma {:induction false} DecimalReads(n: nat)
    ensures Digits(Decimal(n)) && Value(Decimal(n)) == n
  {
    if n >= 10 {
      DecimalReads(n / 10);
      ValueMore(Decimal(n / 10), n % 10, Decimal(n)[|Decimal(n)| - 1]);
    } else {
      ValueMore("", n, Decimal(n)[0]);
    }
  }

  /** The line gives two numbers and what it shows of the text. */
  ghost predicate Gives(line: Text, first: int, count: int, shown: Text)
  {
    exists a, b ::
      Digits(a) && Digits(b) && Value(a) == first && Value(b) == count &&
      line == a + ("+" + (b + ("|" + (shown + "\n"))))
  }

  /** The text of a node shown on one line. */
  ghost predicate ShownAs(text: Text, shown: Text)
  {
    |shown| == |text| && '\n' !in shown &&
    forall k :: 0 <= k < |text| ==> shown[k] == text[k] || (text[k] == '\n' && shown[k] == ' ')
  }

  /** A line gives the first message of its node, how many there are, and the text on one line. */
  lemma {:induction false} LineGives(node: Node)
    requires node.place.l < WORD && End(node.place) < U64
    ensures Gives(Line(node), Start(node.place), End(node.place) - Start(node.place), OneLine(node.text))
  {
    var p := node.place;
    WordExact(p);
    EndIsStartPlusCount(p);
    DecimalReads(Start(p));
    DecimalReads(Pow2(p.l));
    var a, b := Decimal(Start(p)), Decimal(Pow2(p.l));
    assert Line(node) == a + ("+" + (b + ("|" + (OneLine(node.text) + "\n"))));
  }

  lemma {:induction false} OneLineShows(text: Text)
    ensures ShownAs(text, OneLine(text))
  {
  }

  lemma {:induction false} FrontUnique(a: Text, b: Text, mark: char, x: Text, y: Text)
    requires mark !in a && mark !in b && a + ([mark] + x) == b + ([mark] + y)
    ensures a == b && x == y
  {
    var s, t := a + ([mark] + x), b + ([mark] + y);
    assert s[|a|] == mark && t[|b|] == mark;
    assert forall k :: 0 <= k < |a| ==> s[k] == a[k] && a[k] in a;
    assert forall k :: 0 <= k < |b| ==> t[k] == b[k] && b[k] in b;
    assert a == s[..|a|] && b == t[..|b|] && x == s[|a| + 1..] && y == t[|b| + 1..];
  }

  lemma {:induction false} GivesUnique(line: Text, first: int, count: int, shown: Text, first': int, count': int,
                                       shown': Text)
    requires Gives(line, first, count, shown) && Gives(line, first', count', shown')
    ensures first == first' && count == count' && shown == shown'
  {
    var a, b :| Digits(a) && Digits(b) && Value(a) == first && Value(b) == count &&
      line == a + ("+" + (b + ("|" + (shown + "\n"))));
    var c, d :| Digits(c) && Digits(d) && Value(c) == first' && Value(d) == count' &&
      line == c + ("+" + (d + ("|" + (shown' + "\n"))));
    FrontUnique(a, c, '+', b + ("|" + (shown + "\n")), d + ("|" + (shown' + "\n")));
    FrontUnique(b, d, '|', shown + "\n", shown' + "\n");
    assert shown == (shown + "\n")[..|shown|] && shown' == (shown' + "\n")[..|shown'|];
  }

  lemma {:induction false} Pow2Injective(a: nat, b: nat)
    requires Pow2(a) == Pow2(b)
    ensures a == b
  {
    if a < b {
      Pow2Monotone(a + 1, b);
    } else if b < a {
      Pow2Monotone(b + 1, a);
    }
  }

  /** No two places give the same line. */
  lemma {:induction false} LineTellsPlace(m: Node, n: Node)
    requires m.place.l < WORD && End(m.place) < U64 && n.place.l < WORD && End(n.place) < U64
    requires Line(m) == Line(n)
    ensures m.place == n.place && OneLine(m.text) == OneLine(n.text)
  {
    LineGives(m);
    LineGives(n);
    GivesUnique(Line(m), Start(m.place), End(m.place) - Start(m.place), OneLine(m.text),
                Start(n.place), End(n.place) - Start(n.place), OneLine(n.text));
    EndIsStartPlusCount(m.place);
    EndIsStartPlusCount(n.place);
    Pow2Injective(m.place.l, n.place.l);
    Cancel(m.place.i, n.place.i, m.place.l);
  }

  // ---- The texts ----

  /** The texts on lines of their own, in order. */
  function Joined(texts: seq<Text>): Text
    requires texts != []
  {
    if |texts| == 1 then texts[0] else texts[0] + ("\n" + Joined(texts[1..]))
  }

  lemma {:induction false} JoinedConcat(a: seq<Text>, b: seq<Text>)
    requires a != [] && b != []
    ensures Joined(a + b) == Joined(a) + ("\n" + Joined(b))
    decreases |a|
  {
    if |a| == 1 {
      assert (a + b)[1..] == b;
    } else {
      assert (a + b)[1..] == a[1..] + b;
      JoinedConcat(a[1..], b);
    }
  }

  function Labels(entries: seq<Entry>): seq<Text>
  {
    seq(|entries|, k requires 0 <= k < |entries| => entries[k].labelled)
  }

  /** The node was made from a source that fits. */
  ghost predicate Fits(nodes: map<Place, Node>, entries: seq<Entry>, fitting: Fitting, p: Place)
  {
    exists w: Wanted ::
      w.At() == p && MadeFor(nodes, w, fitting) && |Source(nodes, w)| <= fitting.summaryBytes &&
      (w.Message? ==> p.i < |entries| && w.entry == entries[p.i])
  }

  /** Every node was. */
  ghost predicate WordForWord(nodes: map<Place, Node>, entries: seq<Entry>, fitting: Fitting)
  {
    forall p {:trigger Fits(nodes, entries, fitting, p)} ::
      p in nodes && End(p) <= |entries| ==> Fits(nodes, entries, fitting, p)
  }

  lemma {:induction false} HalvesOf(p: Place)
    requires 0 < p.l < WORD && End(p) < U64
    ensures var a, b := Place(p.l - 1, 2 * p.i), Place(p.l - 1, 2 * p.i + 1);
            Halves(p.l, p.i) == Some((a, b)) && Start(a) == Start(p) && End(a) == Start(b) && End(b) == End(p) &&
            Start(a) < End(a) && Start(b) < End(b)
  {
    var a, b := Place(p.l - 1, 2 * p.i), Place(p.l - 1, 2 * p.i + 1);
    SiblingsMakeParent(a, b);
    assert ParentOf(a) == p;
    EndIsStartPlusCount(a);
    EndIsStartPlusCount(b);
    Pow2Monotone(0, p.l - 1);
    assert Pow2(0) == 1;
    WordExact(Place(0, End(p) - 1));
    HalvesIffSiblings(a, b);
  }

  lemma {:induction false} LeafText(nodes: map<Place, Node>, entries: seq<Entry>, fitting: Fitting, p: Place)
    requires WordForWord(nodes, entries, fitting) && p in nodes && End(p) <= |entries| && p.l == 0
    ensures p.i < |entries| && nodes[p].text == entries[p.i].labelled
  {
    LeafSpan(p);
    assert Fits(nodes, entries, fitting, p);
    var w: Wanted :| w.At() == p && MadeFor(nodes, w, fitting) && |Source(nodes, w)| <= fitting.summaryBytes &&
      (w.Message? ==> p.i < |entries| && w.entry == entries[p.i]);
    assert Halves(0, p.i) == None;
  }

  lemma {:induction false} PairText(nodes: map<Place, Node>, entries: seq<Entry>, fitting: Fitting, p: Place)
    requires WordForWord(nodes, entries, fitting) && p in nodes && End(p) <= |entries| < U64 && 0 < p.l < WORD
    ensures var a, b := Place(p.l - 1, 2 * p.i), Place(p.l - 1, 2 * p.i + 1);
            a in nodes && b in nodes && nodes[p].text == nodes[a].text + ("\n" + nodes[b].text)
  {
    HalvesOf(p);
    assert Fits(nodes, entries, fitting, p);
    var w: Wanted :| w.At() == p && MadeFor(nodes, w, fitting) && |Source(nodes, w)| <= fitting.summaryBytes;
    var a, b := Place(p.l - 1, 2 * p.i), Place(p.l - 1, 2 * p.i + 1);
    assert nodes[a].text + "\n" + nodes[b].text == nodes[a].text + ("\n" + nodes[b].text);
  }

  lemma {:induction false} LabelsOf(entries: seq<Entry>, a: nat, b: nat, c: nat)
    requires a <= b <= c <= |entries|
    ensures Labels(entries[a..c]) == Labels(entries[a..b]) + Labels(entries[b..c])
  {
    assert entries[a..c] == entries[a..b] + entries[b..c];
  }

  /** Where everything fits, a node's text is the texts of its messages, in order. */
  lemma {:induction false} TextsInOrder(nodes: map<Place, Node>, entries: seq<Entry>, fitting: Fitting, p: Place)
    requires WordForWord(nodes, entries, fitting) && p in nodes && End(p) <= |entries| < U64 && p.l < WORD
    ensures Start(p) < End(p) && nodes[p].text == Joined(Labels(entries[Start(p)..End(p)]))
    decreases p.l
  {
    if p.l == 0 {
      LeafSpan(p);
      LeafText(nodes, entries, fitting, p);
    } else {
      HalvesOf(p);
      var a, b := Place(p.l - 1, 2 * p.i), Place(p.l - 1, 2 * p.i + 1);
      PairText(nodes, entries, fitting, p);
      TextsInOrder(nodes, entries, fitting, a);
      TextsInOrder(nodes, entries, fitting, b);
      LabelsOf(entries, Start(p), Start(b), End(p));
      JoinedConcat(Labels(entries[Start(a)..End(a)]), Labels(entries[Start(b)..End(b)]));
    }
  }

  lemma {:induction false} LeafSpan(p: Place)
    requires p.l == 0
    ensures Start(p) == p.i && End(p) == p.i + 1
  {
  }
}
