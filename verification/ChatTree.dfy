/** A chat's summary tree: the arithmetic of its places, the lines of its nodes, and building, round by
    round. The summary model is any function of a conversation; whether a write fails is open. */
module ChatTree {
  import opened Dyadic

  /** UTF-8 text, one `char` standing for one byte. */
  type Text = string

  datatype Option<T> = None | Some(value: T)

  /** A chat message, numbered, with its labelled text. */
  datatype Entry = Entry(i: nat, labelled: Text)

  datatype Node = Node(place: Place, text: Text)

  datatype Fitting = Fitting(summaryBytes: nat, attempts: nat, calls: nat, high: nat, low: nat, summarize: Model)

  datatype Wanted = Message(entry: Entry, context: Text) | Pair(l: nat, i: nat, context: Text)
  {
    function At(): Place {
      match this
      case Message(entry, _) => Place(MESSAGE_LEVEL, entry.i)
      case Pair(l, i, _) => Place(l, i)
    }
  }

  datatype Outcome = Built | NotReady(place: Place) | Failed

  const MESSAGE_LEVEL: nat := 0
  const WORD: nat := 64

  // ---- Machine arithmetic of a node ----

  /** The shifts of the program, on 64-bit words. */
  function Count(l: nat): nat
    requires l < WORD
  {
    ShiftLeft(1, l, U64)
  }

  function First(l: nat, i: nat): nat
    requires l < WORD
  {
    ShiftLeft(i, l, U64)
  }

  function Last(l: nat, i: nat): int
    requires l < WORD
  {
    First(l, i) + Count(l) - 1
  }

  function Halves(l: nat, i: nat): Option<(Place, Place)>
  {
    if l == 0 then None
    else
      var left := ShiftLeft(i, 1, U64);
      Some((Place(l - 1, left), Place(l - 1, left + 1)))
  }

  /** For a place that ends inside a word the shifts are exact. */
  lemma {:induction false} WordExact(p: Place)
    requires p.l < WORD && End(p) < U64
    ensures First(p.l, p.i) == Start(p) && Count(p.l) == Pow2(p.l) && Last(p.l, p.i) + 1 == End(p)
    ensures p.i < U64
  {
    EndIsStartPlusCount(p);
  }

  /** Two nodes are siblings exactly when they come back as the halves of the first one's parent, which is
      how the program tests it. */
  lemma {:induction false} HalvesIffSiblings(a: Place, b: Place)
    requires a.i < U64
    ensures Halves(ParentOf(a).l, ParentOf(a).i) == Some((a, b)) <==> Siblings(a, b)
  {
    var h := a.i / 2;
    assert Scale(h, 1) == 2 * Scale(h, 0) == a.i - a.i % 2;
  }

  // ---- Lines ----

  function Decimal(n: nat): (s: Text)
    ensures s != ""
  {
    if n < 10 then [Digit(n)] else Decimal(n / 10) + [Digit(n % 10)]
  }

  function Digit(d: nat): char
    requires d < 10
  {
    '0' + d as char
  }

  function Name(p: Place): Text
    requires p.l < WORD
  {
    Decimal(First(p.l, p.i)) + "+" + Decimal(Count(p.l))
  }

  function OneLine(text: Text): (s: Text)
    ensures |s| == |text|
  {
    seq(|text|, k requires 0 <= k < |text| => if text[k] == '\n' then ' ' else text[k])
  }

  function Line(node: Node): Text
    requires node.place.l < WORD
  {
    Name(node.place) + "|" + OneLine(node.text) + "\n"
  }

  function Pow10(d: nat): nat { if d == 0 then 1 else 10 * Pow10(d - 1) }

  lemma {:induction false} DecimalLength(n: nat, d: nat)
    requires 1 <= d && n < Pow10(d)
    ensures |Decimal(n)| <= d
  {
    if n >= 10 {
      assert d > 1 by { assert Pow10(1) == 10 * Pow10(0); }
      DecimalLength(n / 10, d - 1);
    }
  }

  const HEAD_BYTES: nat := 43

  /** A line takes at most 43 bytes more than its text: two numbers of a 64-bit word in decimal,
      `+`, `|` and the newline. */
  lemma {:induction false} LineLength(node: Node)
    requires node.place.l < WORD
    ensures |Line(node)| <= |node.text| + HEAD_BYTES
  {
    TwentyDigits();
    DecimalLength(First(node.place.l, node.place.i), 20);
    DecimalLength(Count(node.place.l), 20);
  }

  lemma {:induction false} TwentyDigits()
    ensures U64 < Pow10(20)
  {
    assert Pow10(5) == 100_000;
    assert Pow10(10) == 10_000_000_000;
    assert Pow10(15) == 1_000_000_000_000_000;
  }

  // ---- Building ----

  /** Whether both halves of node `p` are built. */
  predicate HalvesHeld(nodes: map<Place, Node>, p: Place)
  {
    match Halves(p.l, p.i)
    case None => false
    case Some(halves) => halves.0 in nodes && halves.1 in nodes
  }

  predicate Ready(nodes: map<Place, Node>, want: Wanted)
  {
    want.Message? || HalvesHeld(nodes, want.At())
  }

  /** The text to be summarized for a wish: a message's own, or both halves' on two lines. */
  function Source(nodes: map<Place, Node>, want: Wanted): Text
    requires Ready(nodes, want)
  {
    match want
    case Message(entry, _) => entry.labelled
    case Pair(l, i, _) =>
      var halves := Halves(l, i).value;
      nodes[halves.0].text + "\n" + nodes[halves.1].text
  }

  /** The conversation about a source that does not fit. */
  function About(want: Wanted, source: Text, fitting: Fitting): Talk
  {
    Talk(fitting.summarize, Task(want, source, fitting.summaryBytes), fitting.summaryBytes)
  }

  /** The line of a source is the source itself when that fits, else the shortest line the model gave in the
      conversation about it. */
  ghost predicate IsLine(want: Wanted, source: Text, line: Text, fitting: Fitting)
  {
    if |source| <= fitting.summaryBytes then line == source
    else
      var talk := About(want, source, fitting);
      Shortest(talk, Calls(talk, fitting.attempts, 0), line)
  }

  /** The conversation about the source gives no line: nothing may be asked, or the last call failed. */
  ghost predicate NoLine(want: Wanted, source: Text, fitting: Fitting)
  {
    |source| > fitting.summaryBytes &&
    var talk := About(want, source, fitting);
    var n := Calls(talk, fitting.attempts, 0);
    n == 0 || Fails(talk.Reply(n - 1))
  }

  lemma {:induction false} NoLineIsNone(want: Wanted, source: Text, line: Text, fitting: Fitting)
    requires NoLine(want, source, fitting)
    ensures !IsLine(want, source, line, fitting)
  {
  }

  /** The node `want` names is held and was made from its source. */
  ghost predicate MadeFor(nodes: map<Place, Node>, want: Wanted, fitting: Fitting)
  {
    want.At() in nodes && Ready(nodes, want) &&
    IsLine(want, Source(nodes, want), nodes[want.At()].text, fitting)
  }

  /** The first wish for its place. */
  ghost predicate FirstFor(wanted: seq<Wanted>, w: Wanted)
  {
    exists k :: 0 <= k < |wanted| && wanted[k] == w && forall j :: 0 <= j < k ==> wanted[j].At() != w.At()
  }

  lemma {:induction false} OneWish(w: Wanted)
    ensures forall v :: FirstFor([w], v) <==> v == w
  {
    assert [w][0] == w;
  }

  lemma {:induction false} OneFirst(wanted: seq<Wanted>, v: Wanted, w: Wanted)
    requires FirstFor(wanted, v) && FirstFor(wanted, w) && v.At() == w.At()
    ensures v == w
  {
  }

  /** A wish for a node that was not held, to be made now, whose conversation gives no line. */
  ghost predicate Unmade(before: map<Place, Node>, nodes: map<Place, Node>, wanted: seq<Wanted>, w: Wanted,
                         fitting: Fitting)
  {
    FirstFor(wanted, w) && w.At() !in before && Ready(nodes, w) && NoLine(w, Source(nodes, w), fitting)
  }

  /** `after` holds everything `before` does, unchanged. */
  ghost predicate Extends(before: map<Place, Node>, after: map<Place, Node>)
  {
    forall p :: p in before ==> p in after && after[p] == before[p]
  }

  /** Every node above the messages stands on both its halves. */
  ghost predicate Grounded(nodes: map<Place, Node>)
  {
    forall p {:trigger HalvesHeld(nodes, p)} :: p in nodes && p.l > 0 ==> HalvesHeld(nodes, p)
  }

  /** Every node past those of `before` was wanted and made from the source of the first wish for it. */
  ghost predicate OnlyWanted(before: map<Place, Node>, after: map<Place, Node>, wanted: seq<Wanted>, fitting: Fitting)
  {
    forall p :: p in after && p !in before ==>
      exists w :: FirstFor(wanted, w) && w.At() == p && MadeFor(after, w, fitting)
  }

  /** A wish whose conversation gives no line is not among the nodes made. */
  lemma {:induction false} UnmadeIsMissing(before: map<Place, Node>, after: map<Place, Node>, wanted: seq<Wanted>,
                                           w: Wanted, fitting: Fitting)
    requires OnlyWanted(before, after, wanted, fitting) && Unmade(before, after, wanted, w, fitting)
    ensures w.At() !in after
  {
    forall v | FirstFor(wanted, v) && v.At() == w.At()
      ensures !MadeFor(after, v, fitting)
    {
      OneFirst(wanted, v, w);
      assert forall line :: !IsLine(w, Source(after, w), line, fitting);
    }
  }

  lemma {:induction false} Extended(before: map<Place, Node>, after: map<Place, Node>, want: Wanted, fitting: Fitting)
    requires Extends(before, after) && Ready(before, want)
    ensures Ready(after, want) && Source(after, want) == Source(before, want)
    ensures MadeFor(before, want, fitting) ==> MadeFor(after, want, fitting)
  {
  }

  lemma {:induction false} OnlyWantedChain(a: map<Place, Node>, b: map<Place, Node>, c: map<Place, Node>,
                        wanted: seq<Wanted>, fitting: Fitting)
    requires Extends(a, b) && Extends(b, c)
    requires OnlyWanted(a, b, wanted, fitting) && OnlyWanted(b, c, wanted, fitting)
    ensures OnlyWanted(a, c, wanted, fitting)
  {
    forall p | p in c && p !in a
      ensures exists w :: FirstFor(wanted, w) && w.At() == p && MadeFor(c, w, fitting)
    {
      if p in b {
        var w :| FirstFor(wanted, w) && w.At() == p && MadeFor(b, w, fitting);
        Extended(b, c, w, fitting);
      }
    }
  }

  lemma {:induction false} OnlyWantedWider(before: map<Place, Node>, after: map<Place, Node>, few: seq<Wanted>,
                                           wanted: seq<Wanted>, fitting: Fitting)
    requires OnlyWanted(before, after, few, fitting) && forall w :: w in few ==> FirstFor(wanted, w)
    ensures OnlyWanted(before, after, wanted, fitting)
  {
    forall p | p in after && p !in before
      ensures exists w :: FirstFor(wanted, w) && w.At() == p && MadeFor(after, w, fitting)
    {
      var w :| FirstFor(few, w) && w.At() == p && MadeFor(after, w, fitting);
      assert w in few;
    }
  }

  lemma {:induction false} OnlyWantedGrounded(before: map<Place, Node>, after: map<Place, Node>, wanted: seq<Wanted>,
                                              fitting: Fitting)
    requires Extends(before, after) && Grounded(before) && OnlyWanted(before, after, wanted, fitting)
    ensures Grounded(after)
  {
    forall p | p in after && p.l > 0 ensures HalvesHeld(after, p) {
      if p !in before {
        var w :| FirstFor(wanted, w) && w.At() == p && MadeFor(after, w, fitting);
      } else {
        assert HalvesHeld(before, p);
      }
    }
  }

  function ReadyPrefix(nodes: map<Place, Node>, pending: seq<Wanted>): (n: nat)
    ensures n <= |pending| && (forall k :: 0 <= k < n ==> Ready(nodes, pending[k]))
    ensures n < |pending| ==> !Ready(nodes, pending[n])
  {
    if pending == [] || !Ready(nodes, pending[0]) then 0 else 1 + ReadyPrefix(nodes, pending[1..])
  }

  ghost predicate Distinct(wanted: seq<Wanted>)
  {
    forall j, k :: 0 <= j < k < |wanted| ==> wanted[j].At() != wanted[k].At()
  }

  ghost predicate Names(wanted: seq<Wanted>, p: Place) { exists w :: FirstFor(wanted, w) && w.At() == p }

  ghost predicate LinesFor(nodes: map<Place, Node>, round: seq<Wanted>, lines: seq<Text>, fitting: Fitting)
  {
    |lines| == |round| &&
    forall k :: 0 <= k < |round| ==>
      Ready(nodes, round[k]) && IsLine(round[k], Source(nodes, round[k]), lines[k], fitting)
  }

  lemma {:induction false} KeptOne(start: map<Place, Node>, before: map<Place, Node>, after: map<Place, Node>,
                round: seq<Wanted>, lines: seq<Text>, k: nat, fitting: Fitting)
    requires Distinct(round) && Extends(start, before) && OnlyWanted(start, before, round, fitting)
    requires LinesFor(start, round, lines, fitting) && k < |round| && round[k].At() !in before
    requires after == before[round[k].At() := Node(round[k].At(), lines[k])]
    ensures Extends(start, after) && OnlyWanted(start, after, round, fitting)
  {
    var want := round[k];
    Extended(start, after, want, fitting);
    assert FirstFor(round, want) && MadeFor(after, want, fitting);
    OnlyWantedChain(start, before, after, round, fitting);
  }

  /** After a round exactly its own places left the queue. */
  lemma {:induction false} RoundDone(waiting: seq<Wanted>, size: nat, before: map<Place, Node>, after: map<Place,
                                     Node>, fitting: Fitting)
    requires size <= |waiting| && Distinct(waiting) && Extends(before, after)
    requires forall w :: w in waiting ==> w.At() !in before
    requires OnlyWanted(before, after, waiting[..size], fitting)
    requires forall w :: w in waiting[..size] ==> w.At() in after
    ensures Distinct(waiting[size..])
    ensures forall w :: w in waiting[size..] ==> w.At() !in after
    ensures forall p :: Names(waiting, p) ==> p in after || Names(waiting[size..], p)
  {
    forall p | Names(waiting, p) && p !in after ensures Names(waiting[size..], p) {
      var w :| w in waiting && w.At() == p;
      assert waiting == waiting[..size] + waiting[size..];
      assert w in waiting[size..];
    }
  }

  // ---- Asking the model for a line ----

  /** A turn of a conversation: the task, a line the model gave, or the demand for a shorter one, which shows
      how much of that line would have fitted. */
  datatype Turn =
    | Task(want: Wanted, input: Text, limit: nat)
    | Given(line: Text)
    | TooLong(size: nat, limit: nat, cut: Text)

  /** What the model would answer to a conversation, trimmed: a text, or a failure. */
  type Model = seq<Turn> -> Option<Text>

  /** A call that answers no line. */
  predicate Fails(answer: Option<Text>) { answer.None? || answer.value == "" }

  /** A byte inside a character of UTF-8, past its first. */
  predicate Continues(byte: char) { 0x80 <= byte as int < 0xC0 }

  function Boundary(text: Text, n: nat): (r: nat)
    requires n < |text|
    ensures r <= n && (r == 0 || !Continues(text[r])) && forall k :: r < k <= n ==> Continues(text[k])
  {
    if n == 0 || !Continues(text[n]) then n else Boundary(text, n - 1)
  }

  /** The whole characters at the front of the text that fit the limit, and no fewer. */
  function Cut(text: Text, limit: nat): (cut: Text)
    ensures cut <= text && |cut| <= limit
    ensures |cut| < |text| && cut != "" ==> text[|cut|] as int / 0x40 != 2
    ensures cut == text || forall k :: |cut| < k <= limit ==> k < |text| && text[k] as int / 0x40 == 2
  {
    if |text| <= limit then text else text[..Boundary(text, limit)]
  }

  datatype Talk = Talk(model: Model, task: Turn, limit: nat)
  {
    /** The conversation as it stands before call `k`, when no earlier one failed. */
    ghost function Before(k: nat): seq<Turn>
    {
      if k == 0 then [task]
      else
        var asked := Before(k - 1);
        match model(asked)
        case None => asked
        case Some(line) => asked + [Given(line), TooLong(|line|, limit, Cut(line, limit))]
    }

    ghost function Reply(k: nat): Option<Text> { model(Before(k)) }
  }

  /** How many calls are made from call `k` on: up to the first that fails or fits, at most `attempts` in all. */
  ghost function Calls(talk: Talk, attempts: nat, k: nat): (n: nat)
    requires k <= attempts
    ensures k <= n <= attempts && forall j :: k <= j < n - 1 ==> !Fails(talk.Reply(j)) && |talk.Reply(j).value| > talk.limit
    decreases attempts - k
  {
    if k == attempts then k
    else if Fails(talk.Reply(k)) || |talk.Reply(k).value| <= talk.limit then k + 1
    else Calls(talk, attempts, k + 1)
  }

  /** `text` is the shortest of the first `n` answers, none of which fails. */
  ghost predicate Shortest(talk: Talk, n: nat, text: Text)
  {
    (exists k: nat :: k < n && talk.Reply(k) == Some(text)) &&
    forall k: nat :: k < n ==> !Fails(talk.Reply(k)) && |text| <= |talk.Reply(k).value|
  }

  /** What is kept after `n` answers: the shortest of them, if there are any. */
  ghost predicate Kept(talk: Talk, n: nat, line: Option<Text>)
  {
    if n == 0 then line.None? else line.Some? && Shortest(talk, n, line.value)
  }

  lemma {:induction false} KeptMore(talk: Talk, n: nat, kept: Option<Text>)
    requires Kept(talk, n, kept) && !Fails(talk.Reply(n))
    ensures Kept(talk, n + 1, if kept.None? || |talk.Reply(n).value| < |kept.value| then talk.Reply(n) else kept)
  {
    if kept.Some? && |talk.Reply(n).value| >= |kept.value| {
      var k: nat :| k < n && talk.Reply(k) == kept;
      assert k < n + 1;
    } else {
      assert talk.Reply(n) == Some(talk.Reply(n).value);
    }
  }

  lemma {:induction false} KeptIsLine(talk: Talk, n: nat, line: Option<Text>)
    requires Kept(talk, n, line)
    ensures line.Some? ==> line.value != ""
  {
  }

  /** What a call does to the conversation and the number of calls. */
  lemma {:induction false} Called(talk: Talk, attempts: nat, k: nat)
    requires k < attempts
    ensures Fails(talk.Reply(k)) || |talk.Reply(k).value| <= talk.limit ==> Calls(talk, attempts, k) == k + 1
    ensures !Fails(talk.Reply(k)) ==>
              var line := talk.Reply(k).value;
              talk.Before(k + 1) == talk.Before(k) + [Given(line), TooLong(|line|, talk.limit, Cut(line, talk.limit))] &&
              (|line| > talk.limit ==> Calls(talk, attempts, k) == Calls(talk, attempts, k + 1))
  {
  }

  /** One conversation about one line, which ends when an answer fits, when a call fails, or after the last
      attempt. What is kept is the shortest answer. */
  method Compress(task: Turn, limit: nat, attempts: nat, model: Model) returns (line: Option<Text>)
    ensures var talk := Talk(model, task, limit);
            var n := Calls(talk, attempts, 0);
            match line
            case None => n == 0 || talk.Reply(n - 1).None? || talk.Reply(n - 1).value == ""
            case Some(text) => text != "" && Shortest(talk, n, text)
  {
    ghost var talk := Talk(model, task, limit);
    line := None;
    var messages := [task];
    var asked := 0;
    while asked < attempts
      invariant asked <= attempts && Calls(talk, attempts, 0) == Calls(talk, attempts, asked)
      invariant messages == talk.Before(asked)
      invariant Kept(talk, asked, line)
    {
      Called(talk, attempts, asked);
      var answer := model(messages);
      if Fails(answer) {
        return None;
      }
      KeptMore(talk, asked, line);
      asked := asked + 1;
      if line.None? || |answer.value| < |line.value| {
        line := answer;
      }
      if |answer.value| <= limit {
        KeptIsLine(talk, asked, line);
        return;
      }
      messages := messages + [Given(answer.value), TooLong(|answer.value|, limit, Cut(answer.value, limit))];
    }
    KeptIsLine(talk, asked, line);
  }

  /** Unless it is `reliable` a write may fail. */
  class Tree {
    const reliable: bool
    var nodes: map<Place, Node>

    ghost predicate Valid()
      reads this
    {
      forall p :: p in nodes ==> nodes[p].place == p
    }

    constructor (reliably: bool)
      ensures Valid() && nodes == map[] && Grounded(nodes) && reliable == reliably
    {
      reliable, nodes := reliably, map[];
    }

    /** Append a new node to the tree's file and hold it; the write may fail. */
    method Keep(place: Place, text: Text) returns (kept: bool)
      requires Valid() && place !in nodes
      modifies this
      ensures Valid() && (reliable ==> kept)
      ensures nodes == if kept then old(nodes)[place := Node(place, text)] else old(nodes)
    {
      kept := *;
      kept := kept || reliable;
      if kept {
        nodes := nodes[place := Node(place, text)];
      }
    }

    /** The wishes still open, without repeats. */
    method Pending(wanted: seq<Wanted>) returns (pending: seq<Wanted>)
      ensures Distinct(pending) && (forall w :: w in pending ==> FirstFor(wanted, w) && w.At() !in nodes)
      ensures forall w :: w in wanted ==> w.At() in nodes || Names(pending, w.At())
    {
      pending := [];
      for k := 0 to |wanted|
        invariant Distinct(pending) && (forall w :: w in pending ==> FirstFor(wanted, w) && w.At() !in nodes)
        invariant forall w :: w in wanted[..k] ==> w.At() in nodes || Names(pending, w.At())
      {
        var want := wanted[k];
        var named := exists w :: w in pending && w.At() == want.At();
        ghost var before := pending;
        if want.At() !in nodes && !named {
          forall j | 0 <= j < k ensures wanted[j].At() != want.At() {
            assert wanted[j] in wanted[..k];
          }
          assert FirstFor(wanted, want);
          pending := pending + [want];
          assert want in pending;
        }
        forall w | w in wanted[..k + 1] ensures w.At() in nodes || Names(pending, w.At()) {
          if w in wanted[..k] && w.At() !in nodes {
            var q :| q in before && q.At() == w.At();
            assert q in pending;
          }
        }
      }
      assert wanted[..|wanted|] == wanted;
    }

    /** A line for each wish of a round, or none at all when one of them gets none. */
    method WriteLines(round: seq<Wanted>, fitting: Fitting) returns (lines: Option<seq<Text>>)
      requires forall w :: w in round ==> Ready(nodes, w)
      ensures lines.Some? ==> LinesFor(nodes, round, lines.value, fitting)
      ensures lines.None? ==> exists w :: w in round && NoLine(w, Source(nodes, w), fitting)
    {
      var made: seq<Text> := [];
      for k := 0 to |round|
        invariant LinesFor(nodes, round[..k], made, fitting)
      {
        var source := Source(nodes, round[k]);
        var text := source;
        if |source| > fitting.summaryBytes {
          var task := Task(round[k], source, fitting.summaryBytes);
          var line := Compress(task, fitting.summaryBytes, fitting.attempts, fitting.summarize);
          if line.None? {
            assert round[k] in round && NoLine(round[k], source, fitting);
            return None;
          }
          text := line.value;
        }
        made := made + [text];
      }
      assert round[..|round|] == round;
      return Some(made);
    }

    /** One round: every line is written before any node is kept. */
    method BuildRound(round: seq<Wanted>, fitting: Fitting) returns (done: bool)
      requires Valid() && Distinct(round) && |round| <= fitting.calls
      requires forall w :: w in round ==> w.At() !in nodes && Ready(nodes, w)
      modifies this
      ensures Valid() && Extends(old(nodes), nodes)
      ensures OnlyWanted(old(nodes), nodes, round, fitting)
      ensures done ==> forall w :: w in round ==> w.At() in nodes
      ensures !done && reliable ==>
                nodes == old(nodes) && exists w :: w in round && NoLine(w, Source(nodes, w), fitting)
    {
      var lines := WriteLines(round, fitting);
      if lines.None? {
        return false;
      }
      for k := 0 to |round|
        invariant Valid() && Extends(old(nodes), nodes)
        invariant forall j :: k <= j < |round| ==> round[j].At() !in nodes
        invariant forall j :: 0 <= j < k ==> round[j].At() in nodes
        invariant OnlyWanted(old(nodes), nodes, round, fitting)
      {
        ghost var before := nodes;
        var kept := Keep(round[k].At(), lines.value[k]);
        if !kept {
          return false;
        }
        KeptOne(old(nodes), before, nodes, round, lines.value, k, fitting);
      }
      return true;
    }

    /** Makes what is wanted and missing, at most `calls` nodes a round. Whatever happens no node held
        changes, and every new node was wanted, stands on its halves, and is its source word for word when
        that fits and otherwise the shortest line of the conversation about it. A conversation that gives no
        line fails the call, and with writes that succeed nothing else does. */
    method Build(wanted: seq<Wanted>, fitting: Fitting) returns (outcome: Outcome)
      requires Valid() && fitting.calls > 0
      modifies this
      ensures Valid() && Extends(old(nodes), nodes)
      ensures OnlyWanted(old(nodes), nodes, wanted, fitting)
      ensures old(Grounded(nodes)) ==> Grounded(nodes)
      ensures outcome.Built? ==> forall w :: w in wanted ==> w.At() in nodes
      ensures (exists w :: Unmade(old(nodes), nodes, wanted, w, fitting)) ==> !outcome.Built?
      ensures outcome == Failed && reliable ==> exists w :: Unmade(old(nodes), nodes, wanted, w, fitting)
      ensures outcome.NotReady? ==>
                exists w :: w in wanted && w.At() == outcome.place && !Ready(nodes, w)
    {
      var pending := Pending(wanted);
      outcome := BuildRounds(wanted, pending, fitting);
      if old(Grounded(nodes)) {
        OnlyWantedGrounded(old(nodes), nodes, wanted, fitting);
      }
      forall w | Unmade(old(nodes), nodes, wanted, w, fitting) ensures w.At() !in nodes && w in wanted {
        UnmadeIsMissing(old(nodes), nodes, wanted, w, fitting);
      }
    }

    /** Works the queue off. A round takes as many wishes as are ready, up to the first that is not, and no
        more than `calls`. */
    method BuildRounds(ghost wanted: seq<Wanted>, queue: seq<Wanted>, fitting: Fitting) returns (outcome: Outcome)
      requires Valid() && fitting.calls > 0
      requires Distinct(queue) && (forall w :: w in queue ==> FirstFor(wanted, w) && w.At() !in nodes)
      requires forall w :: w in wanted ==> w.At() in nodes || Names(queue, w.At())
      modifies this
      ensures Valid() && Extends(old(nodes), nodes)
      ensures OnlyWanted(old(nodes), nodes, wanted, fitting)
      ensures outcome.Built? ==> forall w :: w in wanted ==> w.At() in nodes
      ensures outcome == Failed && reliable ==> exists w :: Unmade(old(nodes), nodes, wanted, w, fitting)
      ensures outcome.NotReady? ==>
                exists w :: w in wanted && w.At() == outcome.place && !Ready(nodes, w)
    {
      var pending := queue;
      while pending != []
        invariant Valid() && Extends(old(nodes), nodes)
        invariant OnlyWanted(old(nodes), nodes, wanted, fitting)
        invariant Distinct(pending) && (forall w :: w in pending ==> FirstFor(wanted, w) && w.At() !in nodes)
        invariant forall w :: w in wanted ==> w.At() in nodes || Names(pending, w.At())
        decreases |pending|
      {
        var ready := ReadyPrefix(nodes, pending);
        var size := if ready <= fitting.calls then ready else fitting.calls;
        var round := pending[..size];
        if round == [] {
          assert pending[0] in pending;
          return NotReady(pending[0].At());
        }
        ghost var before := nodes;
        var done := BuildFront(wanted, pending, size, fitting);
        OnlyWantedChain(old(nodes), before, nodes, wanted, fitting);
        if !done {
          if reliable {
            ghost var w :| Unmade(before, nodes, wanted, w, fitting);
            assert Unmade(old(nodes), nodes, wanted, w, fitting);
          }
          return Failed;
        }
        pending := pending[size..];
      }
      return Built;
    }

    /** One round of the first `size` wishes of a queue. */
    method BuildFront(ghost wanted: seq<Wanted>, queue: seq<Wanted>, size: nat, fitting: Fitting) returns (done: bool)
      requires Valid() && size <= |queue| && size <= fitting.calls && Distinct(queue)
      requires forall w :: w in queue ==> FirstFor(wanted, w) && w.At() !in nodes
      requires forall w :: w in queue[..size] ==> Ready(nodes, w)
      modifies this
      ensures Valid() && Extends(old(nodes), nodes)
      ensures OnlyWanted(old(nodes), nodes, wanted, fitting)
      ensures done ==> Distinct(queue[size..]) && (forall w :: w in queue[size..] ==> w.At() !in nodes)
      ensures done ==> forall p :: Names(queue, p) ==> p in nodes || Names(queue[size..], p)
      ensures !done && reliable ==> exists w :: Unmade(old(nodes), nodes, wanted, w, fitting)
    {
      done := BuildRound(queue[..size], fitting);
      OnlyWantedWider(old(nodes), nodes, queue[..size], wanted, fitting);
      if !done && reliable {
        ghost var w :| w in queue[..size] && NoLine(w, Source(nodes, w), fitting);
        assert w in queue && Unmade(old(nodes), nodes, wanted, w, fitting);
      }
      if done {
        RoundDone(queue, size, old(nodes), nodes, fitting);
      }
    }

    /** `Build` as its callers use it: when every wanted node can be made, no refusal is possible. */
    method BuildReady(wanted: seq<Wanted>, fitting: Fitting) returns (outcome: Outcome)
      requires Valid() && fitting.calls > 0
      requires forall w :: w in wanted ==> Ready(nodes, w)
      modifies this
      ensures Valid() && Extends(old(nodes), nodes)
      ensures old(Grounded(nodes)) ==> Grounded(nodes)
      ensures OnlyWanted(old(nodes), nodes, wanted, fitting)
      ensures outcome == Failed || (outcome == Built && forall w :: w in wanted ==> w.At() in nodes)
      ensures (exists w :: Unmade(old(nodes), nodes, wanted, w, fitting)) ==> outcome == Failed
      ensures outcome == Failed && reliable ==> exists w :: Unmade(old(nodes), nodes, wanted, w, fitting)
    {
      outcome := Build(wanted, fitting);
      forall w | w in wanted ensures Ready(nodes, w) {
        Extended(old(nodes), nodes, w, fitting);
      }
    }

    /** The node of a place whose halves are there: held already, or made now from its halves. */
    method Parent(l: nat, i: nat, context: Text, fitting: Fitting) returns (outcome: Outcome, node: Option<Node>)
      requires Valid() && fitting.calls > 0 && HalvesHeld(nodes, Place(l, i))
      modifies this
      ensures Valid() && Extends(old(nodes), nodes)
      ensures old(Grounded(nodes)) ==> Grounded(nodes)
      ensures outcome == Built || outcome == Failed
      ensures outcome == Built ==>
                Place(l, i) in nodes && node == Some(nodes[Place(l, i)]) && nodes[Place(l, i)].place == Place(l, i)
      ensures forall p :: p in nodes && p !in old(nodes) ==> p == Place(l, i) && MadeFor(nodes, Pair(l, i, context), fitting)
      ensures Place(l, i) !in old(nodes) && NoLine(Pair(l, i, context), Source(nodes, Pair(l, i, context)), fitting) ==>
                outcome == Failed
      ensures outcome == Failed && reliable ==>
                Place(l, i) !in old(nodes) && NoLine(Pair(l, i, context), Source(nodes, Pair(l, i, context)), fitting)
    {
      var want := Pair(l, i, context);
      outcome := BuildReady([want], fitting);
      OneWish(want);
      if Place(l, i) !in old(nodes) && NoLine(want, Source(nodes, want), fitting) {
        assert Unmade(old(nodes), nodes, [want], want, fitting);
      }
      node := None;
      if outcome.Built? {
        assert want in [want];
        node := Some(nodes[Place(l, i)]);
      }
    }
  }
}
