/** The outbox: events for other consumers, each taken by one call, delivered, and settled, while other
    calls do the same and any of them may die between two transactions. */
module Outbox {

  const I64_MAX: int := 0x7fff_ffff_ffff_ffff

  datatype Option<T> = None | Some(value: T)
  datatype Answer<T> = Ok(value: T) | Err

  datatype State = Pending | Processing | Done

  datatype Event = Event(dedupeKey: string, kind: string, payload: string, state: State, attempts: nat,
                         availableAt: int, leaseOwner: Option<string>, leaseUntil: Option<int>,
                         lastError: Option<string>, createdAt: int, processedAt: Option<int>)

  /** How far a running call has come with the event it claimed. */
  datatype Phase = Claimed | Consumed | Refused(error: string)
  datatype Call = Call(event: string, consumer: string, now: int, phase: Phase)

  /** How a call ended. The last two leave the event in `Processing`. */
  datatype Outcome = NoLease | NothingPending | Delivered | ConsumerRefused | Unreadable | Unrecorded

  function LeaseUntil(now: int, leaseMs: int): (r: Answer<int>)
    ensures r.Ok? <==> leaseMs > 0 && now + leaseMs <= I64_MAX
    ensures r.Ok? ==> now < r.value
  {
    if leaseMs <= 0 || now + leaseMs > I64_MAX then Err else Ok(now + leaseMs)
  }

  predicate Available(e: Event, now: int) { e.state == Pending && e.availableAt <= now }

  function New(dedupeKey: string, kind: string, payload: string, now: int): Event
  {
    Event(dedupeKey, kind, payload, Pending, 0, now, None, None, None, now, None)
  }

  function Taken(e: Event, consumer: string, until: int): Event
  {
    e.(state := Processing, attempts := e.attempts + 1, leaseOwner := Some(consumer), leaseUntil := Some(until))
  }

  function Released(e: Event, error: string, now: int): Event
  {
    e.(state := Pending, leaseOwner := None, leaseUntil := None, lastError := Some(error), availableAt := now)
  }

  function Finished(e: Event, at: int): Event
  {
    e.(state := Done, leaseOwner := None, leaseUntil := None, processedAt := Some(at))
  }

  // ---- What becomes of one event ----

  /** How a call that claimed an event ends: it does not read the event, or its record fails, or the record is
      of what the consumer said. */
  function Ending(readable: bool, recorded: bool, refusal: Option<string>): Outcome
  {
    if !readable then Unreadable
    else if !recorded then Unrecorded
    else match refusal case None => Delivered case Some(_) => ConsumerRefused
  }

  /** The row as claimed. */
  ghost function ClaimedRow(row: Event, consumer: string, until: int): Event
  {
    Event(row.dedupeKey, row.kind, row.payload, Processing, row.attempts + 1, row.availableAt, Some(consumer),
          Some(until), row.lastError, row.createdAt, row.processedAt)
  }

  /** The row a call leaves, from the one it claimed. */
  ghost predicate LeftRow(row: Event, row': Event, r: Outcome, refusal: Option<string>, now: int, at: int)
  {
    match r
    case Delivered => row' == row.(state := Done, leaseOwner := None, leaseUntil := None, processedAt := Some(at))
    case ConsumerRefused =>
      row' == row.(state := Pending, leaseOwner := None, leaseUntil := None, lastError := refusal, availableAt := now)
    case _ => row' == row
  }

  /** Every unlocked event is being processed, done, or not yet available. */
  ghost predicate NothingToTake(events: map<string, Event>, now: int, locked: set<string>)
  {
    forall id :: id in events && id !in locked ==> events[id].state != Pending || events[id].availableAt > now
  }

  /** Pending, available, unlocked, and created before every other such event. */
  ghost predicate FirstInLine(events: map<string, Event>, id: string, now: int, locked: set<string>)
  {
    id in events && id !in locked && events[id].state == Pending && !(now < events[id].availableAt) &&
    forall other :: other in events && other != id && other !in locked ==>
      events[other].state != Pending || now < events[other].availableAt || events[id].createdAt < events[other].createdAt
  }

  // ---- The state of the outbox and what it keeps ----

  /** The rows, the processed records, the running calls and the successful deliveries made so far. */
  datatype World = World(events: map<string, Event>, processed: set<(string, string)>, calls: map<nat, Call>,
                         deliveries: multiset<string>)
  {
    /** A running call holds an event of its own, and it alone. */
    ghost predicate CallsHold()
    {
      (forall c :: c in calls ==> calls[c].event in events && HeldBy(events[calls[c].event], calls[c]) &&
                                  deliveries[calls[c].event] == if calls[c].phase == Consumed then 1 else 0) &&
      (forall c, d :: c in calls && d in calls && calls[c].event == calls[d].event ==> c == d)
    }

    ghost predicate RowsAgree()
    {
      (forall p :: p in processed ==> p.1 in events && events[p.1].state == Done) &&
      (forall id :: deliveries[id] > 0 ==> id in events) &&
      (forall id :: id in events ==> deliveries[id] <= 1) &&
      (forall id :: id in events && events[id].state == Pending ==> deliveries[id] == 0) &&
      (forall id :: id in events && events[id].state == Done ==> deliveries[id] == 1)
    }

    ghost predicate KeysUnique()
    {
      forall a, b :: a in events && b in events && events[a].dedupeKey == events[b].dedupeKey ==> a == b
    }

    ghost predicate Valid() { CallsHold() && RowsAgree() && KeysUnique() }

    /** An event no running call holds and no call ever settles. */
    ghost predicate Stuck(id: string)
    {
      id in events && events[id].state == Processing && forall c :: c in calls ==> calls[c].event != id
    }
  }

  predicate HeldBy(e: Event, call: Call) { e.state == Processing && e.leaseOwner == Some(call.consumer) }

  /** What any step keeps: done events and stuck ones stay as they are, deliveries only grow, and a running
      call that is not one of `actors` still holds its event, which is as it was. */
  ghost predicate Keeps(before: World, after: World, actors: set<nat>)
  {
    before.deliveries <= after.deliveries && before.processed <= after.processed &&
    (forall id :: id in before.events ==> id in after.events) &&
    (forall id :: id in before.events && before.events[id].state == Done ==> after.events[id] == before.events[id]) &&
    (forall id :: before.Stuck(id) ==> after.Stuck(id) && after.events[id] == before.events[id]) &&
    (forall c :: c in before.calls && c !in actors ==>
       c in after.calls && after.calls[c] == before.calls[c] && before.calls[c].event in after.events &&
       before.calls[c].event in before.events &&
       after.events[before.calls[c].event] == before.events[before.calls[c].event])
  }

  lemma {:induction false} KeepsThrough(a: World, b: World, c: World, actors: set<nat>, more: set<nat>)
    requires Keeps(a, b, actors) && Keeps(b, c, more)
    ensures Keeps(a, c, actors + more)
  {
  }

  // ---- Steps that touch one event and the one call that holds it ----

  /** Nothing but the event `id` and the call changes, and no other call holds the event. */
  ghost predicate TouchesOne(w: World, w': World, call: nat, id: string)
  {
    id in w.events && w.events[id].state != Done && w'.events.Keys == w.events.Keys &&
    (forall other :: other in w.events && other != id ==> w'.events[other] == w.events[other]) &&
    w'.events[id].dedupeKey == w.events[id].dedupeKey &&
    (forall c :: c != call ==> (c in w'.calls <==> c in w.calls)) &&
    (forall c :: c != call && c in w.calls ==> w'.calls[c] == w.calls[c] && w.calls[c].event != id) &&
    (call in w'.calls ==> w'.calls[call].event == id) &&
    (call in w.calls ==> w.calls[call].event == id)
  }

  /** The event and the call agree with the deliveries and the records. */
  ghost predicate Settled(w: World, call: nat, id: string)
  {
    id in w.events && w.deliveries[id] <= 1 &&
    (call in w.calls ==> HeldBy(w.events[id], w.calls[call]) &&
                         w.deliveries[id] == if w.calls[call].phase == Consumed then 1 else 0) &&
    (w.events[id].state == Pending ==> w.deliveries[id] == 0) && (w.events[id].state == Done ==> w.deliveries[id] == 1)
  }

  /** Deliveries and records of other events stay, and a record is only written for a done event. */
  ghost predicate Records(w: World, w': World, id: string)
  {
    (w'.deliveries == w.deliveries || w'.deliveries == w.deliveries + multiset{id}) && w.processed <= w'.processed &&
    id in w'.events && forall p :: p in w'.processed && p !in w.processed ==> p.1 == id && w'.events[id].state == Done
  }

  lemma {:induction false} TouchKeepsCalls(w: World, w': World, call: nat, id: string)
    requires w.Valid() && TouchesOne(w, w', call, id) && Settled(w', call, id) && Records(w, w', id)
    ensures w'.CallsHold()
  {
    forall c | c in w'.calls && c != call
      ensures w'.calls[c].event in w'.events && HeldBy(w'.events[w'.calls[c].event], w'.calls[c])
      ensures w'.calls[c].event != id
      ensures w'.deliveries[w'.calls[c].event] == if w'.calls[c].phase == Consumed then 1 else 0
    {
      assert c in w.calls;
    }
  }

  lemma {:induction false} TouchKeepsRows(w: World, w': World, call: nat, id: string)
    requires w.RowsAgree() && w.KeysUnique()
    requires TouchesOne(w, w', call, id) && Settled(w', call, id) && Records(w, w', id)
    ensures w'.RowsAgree() && w'.KeysUnique()
  {
    TouchKeepsKeys(w, w', call, id);
    TouchKeepsRecords(w, w', call, id);
    forall other | other in w'.events && other != id
      ensures w'.events[other] == w.events[other] && w'.deliveries[other] == w.deliveries[other]
    {
      assert other in w.events.Keys;
    }
  }

  lemma {:induction false} TouchKeepsRecords(w: World, w': World, call: nat, id: string)
    requires w.RowsAgree() && TouchesOne(w, w', call, id) && Settled(w', call, id) && Records(w, w', id)
    ensures forall p :: p in w'.processed ==> p.1 in w'.events && w'.events[p.1].state == Done
  {
    forall p | p in w'.processed
      ensures p.1 in w'.events && w'.events[p.1].state == Done
    {
      assert p in w.processed ==> w.events[p.1].state == Done;
    }
  }

  lemma {:induction false} TouchKeepsKeys(w: World, w': World, call: nat, id: string)
    requires w.KeysUnique() && TouchesOne(w, w', call, id)
    ensures w'.KeysUnique()
  {
    forall a, b | a in w'.events && b in w'.events && w'.events[a].dedupeKey == w'.events[b].dedupeKey
      ensures a == b
    {
      assert a in w.events.Keys && b in w.events.Keys;
      assert w.events[a].dedupeKey == w'.events[a].dedupeKey && w.events[b].dedupeKey == w'.events[b].dedupeKey;
    }
  }

  lemma {:induction false} TouchKeeps(w: World, w': World, call: nat, id: string)
    requires w.Valid() && TouchesOne(w, w', call, id) && Settled(w', call, id) && Records(w, w', id)
    requires !w.Stuck(id)
    ensures w'.Valid() && Keeps(w, w', {call})
  {
    TouchKeepsCalls(w, w', call, id);
    TouchKeepsRows(w, w', call, id);
    forall other | w.Stuck(other)
      ensures w'.Stuck(other) && w'.events[other] == w.events[other]
    {
      forall c | c in w'.calls
        ensures w'.calls[c].event != other
      {
        assert c != call ==> c in w.calls;
      }
    }
  }

  /** A world with one more event, pending under a key of its own. */
  ghost predicate AddsOne(w: World, w': World, id: string)
  {
    id !in w.events && w'.events.Keys == w.events.Keys + {id} && w'.events[id].state == Pending &&
    (forall other :: other in w.events ==> w'.events[other] == w.events[other]) &&
    (forall other :: other in w.events ==> w.events[other].dedupeKey != w'.events[id].dedupeKey) &&
    w'.calls == w.calls && w'.deliveries == w.deliveries && w'.processed == w.processed
  }

  lemma {:induction false} AddKeepsRows(w: World, w': World, id: string)
    requires w.RowsAgree() && w.KeysUnique() && AddsOne(w, w', id)
    ensures w'.RowsAgree() && w'.KeysUnique()
  {
    assert w.deliveries[id] == 0;
    forall other | other in w'.events
      ensures other == id || other in w.events
    {
      assert other in w'.events.Keys;
    }
    forall other | other in w.events
      ensures other in w'.events
    {
      assert other in w'.events.Keys;
    }
  }

  lemma {:induction false} AddKeeps(w: World, w': World, id: string)
    requires w.Valid() && AddsOne(w, w', id)
    ensures w'.Valid() && Keeps(w, w', {})
  {
    AddKeepsRows(w, w', id);
    forall other | other in w.events
      ensures other in w'.events
    {
      assert other in w'.events.Keys;
    }
  }

  // ---- The outbox ----

  /** One thing some call does; a step that does not fit its call's phase does nothing. */
  datatype Step =
    | Enqueueing(id: string, dedupeKey: string, kind: string, payload: string, now: int)
    | Claiming(call: nat, consumer: string, until: int, now: int, locked: set<string>)
    | Consuming(call: nat, refusal: Option<string>)
    | Settling(call: nat, at: int)
    | Dying(call: nat)

  ghost function Actors(steps: seq<Step>): set<nat>
  {
    set i | 0 <= i < |steps| && !steps[i].Enqueueing? :: steps[i].call
  }

  lemma {:induction false} ActorsGrow(steps: seq<Step>, n: nat)
    requires n < |steps|
    ensures Actors(steps[..n + 1]) == Actors(steps[..n]) + Actors([steps[n]])
  {
    var more := steps[..n + 1];
    forall i | 0 <= i <= n
      ensures !more[i].Enqueueing? ==> more[i].call in Actors(steps[..n]) + Actors([steps[n]])
    {
      if i < n {
        assert more[i] == steps[..n][i];
      } else {
        assert more[i] == [steps[n]][0];
      }
    }
    forall i | 0 <= i < n
      ensures !steps[..n][i].Enqueueing? ==> steps[..n][i].call in Actors(more)
    {
      assert steps[..n][i] == more[i];
    }
    assert [steps[n]][0] == more[n];
  }

  class Outbox {
    var events: map<string, Event>
    var processed: set<(string, string)>
    var calls: map<nat, Call>
    ghost var deliveries: multiset<string>

    ghost function Now(): World
      reads this
    {
      World(events, processed, calls, deliveries)
    }

    constructor ()
      ensures Now().Valid() && Now() == World(map[], {}, map[], multiset{})
    {
      events, processed, calls, deliveries := map[], {}, map[], multiset{};
    }

    /** An event whose key is known is not written again; the answer is the id of the event with the key.
        A fresh id never meets a row of its own. */
    method Enqueue(id: string, dedupeKey: string, kind: string, payload: string, now: int) returns (r: Answer<string>)
      requires Now().Valid()
      modifies this`events
      ensures Now().Valid() && Keeps(old(Now()), Now(), {})
      ensures r.Ok? ==> r.value in events && events[r.value].dedupeKey == dedupeKey
      ensures (exists known :: known in old(events) && old(events)[known].dedupeKey == dedupeKey) ==>
                r.Ok? && events == old(events)
      ensures (forall known :: known in old(events) ==> old(events)[known].dedupeKey != dedupeKey) && id !in old(events) ==>
                r == Ok(id) && events == old(events)[id :=
                  Event(dedupeKey, kind, payload, Pending, 0, now, None, None, None, now, None)]
      ensures r.Err? ==> events == old(events)
    {
      var rows := set known | known in events && events[known].dedupeKey == dedupeKey;
      assert forall known :: known in events && events[known].dedupeKey == dedupeKey ==> known in rows;
      if rows == {} {
        if id in events { return Err; }
        ghost var w := Now();
        events := events[id := New(dedupeKey, kind, payload, now)];
        AddKeeps(w, Now(), id);
        r := Ok(id);
      } else {
        var known :| known in rows;
        r := Ok(known);
      }
    }

    /** The oldest available event that no other transaction holds locked. */
    method Oldest(now: int, locked: set<string>) returns (found: Option<string>)
      ensures found.None? <==> forall id :: id in events && Available(events[id], now) ==> id in locked
      ensures found.None? <==> NothingToTake(events, now, locked)
      ensures forall id :: FirstInLine(events, id, now, locked) ==> found == Some(id)
      ensures found.Some? ==> IsOldest(events, found.value, now, locked)
    {
      found := None;
      var rows := set id | id in events && id !in locked && Available(events[id], now);
      while rows != {}
        invariant forall id :: id in rows ==> id in events && id !in locked && Available(events[id], now)
        invariant found.Some? ==> found.value in events && found.value !in locked && Available(events[found.value], now)
        invariant forall id :: id in events && id !in locked && Available(events[id], now) ==>
                    id in rows || (found.Some? && events[found.value].createdAt <= events[id].createdAt)
      {
        var id :| id in rows;
        rows := rows - {id};
        if found.None? || events[id].createdAt < events[found.value].createdAt { found := Some(id); }
      }
    }

    /** The claiming transaction of a call. An event the consumer has a record of is never met: the record
        is written in the transaction that makes the event done. */
    method Claim(call: nat, consumer: string, until: int, now: int, locked: set<string>)
      returns (taken: Option<string>)
      requires Now().Valid() && call !in calls
      modifies this`events, this`calls
      ensures Now().Valid() && Keeps(old(Now()), Now(), {call})
      ensures taken.None? ==> Now() == old(Now())
      ensures taken.None? <==> NothingToTake(old(events), now, locked)
      ensures forall id :: FirstInLine(old(events), id, now, locked) ==> taken == Some(id)
      ensures taken.Some? ==>
                IsOldest(old(events), taken.value, now, locked) && (consumer, taken.value) !in processed &&
                old(events)[taken.value].state == Pending && old(events)[taken.value].availableAt <= now &&
                taken.value !in locked &&
                events == old(events)[taken.value := ClaimedRow(old(events)[taken.value], consumer, until)] &&
                calls == old(calls)[call := Call(taken.value, consumer, now, Claimed)]
    {
      taken := Oldest(now, locked);
      if taken.None? { return; }
      var id := taken.value;
      if (consumer, id) in processed { assert false; }
      Take(call, consumer, id, until, now);
    }

    /** The update of a claim. */
    method Take(call: nat, consumer: string, id: string, until: int, now: int)
      requires Now().Valid() && call !in calls && id in events && events[id].state == Pending
      modifies this`events, this`calls
      ensures Now().Valid() && Keeps(old(Now()), Now(), {call})
      ensures events == old(events)[id := ClaimedRow(old(events)[id], consumer, until)]
      ensures calls == old(calls)[call := Call(id, consumer, now, Claimed)]
    {
      events := events[id := Taken(events[id], consumer, until)];
      calls := calls[call := Call(id, consumer, now, Claimed)];
      TouchKeeps(old(Now()), Now(), call, id);
    }

    /** The consumer takes the event or refuses it. */
    method Consume(call: nat, refusal: Option<string>)
      requires Now().Valid() && call in calls && calls[call].phase == Claimed
      modifies this`calls, this`deliveries
      ensures Now().Valid() && Keeps(old(Now()), Now(), {call})
      ensures calls == old(calls)[call := old(calls)[call].(phase :=
                if refusal.None? then Consumed else Refused(refusal.value))]
      ensures deliveries == old(deliveries) +
                if refusal.None? then multiset{old(calls)[call].event} else multiset{}
    {
      var id := calls[call].event;
      calls := calls[call := calls[call].(phase := if refusal.None? then Consumed else Refused(refusal.value))];
      if refusal.None? { deliveries := deliveries + multiset{id}; }
      TouchKeeps(old(Now()), Now(), call, id);
    }

    /** The transaction after a refusal. It names the event alone, not the claim. */
    method Release(call: nat, id: string, error: string, now: int)
      requires Now().Valid() && call in calls && calls[call].event == id && calls[call].phase.Refused?
      modifies this`events, this`calls
      ensures Now().Valid() && Keeps(old(Now()), Now(), {call})
      ensures events == old(events)[id := events[id]] && calls == old(calls) - {call}
      ensures LeftRow(old(events)[id], events[id], ConsumerRefused, Some(error), now, 0)
    {
      events := events[id := Released(events[id], error, now)];
      calls := calls - {call};
      TouchKeeps(old(Now()), Now(), call, id);
    }

    /** The transaction after a delivery: the record and the done event together. */
    method Finish(call: nat, consumer: string, id: string, at: int)
      requires Now().Valid() && call in calls && calls[call] == Call(id, consumer, calls[call].now, Consumed)
      modifies this`events, this`calls, this`processed
      ensures Now().Valid() && Keeps(old(Now()), Now(), {call})
      ensures events == old(events)[id := events[id]] && calls == old(calls) - {call}
      ensures LeftRow(old(events)[id], events[id], Delivered, None, 0, at)
      ensures processed == old(processed) + {(consumer, id)}
    {
      processed := processed + {(consumer, id)};
      events := events[id := Finished(events[id], at)];
      calls := calls - {call};
      TouchKeeps(old(Now()), Now(), call, id);
    }

    /** A call dies, or gives up on an error, and its event is stuck. */
    method Die(call: nat)
      requires Now().Valid() && call in calls
      modifies this`calls
      ensures Now().Valid() && Keeps(old(Now()), Now(), {call})
      ensures calls == old(calls) - {call} && Now().Stuck(old(calls)[call].event)
    {
      calls := calls - {call};
    }

    method Perform(step: Step)
      requires Now().Valid()
      modifies this
      ensures Now().Valid() && Keeps(old(Now()), Now(), Actors([step]))
    {
      assert !step.Enqueueing? ==> [step][0].call in Actors([step]);
      match step
      case Enqueueing(id, dedupeKey, kind, payload, now) => var _ := Enqueue(id, dedupeKey, kind, payload, now);
      case Claiming(call, consumer, until, now, locked) =>
        if call !in calls { var _ := Claim(call, consumer, until, now, locked); }
      case Consuming(call, refusal) =>
        if call in calls && calls[call].phase == Claimed { Consume(call, refusal); }
      case Settling(call, at) => Settle(call, at);
      case Dying(call) => if call in calls { Die(call); }
    }

    /** The transaction that fits what the consumer said. */
    method Settle(call: nat, at: int)
      requires Now().Valid()
      modifies this
      ensures Now().Valid() && Keeps(old(Now()), Now(), {call})
    {
      if call in calls {
        var c := calls[call];
        if c.phase == Consumed {
          Finish(call, c.consumer, c.event, at);
        } else if c.phase.Refused? {
          Release(call, c.event, c.phase.error, c.now);
        }
      }
    }

    /** Any run of any number of calls. */
    method Run(steps: seq<Step>)
      requires Now().Valid()
      modifies this
      ensures Now().Valid() && Keeps(old(Now()), Now(), Actors(steps))
    {
      for i := 0 to |steps|
        invariant Now().Valid()
        invariant Keeps(old(Now()), Now(), Actors(steps[..i]))
      {
        ghost var w := Now();
        Perform(steps[i]);
        KeepsThrough(old(Now()), w, Now(), Actors(steps[..i]), Actors([steps[i]]));
        ActorsGrow(steps, i);
      }
      assert steps[..|steps|] == steps;
    }

    /** A consumer's call, while other calls run between its steps. `refusal` is the consumer's answer, and
        `recorded` says whether the last transaction goes through. No event is ever delivered
        twice; what the call leaves behind when it fails is told by its outcome. */
    method ConsumeOne(call: nat, consumer: string, leaseMs: int, now: int, at: int, locked: set<string>,
                      refusal: Option<string>, recorded: bool, parses: string -> bool, others: (seq<Step>, seq<Step>))
      returns (r: Outcome, taken: string)
      requires Now().Valid() && call !in calls && call !in Actors(others.0) && call !in Actors(others.1)
      modifies this
      ensures Now().Valid() && Keeps(old(Now()), Now(), {call} + Actors(others.0) + Actors(others.1))
      ensures r == NoLease <==> leaseMs <= 0 || now + leaseMs > I64_MAX
      ensures r == NothingPending <==> r != NoLease && NothingToTake(old(events), now, locked)
      ensures r != NoLease && r != NothingPending ==>
                taken in old(events) && taken in events &&
                r == Ending(parses(old(events)[taken].payload), recorded, refusal) &&
                LeftRow(ClaimedRow(old(events)[taken], consumer, now + leaseMs), events[taken], r, refusal, now, at)
      ensures forall id :: r != NoLease && FirstInLine(old(events), id, now, locked) ==> taken == id
      ensures r == NoLease || r == NothingPending ==> Now() == old(Now())
      ensures r != NoLease && r != NothingPending ==> IsOldest(old(events), taken, now, locked) && taken in events
      ensures r != NoLease && r != NothingPending ==> old(deliveries)[taken] == 0
      ensures r == Delivered ==>
                refusal.None? && events[taken].state == Done && (consumer, taken) in processed && deliveries[taken] == 1
      ensures r == ConsumerRefused ==>
                refusal.Some? && events[taken].state == Pending && events[taken].lastError == refusal &&
                events[taken].availableAt == now && deliveries[taken] == 0
      ensures r == Unreadable ==>
                Now().Stuck(taken) && deliveries[taken] == 0 && !parses(old(events)[taken].payload)
      ensures r == Unrecorded ==> Now().Stuck(taken) && deliveries[taken] == if refusal.None? then 1 else 0
    {
      r, taken := Begin(call, consumer, leaseMs, now, locked);
      if r == NoLease || r == NothingPending { return; }
      ghost var w1 := Now();
      ghost var actors := {call} + Actors(others.0) + Actors(others.1);
      KeepsMore(old(Now()), w1, {call}, actors);
      r := Attend(call, consumer, taken, at, refusal, recorded, parses, others, actors);
      KeepsOn(old(Now()), w1, Now(), actors);
    }

    /** The claim of a call; without an event it is the end of it. */
    method Begin(call: nat, consumer: string, leaseMs: int, now: int, locked: set<string>)
      returns (r: Outcome, taken: string)
      requires Now().Valid() && call !in calls
      modifies this`events, this`calls
      ensures Now().Valid() && Keeps(old(Now()), Now(), {call})
      ensures r == NoLease <==> leaseMs <= 0 || now + leaseMs > I64_MAX
      ensures r == NothingPending <==> r != NoLease && NothingToTake(old(events), now, locked)
      ensures r == NoLease || r == NothingPending ==> Now() == old(Now())
      ensures forall id :: r != NoLease && FirstInLine(old(events), id, now, locked) ==> taken == id
      ensures r != NoLease && r != NothingPending ==>
                IsOldest(old(events), taken, now, locked) && old(deliveries)[taken] == 0 && taken in events &&
                call in calls && calls[call] == Call(taken, consumer, now, Claimed) &&
                events[taken] == ClaimedRow(old(events)[taken], consumer, now + leaseMs) &&
                events[taken].payload == old(events)[taken].payload
    {
      var until := LeaseUntil(now, leaseMs);
      if until.Err? { return NoLease, ""; }
      var claimed := Claim(call, consumer, until.value, now, locked);
      if claimed.None? { return NothingPending, ""; }
      r, taken := Delivered, claimed.value;
    }

    /** A call with the event it claimed. */
    method Attend(call: nat, consumer: string, id: string, at: int, refusal: Option<string>, recorded: bool,
                  parses: string -> bool, others: (seq<Step>, seq<Step>), ghost actors: set<nat>)
      returns (r: Outcome)
      requires Now().Valid() && call in calls && call !in Actors(others.0) && call !in Actors(others.1)
      requires calls[call] == Call(id, consumer, calls[call].now, Claimed)
      requires call in actors && Actors(others.0) <= actors && Actors(others.1) <= actors
      modifies this
      ensures Now().Valid() && Keeps(old(Now()), Now(), actors) && id in events
      ensures r == Ending(parses(old(events)[id].payload), recorded, refusal)
      ensures LeftRow(old(events)[id], events[id], r, refusal, old(calls[call].now), at)
      ensures r == Delivered ==>
                refusal.None? && events[id].state == Done && (consumer, id) in processed && deliveries[id] == 1
      ensures r == ConsumerRefused ==>
                refusal.Some? && events[id].state == Pending && events[id].lastError == refusal &&
                events[id].availableAt == old(calls[call].now) && deliveries[id] == 0
      ensures r == Unreadable ==> Now().Stuck(id) && deliveries[id] == 0 && !parses(old(events)[id].payload)
      ensures r == Unrecorded ==> Now().Stuck(id) && deliveries[id] == if refusal.None? then 1 else 0
    {
      var readable := parses(events[id].payload);
      RunBeside(call, others.0, actors);
      ghost var w := Now();
      r := Handle(call, consumer, id, at, refusal, recorded, readable, others.1, actors);
      KeepsOn(old(Now()), w, Now(), actors);
    }

    method Handle(call: nat, consumer: string, id: string, at: int, refusal: Option<string>, recorded: bool,
                  readable: bool, others: seq<Step>, ghost actors: set<nat>)
      returns (r: Outcome)
      requires Now().Valid() && call in calls && call !in Actors(others)
      requires calls[call] == Call(id, consumer, calls[call].now, Claimed)
      requires call in actors && Actors(others) <= actors
      modifies this
      ensures Now().Valid() && Keeps(old(Now()), Now(), actors) && id in events
      ensures r == Ending(readable, recorded, refusal)
      ensures LeftRow(old(events)[id], events[id], r, refusal, old(calls[call].now), at)
      ensures r == Delivered ==> events[id].state == Done && (consumer, id) in processed && deliveries[id] == 1
      ensures r == ConsumerRefused ==>
                events[id].state == Pending && events[id].lastError == refusal &&
                events[id].availableAt == old(calls[call].now) && deliveries[id] == 0
      ensures r == Unreadable ==> Now().Stuck(id) && deliveries[id] == 0
      ensures r == Unrecorded ==> Now().Stuck(id) && deliveries[id] == if refusal.None? then 1 else 0
    {
      if readable {
        r := Deliver(call, consumer, id, at, refusal, recorded, others, actors);
      } else {
        GiveUp(call, id, actors);
        r := Unreadable;
      }
    }

    method GiveUp(call: nat, id: string, ghost actors: set<nat>)
      requires Now().Valid() && call in calls && call in actors
      requires calls[call].event == id && calls[call].phase == Claimed
      modifies this`calls
      ensures Now().Valid() && Keeps(old(Now()), Now(), actors) && Now().Stuck(id) && deliveries[id] == 0
    {
      Die(call);
      KeepsMore(old(Now()), Now(), {call}, actors);
    }

    method RunBeside(call: nat, steps: seq<Step>, ghost actors: set<nat>)
      requires Now().Valid() && Actors(steps) <= actors && call in calls && call !in Actors(steps)
      modifies this
      ensures Now().Valid() && Keeps(old(Now()), Now(), actors)
      ensures call in calls && calls[call] == old(calls[call]) && calls[call].event in old(events)
      ensures calls[call].event in events && events[calls[call].event] == old(events[calls[call].event])
    {
      Run(steps);
      KeepsMore(old(Now()), Now(), Actors(steps), actors);
    }

    /** The delivery and the transaction that follows it. */
    method Deliver(call: nat, consumer: string, id: string, at: int, refusal: Option<string>, recorded: bool,
                   others: seq<Step>, ghost actors: set<nat>)
      returns (r: Outcome)
      requires Now().Valid() && call in calls && call !in Actors(others)
      requires calls[call] == Call(id, consumer, calls[call].now, Claimed)
      requires call in actors && Actors(others) <= actors
      modifies this
      ensures Now().Valid() && Keeps(old(Now()), Now(), actors) && id in events
      ensures r == Ending(true, recorded, refusal)
      ensures LeftRow(old(events)[id], events[id], r, refusal, old(calls[call].now), at)
      ensures r == Delivered ==> events[id].state == Done && (consumer, id) in processed && deliveries[id] == 1
      ensures r == ConsumerRefused ==>
                events[id].state == Pending && events[id].lastError == refusal &&
                events[id].availableAt == old(calls[call].now) && deliveries[id] == 0
      ensures r == Unrecorded ==> Now().Stuck(id) && deliveries[id] == if refusal.None? then 1 else 0
    {
      Consume(call, refusal);
      ghost var w1 := Now();
      KeepsMore(old(Now()), w1, {call}, actors);
      RunBeside(call, others, actors);
      ghost var w2 := Now();
      KeepsOn(old(Now()), w1, w2, actors);
      r := Conclude(call, consumer, id, at, refusal, recorded);
      KeepsMore(w2, Now(), {call}, actors);
      KeepsOn(old(Now()), w2, Now(), actors);
    }

    method Conclude(call: nat, consumer: string, id: string, at: int, refusal: Option<string>, recorded: bool)
      returns (r: Outcome)
      requires Now().Valid() && call in calls
      requires calls[call] == Call(id, consumer, calls[call].now,
                                   if refusal.None? then Consumed else Refused(refusal.value))
      modifies this
      ensures Now().Valid() && Keeps(old(Now()), Now(), {call}) && id in events
      ensures r == Ending(true, recorded, refusal)
      ensures LeftRow(old(events)[id], events[id], r, refusal, old(calls[call].now), at)
      ensures r == Delivered ==> events[id].state == Done && (consumer, id) in processed && deliveries[id] == 1
      ensures r == ConsumerRefused ==>
                events[id].state == Pending && events[id].lastError == refusal &&
                events[id].availableAt == old(calls[call].now) && deliveries[id] == 0
      ensures r == Unrecorded ==> Now().Stuck(id) && deliveries[id] == if refusal.None? then 1 else 0
    {
      if !recorded {
        Die(call);
        r := Unrecorded;
      } else if refusal.Some? {
        Release(call, id, refusal.value, calls[call].now);
        r := ConsumerRefused;
      } else {
        Finish(call, consumer, id, at);
        r := Delivered;
      }
    }
  }

  lemma {:induction false} KeepsOn(a: World, b: World, c: World, actors: set<nat>)
    requires Keeps(a, b, actors) && Keeps(b, c, actors)
    ensures Keeps(a, c, actors)
  {
    KeepsThrough(a, b, c, actors, actors);
    assert actors + actors == actors;
  }

  lemma {:induction false} KeepsMore(a: World, b: World, actors: set<nat>, more: set<nat>)
    requires Keeps(a, b, actors) && actors <= more
    ensures Keeps(a, b, more)
  {
  }

  ghost predicate IsOldest(events: map<string, Event>, oldest: string, now: int, locked: set<string>)
  {
    oldest in events && oldest !in locked && Available(events[oldest], now) &&
    forall id :: id in events && id !in locked && Available(events[id], now) ==>
      events[oldest].createdAt <= events[id].createdAt
  }
}
