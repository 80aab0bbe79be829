/** The reader of a pipe that a thread of its own reads into a channel. The thread, any number of wakers
    and the consumer share the channel; a waker sends an empty chunk. */
module Pipe {

  newtype byte = x: int | 0 <= x < 256

  datatype Message = Chunk(bytes: seq<byte>) | Failure(error: string)

  /** The reading thread: it reads until the pipe ends or fails, then clears the wakers' slot, then drops
      its own sender. */
  datatype Thread = Reading | Leaving | Cleared | Gone

  /** One thing the thread or a waker does; a step that does not fit the thread's state does nothing. */
  datatype Step = Produce(bytes: seq<byte>) | End | Fail(error: string) | Clear | Drop | Wake

  /** `Waiting` is a blocking read that has not returned yet. */
  datatype Read = Count(n: nat) | WouldBlock | Interrupted | Failed(error: string) | Waiting

  function Bytes(queue: seq<Message>): seq<byte>
  {
    if queue == [] then []
    else (match queue[0] case Chunk(bytes) => bytes case Failure(_) => []) + Bytes(queue[1..])
  }

  lemma {:induction false} BytesAppend(queue: seq<Message>, m: Message)
    ensures Bytes(queue + [m]) == Bytes(queue) + if m.Chunk? then m.bytes else []
  {
    if queue == [] {
      assert queue + [m] == [m];
    } else {
      assert (queue + [m])[1..] == queue[1..] + [m];
      BytesAppend(queue[1..], m);
    }
  }

  /** Everything behind a failure is wakes. */
  predicate FailureLast(queue: seq<Message>)
  {
    forall i, j :: 0 <= i < j < |queue| && queue[i].Failure? ==> queue[j] == Chunk([])
  }

  lemma {:induction false} WakesHoldNothing(queue: seq<Message>)
    requires forall i :: 0 <= i < |queue| ==> queue[i] == Chunk([])
    ensures Bytes(queue) == []
  {
    if queue != [] { WakesHoldNothing(queue[1..]); }
  }

  method Copy(source: seq<byte>, buffer: array<byte>)
    requires |source| <= buffer.Length
    modifies buffer
    ensures buffer[..|source|] == source && buffer[|source|..] == old(buffer[|source|..])
  {
    for i := 0 to |source|
      invariant buffer[..i] == source[..i] && buffer[i..] == old(buffer[i..])
    {
      buffer[i] := source[i];
    }
  }

  // ---- What a read answers, by the messages it takes ----

  predicate OnlyWakes(messages: seq<Message>) { forall i :: 0 <= i < |messages| ==> messages[i] == Chunk([]) }

  /** As much of the data as the buffer has room for, and the rest pending. */
  ghost predicate Served(data: seq<byte>, r: Read, buffer: seq<byte>, pending: seq<byte>)
  {
    r.Count? && r.n == (if |buffer| < |data| then |buffer| else |data|) &&
    buffer[..r.n] == data[..r.n] && pending == data[r.n..]
  }

  /** The answer of the look behind a read. */
  function Looked(r: Read): Read { if r.Count? then Count(0) else r }

  /** A look at the channel takes wakes and then, if there is one, another message; `data` is what that holds. */
  ghost predicate LookTook(before: seq<Message>, after: seq<Message>, data: seq<byte>, r: Read)
  {
    exists wakes :: OnlyWakes(wakes) &&
      ((r.Failed? && after == before + (wakes + [Failure(r.error)])) ||
       (r == Count(0) && data != [] && after == before + (wakes + [Chunk(data)])) ||
       ((r == WouldBlock || r == Count(0)) && data == [] && after == before + wakes))
  }

  function WithData(wakes: seq<Message>, data: seq<byte>): seq<Message>
  {
    if data == [] then wakes else wakes + [Chunk(data)]
  }

  lemma {:induction false} WakesThen(before: seq<Message>, wakes: seq<Message>, m: Message)
    requires OnlyWakes(wakes)
    ensures before + wakes + [m] == before + (wakes + [m])
    ensures m == Chunk([]) ==> OnlyWakes(wakes + [m])
  {
  }

  /** A wait takes one message at most: a wake interrupts it, a failure fails it, data are served. */
  ghost predicate WaitTook(before: seq<Message>, after: seq<Message>, r: Read, buffer: seq<byte>, pending: seq<byte>)
  {
    (r == Interrupted && after == before + [Chunk([])]) ||
    (r.Failed? && after == before + [Failure(r.error)]) ||
    ((r == Waiting || r == Count(0)) && pending == [] && after == before) ||
    exists data :: data != [] && after == before + [Chunk(data)] && Served(data, r, buffer, pending)
  }

  class Reader {
    var queue: seq<Message>
    var pending: seq<byte>
    var slot: bool
    var thread: Thread
    ghost var produced: seq<byte>
    ghost var delivered: seq<byte>
    ghost var failure: set<string>
    ghost var received: seq<Message>

    /** Nothing is lost, made up or reordered: what the pipe gave is what was delivered, then what is
        pending, then what is queued. The received messages are kept in a log. */
    ghost predicate Valid()
      reads this
    {
      produced == delivered + pending + Bytes(queue) && FailureLast(queue) &&
      (slot <==> thread == Reading || thread == Leaving) &&
      (forall i :: 0 <= i < |queue| && queue[i].Failure? ==> queue[i].error in failure) &&
      (failure != {} ==> thread != Reading)
    }

    /** The channel has no sender left. */
    predicate Disconnected()
      reads this
    {
      thread == Gone && !slot
    }

    /** No sender is left and the reader has been handed all that was sent. */
    ghost predicate Over()
      reads this
    {
      Disconnected() && queue == [] && pending == [] && delivered == produced
    }

    constructor ()
      ensures Valid() && thread == Reading && delivered == produced == [] && received == []
    {
      queue, pending, slot, thread := [], [], true, Reading;
      produced, delivered, failure, received := [], [], {}, [];
    }

    method Send(m: Message)
      requires Valid() && (m == Chunk([]) || (thread == Reading && (m.Failure? ==> failure == {})))
      modifies this`queue, this`produced, this`failure, this`thread
      ensures Valid() && queue == old(queue) + [m]
      ensures produced == old(produced) + if m.Chunk? then m.bytes else []
      ensures failure == old(failure) + if m.Failure? then {m.error} else {}
      ensures thread == if m.Failure? then Leaving else old(thread)
    {
      BytesAppend(queue, m);
      produced := produced + if m.Chunk? then m.bytes else [];
      failure := failure + if m.Failure? then {m.error} else {};
      queue := queue + [m];
      if m.Failure? { thread := Leaving; }
    }

    /** A wake reaches the channel exactly while the slot is filled; a wake that does not finds a pipe that
        has ended. */
    method Waker() returns (sent: bool)
      requires Valid()
      modifies this`queue, this`produced, this`failure, this`thread
      ensures Valid() && produced == old(produced) && failure == old(failure) && thread == old(thread)
      ensures sent == slot && queue == old(queue) + if sent then [Chunk([])] else []
      ensures !sent ==> thread == Cleared || thread == Gone
    {
      sent := slot;
      if slot { Send(Chunk([])); }
    }

    method Perform(step: Step)
      requires Valid()
      modifies this`queue, this`slot, this`thread, this`produced, this`failure
      ensures Valid() && Grows(old(queue), old(produced), old(failure), old(thread))
    {
      match step
      case Produce(bytes) => if thread == Reading && 0 < |bytes| <= 8192 { Send(Chunk(bytes)); }
      case Fail(error) => if thread == Reading { Send(Failure(error)); }
      case End => if thread == Reading { thread := Leaving; }
      case Clear => if thread == Leaving { slot, thread := false, Cleared; }
      case Drop => if thread == Cleared { thread := Gone; }
      case Wake => var _ := Waker();
    }

    /** What the thread and the wakers do: they only send, and a pipe that has ended sends nothing more. */
    ghost predicate Grows(before: seq<Message>, had: seq<byte>, failed: set<string>, was: Thread)
      reads this
    {
      before <= queue && had <= produced && failed <= failure &&
      (was == Gone ==> thread == Gone && queue == before && produced == had && failure == failed) &&
      (was != Reading ==> thread != Reading && produced == had && failure == failed)
    }

    method Run(steps: seq<Step>)
      requires Valid()
      modifies this`queue, this`slot, this`thread, this`produced, this`failure
      ensures Valid() && Grows(old(queue), old(produced), old(failure), old(thread))
    {
      for i := 0 to |steps|
        invariant Valid() && Grows(old(queue), old(produced), old(failure), old(thread))
      {
        Perform(steps[i]);
      }
    }

    // ---- The consumer ----

    method TakePending(buffer: array<byte>) returns (count: nat)
      requires Valid()
      modifies this`pending, this`delivered, buffer
      ensures Valid() && count == if buffer.Length < |old(pending)| then buffer.Length else |old(pending)|
      ensures buffer[..count] == old(pending)[..count] && pending == old(pending)[count..]
      ensures buffer[count..] == old(buffer[count..]) && delivered == old(delivered) + buffer[..count]
    {
      count := if buffer.Length < |pending| then buffer.Length else |pending|;
      Copy(pending[..count], buffer);
      delivered := delivered + pending[..count];
      pending := pending[count..];
    }

    /** The next message leaves the queue; a failure does so after every byte has been delivered. */
    method Receive() returns (m: Message)
      requires Valid() && pending == [] && queue != []
      modifies this`queue, this`pending, this`received
      ensures Valid() && m == old(queue)[0] && queue == old(queue)[1..] && received == old(received) + [m]
      ensures pending == if m.Chunk? then m.bytes else []
      ensures m.Failure? ==> delivered == produced && m.error in failure
    {
      m := queue[0];
      if m.Failure? { WakesHoldNothing(queue[1..]); }
      queue, received := queue[1..], received + [m];
      if m.Chunk? { pending := m.bytes; }
    }

    /** Between two looks at the channel the others do the next part of `others`. */
    method ReadAvailable(buffer: array<byte>, others: seq<seq<Step>>) returns (r: Read)
      requires Valid()
      modifies this, buffer
      ensures Valid() && Grown(old(produced), old(failure))
      ensures r.Count? ==> r.n <= buffer.Length && delivered == old(delivered) + buffer[..r.n]
      ensures !r.Count? ==> delivered == old(delivered)
      ensures buffer[(if r.Count? then r.n else 0)..] == old(buffer[if r.Count? then r.n else 0..])
      ensures r == Count(0) && buffer.Length > 0 ==> Over()
      ensures r == WouldBlock ==> queue == [] && pending == [] && delivered == produced && !Disconnected()
      ensures r.Failed? ==> r.error in failure && pending == [] && delivered == produced
      ensures r != Interrupted && r != Waiting
      ensures old(pending) != [] ==> Served(old(pending), r, buffer[..], pending) && received == old(received)
      ensures old(pending) == [] ==>
                exists data :: LookTook(old(received), received, data, Looked(r)) &&
                  (r.Count? ==> Served(data, r, buffer[..], pending))
    {
      var filled := Fill(others);
      ghost var data := pending;
      assert old(pending) == [] ==> LookTook(old(received), received, data, Looked(filled));
      if !filled.Count? || pending == [] {
        assert filled.Count? ==> Served(data, filled, buffer[..], pending);
        return filled;
      }
      var count := TakePending(buffer);
      r := Count(count);
      assert buffer[..][..count] == data[..count];
      assert Served(data, r, buffer[..], pending) && Looked(r) == Looked(filled);
    }

    /** Looks at the channel until something is pending, or there is a reason to answer without. */
    method Fill(others: seq<seq<Step>>) returns (r: Read)
      requires Valid()
      modifies this
      ensures Valid() && Grown(old(produced), old(failure)) && delivered == old(delivered)
      ensures r == Count(0) && pending == [] ==> Over()
      ensures r == WouldBlock ==> queue == [] && pending == [] && delivered == produced && !Disconnected()
      ensures r.Failed? ==> r.error in failure && pending == [] && delivered == produced
      ensures r == Count(0) || r == WouldBlock || r.Failed?
      ensures if old(pending) != [] then r == Count(0) && pending == old(pending) && received == old(received)
              else LookTook(old(received), received, pending, r)
    {
      var i := 0;
      ghost var wakes: seq<Message> := [];
      while pending == []
        invariant Valid() && Grown(old(produced), old(failure)) && delivered == old(delivered) && i <= |others|
        invariant if old(pending) != [] then pending == old(pending) && received == old(received)
                  else OnlyWakes(wakes) && received == old(received) + WithData(wakes, pending)
        decreases |others| - i, |queue|
      {
        if i < |others| {
          Run(others[i]);
          i := i + 1;
        }
        if queue == [] { return if Disconnected() then Count(0) else WouldBlock; }
        var m := Receive();
        WakesThen(old(received), wakes, m);
        if m.Failure? { return Failed(m.error); }
        if m.bytes == [] { wakes := wakes + [m]; }
      }
      r := Count(0);
    }

    ghost predicate Grown(had: seq<byte>, failed: set<string>)
      reads this
    {
      had <= produced && failed <= failure
    }

    /** Waits while the channel is empty and connected, for what the others do; a wake ends the wait as an
        interruption and never as the end of the pipe. */
    method ReadBlocking(buffer: array<byte>, others: seq<Step>) returns (r: Read)
      requires Valid()
      modifies this, buffer
      ensures Valid() && Grown(old(produced), old(failure))
      ensures r.Count? ==> r.n <= buffer.Length && delivered == old(delivered) + buffer[..r.n]
      ensures !r.Count? ==> delivered == old(delivered)
      ensures buffer[(if r.Count? then r.n else 0)..] == old(buffer[if r.Count? then r.n else 0..])
      ensures r == Count(0) && buffer.Length > 0 ==> Over()
      ensures r == Interrupted ==> pending == [] && old(pending) == []
      ensures r.Failed? ==> r.error in failure && pending == [] && delivered == produced
      ensures r == Waiting ==> queue == [] && pending == [] && !Disconnected()
      ensures r != WouldBlock
      ensures old(pending) != [] ==> Served(old(pending), r, buffer[..], pending) && received == old(received)
      ensures old(pending) == [] ==> WaitTook(old(received), received, r, buffer[..], pending)
    {
      var waited := Await(others);
      if !waited.Count? || pending == [] { return waited; }
      ghost var data := pending;
      var count := TakePending(buffer);
      r := Count(count);
      assert buffer[..][..count] == data[..count];
      assert Served(data, r, buffer[..], pending);
    }

    /** Waits until something is pending, or there is a reason to answer without. */
    method Await(others: seq<Step>) returns (r: Read)
      requires Valid()
      modifies this
      ensures Valid() && Grown(old(produced), old(failure)) && delivered == old(delivered)
      ensures r == Count(0) || r == Interrupted || r == Waiting || r.Failed?
      ensures r == Count(0) && pending == [] ==> Over()
      ensures r != Count(0) ==> pending == []
      ensures r.Failed? ==> r.error in failure && delivered == produced
      ensures r == Waiting ==> queue == [] && !Disconnected()
      ensures received == old(received) +
                if r == Interrupted then [Chunk([])] else if r.Failed? then [Failure(r.error)]
                else if r == Count(0) && old(pending) == [] && pending != [] then [Chunk(pending)] else []
      ensures old(pending) != [] ==> r == Count(0) && pending == old(pending)
    {
      if pending != [] { return Count(0); }
      var i := 0;
      while queue == [] && !Disconnected() && i < |others|
        invariant Valid() && Grown(old(produced), old(failure)) && received == old(received)
        invariant pending == [] && delivered == old(delivered) && i <= |others|
      {
        Perform(others[i]);
        i := i + 1;
      }
      if queue == [] { return if Disconnected() then Count(0) else Waiting; }
      var m := Receive();
      if m.Failure? { return Failed(m.error); }
      r := if m.bytes == [] then Interrupted else Count(0);
    }

    /** The end of the pipe is for good: whatever thread and wakers still do, every later read answers it. */
    method OverStays(others: seq<Step>)
      requires Valid() && Over()
      modifies this`queue, this`slot, this`thread, this`produced, this`failure
      ensures Valid() && Over() && produced == old(produced)
    {
      Run(others);
    }
  }
}
