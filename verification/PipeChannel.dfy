/** One direction of an MpoPipeEx: a writer thread at one end, a reader thread at the other, a kernel
    pipe between them, and a shared count of the bytes in it that both sides update under a mutex. */
module PipeChannel {

  import opened Bytes
  import opened Collections

  /** The most bytes that one call may ask for, and that the kernel pipe may hold. */
  const LIMIT: nat := 0x3FFF_FFFF

  datatype Holder = Nobody | TheWriter | TheReader

  /** Where the writer stands in BlockingWrite. `left` is still to be written, `done` has been. */
  datatype Writer =
    | WriterIdle
    | AwaitAnnounce(left: seq<byte>)
    | Announcing(left: seq<byte>)
    | Writing(left: seq<byte>, done: nat)
    | AwaitClear(ok: bool, done: nat)
    | Clearing(ok: bool, done: nat)
    | AwaitAdd(done: nat)
    | Adding(done: nat)
    | Checking
  {
    /** Bytes that are in the pipe but not yet in the count. */
    function Unadded(): nat {
      match this
      case Writing(_, done) => done
      case AwaitClear(_, done) => done
      case Clearing(_, done) => done
      case AwaitAdd(done) => done
      case Adding(done) => done
      case _ => 0
    }

    predicate Holds() {
      Announcing? || Clearing? || Adding? || Checking?
    }
  }

  /** Where the reader stands. `size` is what the caller asked for, `got` what has left the pipe. */
  datatype Reader =
    | ReaderIdle
    | Reading(size: nat)         // BlockingRead, inside read()
    | AwaitSubtract(got: nat)
    | Subtracting(got: nat)
    | AwaitPoll(size: nat)       // NonBlockingRead
    | Polling(size: nat)
    | ReadingReady(size: nat)    // inside read(), with the mutex held
    | SubtractingReady(got: nat)
    | AwaitQuery                 // GetReadBufferSize
    | Querying
    | Leaving                    // about to release the mutex
  {
    function Unsubtracted(): nat {
      match this
      case AwaitSubtract(got) => got
      case Subtracting(got) => got
      case SubtractingReady(got) => got
      case _ => 0
    }

    predicate Holds() {
      Subtracting? || Polling? || ReadingReady? || SubtractingReady? || Querying? || Leaving?
    }
  }

  /** `sent`, `received` and `seen` are what the threads have observed: all bytes ever put into and
      taken out of the pipe, and the last GetReadBufferSize if the reader has not read since. */
  datatype Channel = Channel(
    counter: int, pending: nat, mutex: Holder, pipe: seq<byte>, writer: Writer, reader: Reader,
    sent: seq<byte>, received: seq<byte>, seen: nat)

  datatype Action =
    | CallWrite(data: seq<byte>)
    | LockByWriter
    | SetPending
    | Push(n: nat)         // the kernel moves some of the bytes
    | WriteReturns
    | WriteFails
    | ClearPending
    | AddToCounter
    | PassAssertion
    | CallRead(size: nat)
    | CallReadNonBlocking(size: nat)
    | CallQuery
    | LockByReader
    | Pull(n: nat)         // read() takes bytes out of the pipe
    | ReadFails
    | PollReady
    | PollEmpty
    | SubtractFromCounter
    | ReadCounter
    | UnlockByReader

  predicate ByWriter(a: Action) {
    || a.CallWrite? || a.LockByWriter? || a.SetPending? || a.Push? || a.WriteReturns? || a.WriteFails?
    || a.ClearPending? || a.AddToCounter? || a.PassAssertion?
  }

  predicate Enabled(c: Channel, a: Action, capacity: nat) {
    match a
    case CallWrite(data) => c.writer.WriterIdle? && |data| <= LIMIT
    case LockByWriter => c.mutex == Nobody && (c.writer.AwaitAnnounce? || c.writer.AwaitClear? || c.writer.AwaitAdd?)
    case SetPending => c.writer.Announcing?
    case Push(n) => c.writer.Writing? && 0 < n <= |c.writer.left| && |c.pipe| + n <= capacity
    case WriteReturns => c.writer.Writing? && c.writer.done > 0
    case WriteFails => c.writer.Writing? && c.writer.done == 0
    case ClearPending => c.writer.Clearing?
    case AddToCounter => c.writer.Adding?
    case PassAssertion => c.writer.Checking?
    case CallRead(size) => c.reader.ReaderIdle? && size <= LIMIT
    case CallReadNonBlocking(size) => c.reader.ReaderIdle? && size <= LIMIT
    case CallQuery => c.reader.ReaderIdle?
    case LockByReader => c.mutex == Nobody && (c.reader.AwaitSubtract? || c.reader.AwaitPoll? || c.reader.AwaitQuery?)
    case Pull(n) => (c.reader.Reading? || c.reader.ReadingReady?) && 0 < n <= c.reader.size && n <= |c.pipe|
    case ReadFails => c.reader.Reading? || c.reader.ReadingReady?
    case PollReady => c.reader.Polling? && c.pipe != []
    case PollEmpty => c.reader.Polling? && c.pipe == []
    case SubtractFromCounter => c.reader.Subtracting? || c.reader.SubtractingReady?
    case ReadCounter => c.reader.Querying?
    case UnlockByReader => c.reader.Leaving?
  }

  /** The counter is a 32-bit int. */
  function Wrap(n: int): (w: int)
    ensures -0x8000_0000 <= w < 0x8000_0000
    ensures -0x8000_0000 <= n < 0x8000_0000 ==> w == n
  {
    (n + 0x8000_0000) % 0x1_0000_0000 - 0x8000_0000
  }

  function Do(c: Channel, a: Action, capacity: nat): Channel
    requires Enabled(c, a, capacity)
  {
    match a
    case CallWrite(data) => c.(writer := AwaitAnnounce(data))
    case LockByWriter =>
      c.(mutex := TheWriter,
         writer := match c.writer
                   case AwaitAnnounce(left) => Announcing(left)
                   case AwaitClear(ok, done) => Clearing(ok, done)
                   case AwaitAdd(done) => Adding(done)
                   case other => other)
    case SetPending => c.(pending := |c.writer.left|, mutex := Nobody, writer := Writing(c.writer.left, 0))
    case Push(n) =>
      c.(pipe := c.pipe + c.writer.left[..n], sent := c.sent + c.writer.left[..n],
         writer := Writing(c.writer.left[n..], c.writer.done + n))
    case WriteReturns => c.(writer := AwaitClear(true, c.writer.done))
    case WriteFails => c.(writer := AwaitClear(false, 0))
    case ClearPending =>
      c.(pending := 0, mutex := Nobody,
         writer := if c.writer.ok then AwaitAdd(c.writer.done) else WriterIdle)
    case AddToCounter => c.(counter := Wrap(c.counter + c.writer.done), writer := Checking)
    case PassAssertion => c.(mutex := Nobody, writer := WriterIdle)
    case CallRead(size) => c.(reader := Reading(size))
    case CallReadNonBlocking(size) => c.(reader := AwaitPoll(size))
    case CallQuery => c.(reader := AwaitQuery)
    case LockByReader =>
      c.(mutex := TheReader,
         reader := match c.reader
                   case AwaitSubtract(got) => Subtracting(got)
                   case AwaitPoll(size) => Polling(size)
                   case AwaitQuery => Querying
                   case other => other)
    case Pull(n) =>
      c.(pipe := c.pipe[n..], received := c.received + c.pipe[..n], seen := 0,
         reader := if c.reader.Reading? then AwaitSubtract(n) else SubtractingReady(n))
    case ReadFails => c.(reader := if c.reader.Reading? then ReaderIdle else Leaving)
    case PollReady => c.(reader := ReadingReady(c.reader.size))
    case PollEmpty => c.(reader := Leaving)
    case SubtractFromCounter => c.(counter := Wrap(c.counter - c.reader.got), reader := Leaving)
    case ReadCounter => c.(seen := if c.counter < 0 then 0 else c.counter, reader := Leaving)
    case UnlockByReader => c.(mutex := Nobody, reader := ReaderIdle)
  }

  const START := Channel(0, 0, Nobody, [], WriterIdle, ReaderIdle, [], [], 0)

  /** Some interleaving of steps of the two threads, from one state to another. */
  ghost predicate Leads(c: Channel, actions: seq<Action>, end: Channel, capacity: nat)
    decreases |actions|
  {
    if actions == [] then c == end
    else Enabled(c, actions[0], capacity) && Leads(Do(c, actions[0], capacity), actions[1..], end, capacity)
  }

  ghost predicate Reachable(c: Channel, capacity: nat) {
    exists actions :: Leads(START, actions, c, capacity)
  }

  ghost predicate Inv(c: Channel, capacity: nat) {
    // conservation of the count and of the bytes themselves
    && c.counter + c.writer.Unadded() == |c.pipe| + c.reader.Unsubtracted()
    && c.sent == c.received + c.pipe
    // the mutex is held by whoever is inside a critical section
    && (c.mutex == TheWriter <==> c.writer.Holds())
    && (c.mutex == TheReader <==> c.reader.Holds())
    // a reader that was told how much is there, or that there is something, can rely on it
    && c.seen <= |c.pipe|
    && (c.reader.ReadingReady? ==> c.pipe != [])
    && (c.reader.SubtractingReady? || c.reader.Subtracting? || c.reader.AwaitSubtract? ==> c.seen == 0)
    // sizes
    && |c.pipe| <= capacity
    && c.reader.Unsubtracted() <= LIMIT
    && (c.reader.Reading? || c.reader.AwaitPoll? || c.reader.Polling? || c.reader.ReadingReady? ==> c.reader.size <= LIMIT)
    && (match c.writer
        case Writing(left, done) => done + |left| <= LIMIT
        case AwaitAnnounce(left) => |left| <= LIMIT
        case Announcing(left) => |left| <= LIMIT
        case AwaitClear(ok, done) => done <= LIMIT && (!ok ==> done == 0)
        case Clearing(ok, done) => done <= LIMIT && (!ok ==> done == 0)
        case _ => c.writer.Unadded() <= LIMIT)
    && (c.pending == match c.writer
        case Writing(left, done) => done + |left|
        case AwaitClear(_, _) => c.pending
        case Clearing(_, _) => c.pending
        case _ => 0)
  }

  lemma WriterStepKeepsInv(c: Channel, a: Action, capacity: nat)
    requires capacity <= LIMIT && Inv(c, capacity) && Enabled(c, a, capacity) && ByWriter(a)
    ensures Inv(Do(c, a, capacity), capacity)
  {}

  lemma ReaderStepKeepsInv(c: Channel, a: Action, capacity: nat)
    requires capacity <= LIMIT && Inv(c, capacity) && Enabled(c, a, capacity) && !ByWriter(a)
    ensures Inv(Do(c, a, capacity), capacity)
  {
    if a.Pull? {
      assert c.pipe == c.pipe[..a.n] + c.pipe[a.n..];
    }
  }

  lemma {:induction false} RunKeepsInv(c: Channel, actions: seq<Action>, end: Channel, capacity: nat)
    requires capacity <= LIMIT && Inv(c, capacity) && Leads(c, actions, end, capacity)
    ensures Inv(end, capacity)
    decreases |actions|
  {
    if actions != [] {
      if ByWriter(actions[0]) {
        WriterStepKeepsInv(c, actions[0], capacity);
      } else {
        ReaderStepKeepsInv(c, actions[0], capacity);
      }
      RunKeepsInv(Do(c, actions[0], capacity), actions[1..], end, capacity);
    }
  }

  lemma ReachableInv(c: Channel, capacity: nat)
    requires capacity <= LIMIT && Reachable(c, capacity)
    ensures Inv(c, capacity)
  {
    var actions :| Leads(START, actions, c, capacity);
    RunKeepsInv(START, actions, c, capacity);
  }

  /** Every byte sent has been received or is in the pipe, in order, and the count differs from what is
      in the pipe by just what the two threads have not booked yet. */
  lemma Conservation(c: Channel, capacity: nat)
    requires capacity <= LIMIT && Reachable(c, capacity)
    ensures c.sent == c.received + c.pipe
    ensures c.counter + c.writer.Unadded() == |c.pipe| + c.reader.Unsubtracted()
    ensures c.writer.WriterIdle? && c.reader.ReaderIdle? ==> c.counter == |c.pipe|
  {
    ReachableInv(c, capacity);
  }

  /** The writer's assertion that the count is not negative never fails. */
  lemma AssertionHolds(c: Channel, capacity: nat)
    requires capacity <= LIMIT && Reachable(c, capacity) && c.writer.Checking?
    ensures c.counter >= 0
  {
    ReachableInv(c, capacity);
  }

  /** A reader that was told that `seen` bytes wait, and has not read since, will find them. */
  lemma SeenBytesWait(c: Channel, capacity: nat)
    requires capacity <= LIMIT && Reachable(c, capacity)
    ensures c.seen <= |c.pipe|
    ensures c.seen > 0 && c.reader.Reading? && c.reader.size > 0 ==> Enabled(c, Pull(1), capacity)
  {
    ReachableInv(c, capacity);
  }

  /** GetReadBufferSize answers with all bytes in the pipe but for those that the writer has yet to book: it
      never says less, and once the writer is done, just what there is. */
  lemma QueryFindsBytes(c: Channel, capacity: nat)
    requires capacity <= LIMIT && Reachable(c, capacity) && c.reader.Querying?
    ensures Do(c, ReadCounter, capacity).seen + c.writer.Unadded() >= |c.pipe|
    ensures c.writer.Unadded() <= |c.pipe| ==> Do(c, ReadCounter, capacity).seen + c.writer.Unadded() == |c.pipe|
    ensures c.writer.WriterIdle? ==> Do(c, ReadCounter, capacity).seen == |c.pipe|
  {
    ReachableInv(c, capacity);
  }

  /** Where NonBlockingRead finds bytes, it goes on to read them; where there are none, it returns. */
  lemma PollDecides(c: Channel, a: Action, capacity: nat)
    requires c.reader.Polling? && Enabled(c, a, capacity) && !ByWriter(a)
    ensures Do(c, a, capacity).reader == if c.pipe != [] then ReadingReady(c.reader.size) else Leaving
    ensures Do(c, a, capacity).pipe == c.pipe && Do(c, a, capacity).received == c.received
  {}

  /** How far the writer, or the reader, is from the end of its call. */
  function WriterSteps(w: Writer): nat {
    match w
    case AwaitAnnounce(left) => |left| + 8
    case Announcing(left) => |left| + 7
    case Writing(left, _) => |left| + 6
    case AwaitClear(_, _) => 5
    case Clearing(_, _) => 4
    case AwaitAdd(_) => 3
    case Adding(_) => 2
    case Checking => 1
    case WriterIdle => 0
  }

  function ReaderSteps(r: Reader): nat {
    match r
    case AwaitPoll(_) => 5
    case Polling(_) => 4
    case ReadingReady(_) => 3
    case SubtractingReady(_) => 2
    case Reading(_) => 4
    case AwaitSubtract(_) => 3
    case Subtracting(_) => 2
    case AwaitQuery => 3
    case Querying => 2
    case Leaving => 1
    case ReaderIdle => 0
  }

  /** Each step brings a call closer to its end, and it ends exactly where it has booked what it wrote or read,
      has answered, or where the pipe has refused. */
  lemma CallsEnd(c: Channel, a: Action, capacity: nat)
    requires Enabled(c, a, capacity)
    ensures var c' := Do(c, a, capacity);
            if ByWriter(a) then
              && c'.reader == c.reader
              && (a.CallWrite? || WriterSteps(c'.writer) < WriterSteps(c.writer))
              && (c'.writer.WriterIdle? <==> c.writer.Checking? || (c.writer.Clearing? && !c.writer.ok))
            else
              && c'.writer == c.writer
              && (a.CallRead? || a.CallReadNonBlocking? || a.CallQuery? || ReaderSteps(c'.reader) < ReaderSteps(c.reader))
              && (c'.reader.ReaderIdle? <==> c.reader.Leaving? || (c.reader.Reading? && a.ReadFails?))
              && (c'.reader.Leaving? <==>
                    a.SubtractFromCounter? || a.ReadCounter? || a.PollEmpty? || (c.reader.ReadingReady? && a.ReadFails?))
  {}

  /** The reader is about what it was called for, and takes no more than it was asked to. */
  predicate Serves(r: Reader, call: Action) {
    match r
    case Reading(size) => call == CallRead(size)
    case AwaitSubtract(got) => call.CallRead? && 0 < got <= call.size
    case Subtracting(got) => call.CallRead? && 0 < got <= call.size
    case AwaitPoll(size) => call == CallReadNonBlocking(size)
    case Polling(size) => call == CallReadNonBlocking(size)
    case ReadingReady(size) => call == CallReadNonBlocking(size)
    case SubtractingReady(got) => call.CallReadNonBlocking? && 0 < got <= call.size
    case AwaitQuery => call.CallQuery?
    case Querying => call.CallQuery?
    case _ => true
  }

  /** What the write has returned is what the writer goes on with. */
  predicate Reports(w: Writer, result: Action) {
    match w
    case AwaitClear(ok, _) => result == if ok then WriteReturns else WriteFails
    case Clearing(ok, _) => result == if ok then WriteReturns else WriteFails
    case AwaitAdd(_) => result.WriteReturns?
    case Adding(_) => result.WriteReturns?
    case Checking => result.WriteReturns?
    case _ => true
  }

  function CallAfter(a: Action, before: Action): Action {
    if a.CallRead? || a.CallReadNonBlocking? || a.CallQuery? then a else before
  }

  function ResultAfter(a: Action, before: Action): Action {
    if a.WriteReturns? || a.WriteFails? then a else before
  }

  /** The latest call of the reader, and the latest result of a write, on a run. */
  function LastCall(actions: seq<Action>, before: Action): Action {
    if actions == [] then before else LastCall(actions[1..], CallAfter(actions[0], before))
  }

  function LastResult(actions: seq<Action>, before: Action): Action {
    if actions == [] then before else LastResult(actions[1..], ResultAfter(actions[0], before))
  }

  lemma StepServes(c: Channel, a: Action, call: Action, result: Action, capacity: nat)
    requires Enabled(c, a, capacity) && Serves(c.reader, call) && Reports(c.writer, result)
    ensures Serves(Do(c, a, capacity).reader, CallAfter(a, call))
    ensures Reports(Do(c, a, capacity).writer, ResultAfter(a, result))
  {}

  lemma {:induction false} CallsAreServedFrom(c: Channel, actions: seq<Action>, end: Channel, call: Action, result: Action,
                                              capacity: nat)
    requires Leads(c, actions, end, capacity) && Serves(c.reader, call) && Reports(c.writer, result)
    ensures Serves(end.reader, LastCall(actions, call)) && Reports(end.writer, LastResult(actions, result))
    decreases |actions|
  {
    if actions != [] {
      var a := actions[0];
      StepServes(c, a, call, result, capacity);
      CallsAreServedFrom(Do(c, a, capacity), actions[1..], end, CallAfter(a, call), ResultAfter(a, result), capacity);
    }
  }

  /** At any time, the reader is about its latest call, and takes no more than that asks for; the writer adds
      what it has written exactly if the write has not failed. */
  lemma CallsAreServed(actions: seq<Action>, end: Channel, capacity: nat)
    requires Leads(START, actions, end, capacity)
    ensures Serves(end.reader, LastCall(actions, CallQuery)) && Reports(end.writer, LastResult(actions, WriteFails))
  {
    CallsAreServedFrom(START, actions, end, CallQuery, WriteFails, capacity);
  }

  /** What the calls of BlockingWrite on a run have put into the pipe: of the bytes of each call, from the first
      on, as many as the kernel has taken. */
  function Pushed(actions: seq<Action>, left: seq<byte>): seq<byte> {
    if actions == [] then []
    else
      match actions[0]
      case CallWrite(data) => Pushed(actions[1..], data)
      case Push(n) => if n <= |left| then left[..n] + Pushed(actions[1..], left[n..]) else []
      case _ => Pushed(actions[1..], left)
  }

  predicate IsLeft(w: Writer, left: seq<byte>) {
    w.AwaitAnnounce? || w.Announcing? || w.Writing? ==> left == w.left
  }

  lemma {:induction false} SentIsPushed(c: Channel, actions: seq<Action>, end: Channel, left: seq<byte>, capacity: nat)
    requires Leads(c, actions, end, capacity) && IsLeft(c.writer, left)
    ensures end.sent == c.sent + Pushed(actions, left)
    decreases |actions|
  {
    if actions == [] {
      assert c.sent + [] == c.sent;
    } else {
      var a, c' := actions[0], Do(c, actions[0], capacity);
      match a
      case CallWrite(data) => SentIsPushed(c', actions[1..], end, data, capacity);
      case Push(n) =>
        SentIsPushed(c', actions[1..], end, left[n..], capacity);
        Regroup3(c.sent, left[..n], Pushed(actions[1..], left[n..]));
      case _ => SentIsPushed(c', actions[1..], end, left, capacity);
    }
  }

  /** So what the reader has received and what is in the pipe are the bytes of the calls, in order. */
  lemma BytesAreTheWriters(actions: seq<Action>, end: Channel, capacity: nat)
    requires capacity <= LIMIT && Leads(START, actions, end, capacity)
    ensures Pushed(actions, []) == end.received + end.pipe
  {
    assert Reachable(end, capacity);
    Conservation(end, capacity);
    SentIsPushed(START, actions, end, [], capacity);
    assert [] + Pushed(actions, []) == Pushed(actions, []);
  }

  /** Whoever holds the mutex can take a step without the other thread: nobody blocks inside it. In
      particular the read of NonBlockingRead does not. */
  lemma HolderNeverWaits(c: Channel, capacity: nat)
    requires capacity <= LIMIT && Reachable(c, capacity)
    ensures c.mutex == TheWriter ==> exists a :: ByWriter(a) && Enabled(c, a, capacity)
    ensures c.mutex == TheReader ==> exists a :: !ByWriter(a) && Enabled(c, a, capacity)
    ensures c.reader.ReadingReady? && c.reader.size > 0 ==> Enabled(c, Pull(1), capacity)
  {
    ReachableInv(c, capacity);
    if c.mutex == TheWriter {
      var a := match c.writer
        case Announcing(_) => SetPending
        case Clearing(_, _) => ClearPending
        case Adding(_) => AddToCounter
        case _ => PassAssertion;
      assert ByWriter(a) && Enabled(c, a, capacity);
    }
    if c.mutex == TheReader {
      var a := match c.reader
        case Polling(_) => if c.pipe == [] then PollEmpty else PollReady
        case ReadingReady(_) => ReadFails
        case Querying => ReadCounter
        case Leaving => UnlockByReader
        case _ => SubtractFromCounter;
      assert !ByWriter(a) && Enabled(c, a, capacity);
    }
  }

  lemma LeadsBack(c: Channel, a: Action, rest: seq<Action>, end: Channel, capacity: nat)
    requires Enabled(c, a, capacity) && Leads(Do(c, a, capacity), rest, end, capacity)
    ensures Leads(c, [a] + rest, end, capacity)
  {
    assert ([a] + rest)[1..] == rest;
  }

  lemma {:induction false} LeadsOn(c: Channel, actions: seq<Action>, end: Channel, a: Action, capacity: nat)
    requires Leads(c, actions, end, capacity) && Enabled(end, a, capacity)
    ensures Leads(c, actions + [a], Do(end, a, capacity), capacity)
    decreases |actions|
  {
    if actions != [] {
      LeadsOn(Do(c, actions[0], capacity), actions[1..], end, a, capacity);
      assert (actions + [a])[1..] == actions[1..] + [a];
    }
  }

  lemma ReachOn(c: Channel, a: Action, capacity: nat)
    requires Reachable(c, capacity) && Enabled(c, a, capacity)
    ensures Reachable(Do(c, a, capacity), capacity)
  {
    var actions :| Leads(START, actions, c, capacity);
    LeadsOn(START, actions, c, a, capacity);
  }

  lemma OneByteSlices(b: byte)
    ensures [b][..1] == [b] && [b][1..] == [] && [] + [b] == [b]
  {}

  lemma OneByteInThePipe()
    ensures Reachable(Channel(0, 1, Nobody, [7], Writing([], 1), ReaderIdle, [7], [], 0), 1)
  {
    assert Leads(START, [], START, 1);
    ReachOn(START, CallWrite([7]), 1);
    var called := START.(writer := AwaitAnnounce([7]));
    ReachOn(called, LockByWriter, 1);
    var locked := called.(mutex := TheWriter, writer := Announcing([7]));
    ReachOn(locked, SetPending, 1);
    var writing := START.(pending := 1, writer := Writing([7], 0));
    ReachOn(writing, Push(1), 1);
    OneByteSlices(7);
  }

  /** The count really can be negative: a reader may book bytes before the writer does. */
  lemma CounterCanBeNegative()
    ensures exists c :: Reachable(c, 1) && c.counter < 0
  {
    OneByteInThePipe();
    var pushed := Channel(0, 1, Nobody, [7], Writing([], 1), ReaderIdle, [7], [], 0);
    ReachOn(pushed, CallRead(1), 1);
    var reading := pushed.(reader := Reading(1));
    ReachOn(reading, Pull(1), 1);
    OneByteSlices(7);
    var pulled := pushed.(pipe := [], received := [7], reader := AwaitSubtract(1));
    ReachOn(pulled, LockByReader, 1);
    var locked := pulled.(mutex := TheReader, reader := Subtracting(1));
    ReachOn(locked, SubtractFromCounter, 1);
  }
}
