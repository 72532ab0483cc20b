/** A child process's two output listeners, and the parent that launches, reads and shuts down: every
    step of LaunchTemplate's thread part, Shutdown, ReadStdOutEx, ReadStdErrEx, AddToBuf and the two
    thread procedures, in any interleaving. */
module Process {
  import opened Bytes
  import opened Collections

  /** The size above which a buffer makes its listener wait. */
  const MAX_BUFFER: nat := 1024 * 1024 * 10

  /** The most that a listener reads at once. */
  const READ_SIZE: nat := 16384

  datatype Side = Out | Err

  /** Where a listener thread stands. */
  datatype Thread =
    | NoThread
    | Starting             // created, about to announce that it runs
    | AwaitAck
    | Looping              // about to look whether it should still be running
    | Reading              // inside read()
    | Holding(chunk: seq<byte>)
    | Appending(chunk: seq<byte>)
    | Measuring
    | Releasing(size: nat)
    | Checking(size: nat)
    | Delaying             // the buffer was too big
    | Failing
    | Recording            // the error, under the mutex
    | Leaving              // about to announce that it no longer runs
    | Exited
  {
    predicate Runs() {
      !NoThread? && !Starting? && !Exited?
    }

    predicate HoldsMutex() {
      Appending? || Measuring? || Releasing? || Recording?
    }

    /** Read from the child, but not yet in the buffer. */
    function InHand(): seq<byte> {
      match this
      case Holding(chunk) => chunk
      case Appending(chunk) => chunk
      case _ => []
    }

    /** An upper bound of the steps it takes to exit, once it should no longer be running. */
    function Rank(): nat {
      match this
      case Starting => 11
      case AwaitAck => 10
      case Reading => 9
      case Holding(_) => 8
      case Appending(_) => 7
      case Delaying => 7
      case Measuring => 6
      case Releasing(_) => 5
      case Checking(_) => 4
      case Looping => 3
      case Failing => 3
      case Recording => 2
      case Leaving => 1
      case NoThread => 0
      case Exited => 0
    }
  }

  /** One output of the child. `log`, `returned`, `started`, `joined`, `ceiling` and `ended` are history: all
      bytes read from the child, all that the reading function has returned, how many threads there have
      been and have been waited for, the larger of MAX_BUFFER and the size of the buffer when the latest
      thread was created, and what that has come to. */
  datatype Listener = Listener(
    thread: Thread, running: bool, needsJoin: bool, buf: seq<byte>,
    log: seq<byte>, returned: seq<byte>, started: nat, joined: nat, ceiling: nat, ended: Ending)

  /** What the latest read from the child has come to: bytes, the end, or an error, which is yet to be recorded or
      has been. */
  datatype Ending = NotYet | AtEnd | InError(recorded: bool)

  /** What a shutdown is for. */
  datatype Goal = Relaunch(out: bool, err: bool) | Destruct

  /** What a thread is waited for. */
  datatype Task = Shutdown(goal: Goal) | FinalRead

  /** Where the parent stands. */
  datatype Parent =
    | Idle
    | Destroyed
    | Quitting(goal: Goal)                        // Shutdown
    | Testing(side: Side, task: Task)
    | Joining(side: Side, task: Task)
    | Joined(side: Side, task: Task)
    | Asserting(side: Side, goal: Goal)
    | Spawning(out: bool, err: bool)              // LaunchTemplate, after Shutdown
    | Raising(out: bool, err: bool)
    | Unacking(out: bool, err: bool)
    | Creating(side: Side, more: bool)            // `more`: standard error is still to be listened to
    | Noting(side: Side, more: bool)
    | Spinning(side: Side, more: bool)
    | Acking
    | TestingFinal(side: Side)                    // ReadStdOutEx, ReadStdErrEx
    | Locking(side: Side, final: bool)
    | Copying(side: Side, final: bool)
    | Clearing(side: Side, final: bool, res: seq<byte>)
    | Returning(side: Side, final: bool, res: seq<byte>)
  {
    predicate HoldsMutex() {
      Copying? || Clearing? || Returning?
    }

    /** Taken out of the buffer of `side`, but not yet returned. */
    function Taken(side: Side): seq<byte> {
      if Returning? && this.side == side then res else []
    }

    /** The output that the parent's step is concerned with, if any. */
    function Concern(): Side {
      match this
      case Testing(side, _) => side
      case Joining(side, _) => side
      case Joined(side, _) => side
      case Asserting(side, _) => side
      case Creating(side, _) => side
      case Noting(side, _) => side
      case Spinning(side, _) => side
      case TestingFinal(side) => side
      case Locking(side, _) => side
      case Copying(side, _) => side
      case Clearing(side, _, _) => side
      case Returning(side, _, _) => side
      case _ => Out
    }

    predicate Launching() {
      Creating? || Noting? || Spinning? || Acking?
    }

    /** In a final read, behind the look at the child. */
    predicate Final() {
      || ((Testing? || Joining? || Joined?) && task.FinalRead?)
      || ((Locking? || Copying? || Clearing? || Returning?) && final)
    }

    predicate ShuttingDown() {
      ((Testing? || Joining? || Joined?) && task.Shutdown?) || Asserting?
    }
  }

  datatype Owner = Nobody | TheParent | Thread(side: Side)

  /** `call` is history: the latest call of Launch, of the destructor or of a reading function. */
  datatype State = State(
    should: bool, ack: bool, childRunning: bool, mutex: Owner, parent: Parent, out: Listener, err: Listener,
    call: Action)
  {
    function At(side: Side): Listener {
      if side == Out then out else err
    }

    function Put(side: Side, l: Listener): State {
      if side == Out then this.(out := l) else this.(err := l)
    }
  }

  const NEW := Listener(NoThread, false, false, [], [], [], 0, 0, MAX_BUFFER, NotYet)
  const START := State(false, false, false, Nobody, Idle, NEW, NEW, Destroy)

  datatype Action =
    | Launch(out: bool, err: bool)
    | Destroy
    | Read(side: Side, final: bool)
    | ChildEnds                          // as found by Wait, or by force
    | Spawn(ok: bool)                    // pipe() and fork()
    | Step                               // of the parent
    | Receive(side: Side, chunk: seq<byte>)
    | ReadFails(side: Side)
    | EndOfFile(side: Side)
    | Listen(side: Side)                 // any other step of a listener

  predicate Enabled(s: State, a: Action) {
    match a
    case Launch(_, _) => s.parent.Idle?
    case Destroy => s.parent.Idle?
    case Read(_, _) => s.parent.Idle?
    case ChildEnds => s.parent.Idle? && s.childRunning
    case Spawn(_) => s.parent.Spawning?
    case Step =>
      if s.parent.Joining? then s.At(s.parent.side).thread.Exited?
      else if s.parent.Locking? then s.mutex == Nobody
      else !s.parent.Idle? && !s.parent.Destroyed? && !s.parent.Spawning?
    case Receive(side, chunk) => s.At(side).thread.Reading? && 0 < |chunk| <= READ_SIZE
    case ReadFails(side) => s.At(side).thread.Reading?
    case EndOfFile(side) => s.At(side).thread.Reading?
    case Listen(side) =>
      var t := s.At(side).thread;
      if t.Holding? || t.Delaying? || t.Failing? then s.mutex == Nobody
      else !t.NoThread? && !t.Reading? && !t.Exited?
  }

  /** Where Shutdown goes after it has dealt with the thread of `side`. */
  function AfterJoin(side: Side, goal: Goal): Parent {
    if side == Out then Testing(Err, Shutdown(goal))
    else match goal
         case Relaunch(out, err) => Spawning(out, err)
         case Destruct => Destroyed
  }

  /** Where the parent's step takes it; `l` is the listener it is concerned with, if any. */
  function Next(p: Parent, l: Listener, childRunning: bool): Parent {
    match p
    case Quitting(goal) => Testing(Out, Shutdown(goal))
    case Testing(side, task) =>
      if l.needsJoin then Joining(side, task) else if task.Shutdown? then AfterJoin(side, task.goal) else Locking(side, true)
    case Joining(side, task) => Joined(side, task)
    case Joined(side, task) => if task.Shutdown? then Asserting(side, task.goal) else Locking(side, true)
    case Asserting(side, goal) => AfterJoin(side, goal)
    case Raising(out, err) => Unacking(out, err)
    case Unacking(out, err) => if out then Creating(Out, err) else if err then Creating(Err, false) else Acking
    case Creating(side, more) => Noting(side, more)
    case Noting(side, more) => Spinning(side, more)
    case Spinning(side, more) =>
      if !l.running then p else if side == Out && more then Creating(Err, false) else Acking
    case Acking => Idle
    case TestingFinal(side) => if childRunning then Idle else Testing(side, FinalRead)
    case Locking(side, final) => Copying(side, final)
    case Copying(side, final) => Clearing(side, final, l.buf)
    case Clearing(side, final, res) => Returning(side, final, res)
    case Returning(side, final, res) => Idle
    case _ => p
  }

  /** What the parent's step does to the listener it is concerned with. */
  function Affect(p: Parent, l: Listener): Listener {
    match p
    case Joining(_, _) => l.(thread := NoThread, joined := l.joined + 1)
    case Joined(_, _) => l.(needsJoin := false)
    case Creating(_, _) =>
      l.(thread := Starting, started := l.started + 1, ceiling := if |l.buf| > MAX_BUFFER then |l.buf| else MAX_BUFFER,
         ended := NotYet)
    case Noting(_, _) => l.(needsJoin := true)
    case Clearing(_, _, _) => l.(buf := [])
    case Returning(_, _, res) => l.(returned := l.returned + res)
    case _ => l
  }

  function DoParent(s: State): State
    requires Enabled(s, Step)
  {
    var p := s.parent;
    var side := p.Concern();
    State(if p.Quitting? then false else if p.Raising? then true else s.should,
          if p.Unacking? then false else if p.Acking? then true else s.ack,
          s.childRunning,
          if p.Locking? then TheParent else if p.Returning? then Nobody else s.mutex,
          Next(p, s.At(side), s.childRunning),
          if side == Out then Affect(p, s.out) else s.out,
          if side == Err then Affect(p, s.err) else s.err,
          s.call)
  }

  /** What a read from the child does to the listener. */
  function Got(l: Listener, a: Action): Listener {
    match a
    case Receive(_, chunk) => l.(thread := Holding(chunk), log := l.log + chunk)
    case ReadFails(_) => l.(thread := Failing, ended := InError(false))
    case EndOfFile(_) => l.(thread := Leaving, ended := AtEnd)
    case _ => l
  }

  /** A step of a listener that it can take without reading from the child. */
  function Move(l: Listener, should: bool, ack: bool): Listener {
    match l.thread
    case Starting => l.(running := true, thread := AwaitAck)
    case AwaitAck => if ack then l.(thread := Looping) else l
    case Looping => l.(thread := if should then Reading else Leaving)
    case Holding(chunk) => l.(thread := Appending(chunk))
    case Appending(chunk) => l.(buf := l.buf + chunk, thread := Measuring)
    case Measuring => l.(thread := Releasing(|l.buf|))
    case Releasing(size) => l.(thread := Checking(size))
    case Checking(size) => l.(thread := if size > MAX_BUFFER && should then Delaying else Looping)
    case Delaying => l.(thread := Measuring)
    case Failing => l.(thread := Recording)
    case Recording => l.(thread := Leaving, ended := InError(true))
    case Leaving => l.(running := false, thread := Exited)
    case _ => l
  }

  function DoListener(s: State, side: Side): State
    requires Enabled(s, Listen(side))
  {
    var t := s.At(side).thread;
    var mutex := if t.Holding? || t.Delaying? || t.Failing? then Thread(side)
                 else if t.Releasing? || t.Recording? then Nobody else s.mutex;
    s.(mutex := mutex).Put(side, Move(s.At(side), s.should, s.ack))
  }

  function Do(s: State, a: Action): State
    requires Enabled(s, a)
  {
    match a
    case Launch(out, err) => s.(parent := Quitting(Relaunch(out, err)), call := a)
    case Destroy => s.(parent := Quitting(Destruct), call := a)
    case Read(side, final) => s.(parent := if final then TestingFinal(side) else Locking(side, false), call := a)
    case ChildEnds => s.(childRunning := false)
    case Spawn(ok) =>
      if ok then s.(childRunning := true, parent := Raising(s.parent.out, s.parent.err)) else s.(parent := Idle)
    case Step => DoParent(s)
    case Receive(side, _) => s.Put(side, Got(s.At(side), a))
    case ReadFails(side) => s.Put(side, Got(s.At(side), a))
    case EndOfFile(side) => s.Put(side, Got(s.At(side), a))
    case Listen(side) => DoListener(s, side)
  }

  /** Some interleaving of steps, from one state to another. */
  ghost predicate Leads(s: State, actions: seq<Action>, end: State)
    decreases |actions|
  {
    if actions == [] then s == end
    else Enabled(s, actions[0]) && Leads(Do(s, actions[0]), actions[1..], end)
  }

  ghost predicate Reachable(s: State) {
    exists actions :: Leads(START, actions, s)
  }

  /** No thread, and none to wait for. */
  predicate Clear(l: Listener) {
    l.thread.NoThread? && !l.needsJoin
  }

  /** What holds of the handshake of each listener with the parent. */
  predicate Handshake(l: Listener, side: Side, p: Parent, ack: bool) {
    && l.running == l.thread.Runs()
    && l.started == l.joined + (if l.thread.NoThread? then 0 else 1)
    // a thread is to be waited for, but for an instant after its creation and one after the wait
    && (if p.Noting? && p.side == side then !l.needsJoin && !l.thread.NoThread?
        else if p.Joined? && p.side == side then l.needsJoin && l.thread.NoThread?
        else l.needsJoin == !l.thread.NoThread?)
    && (p.Joining? && p.side == side ==> l.needsJoin)
    // Shutdown leaves nothing behind
    && (p.Asserting? && p.side == side ==> Clear(l))
    && (p.ShuttingDown() && p.side == Err && side == Out ==> Clear(l))
    && (p.Spawning? || p.Raising? || p.Unacking? || p.Destroyed? ==> Clear(l))
    && (p.Creating? && (p.side == side || side == Err) ==> Clear(l))
    && ((p.Noting? || p.Spinning?) && p.side == Out && side == Err ==> Clear(l))
    && ((p.Locking? || p.Copying? || p.Clearing? || p.Returning?) && p.final && p.side == side ==> Clear(l))
    // nobody gets past the acknowledgement before it is given
    && (p.Launching() ==> l.thread.NoThread? || l.thread.Starting? || l.thread.AwaitAck?)
    && ((p.Noting? || p.Spinning?) && p.side == side ==> !l.thread.NoThread?)
    && (p.Launching() && l.thread.Starting? ==> (p.Noting? || p.Spinning?) && p.side == side)
    && (!p.Launching() && !l.thread.NoThread? ==> ack)
  }

  /** What holds of the bytes and sizes of each output. */
  predicate Conserved(l: Listener, side: Side, p: Parent) {
    && l.log == l.returned + p.Taken(side) + l.buf + l.thread.InHand()
    && (p.Clearing? && p.side == side ==> p.res == l.buf)
    && (p.Returning? && p.side == side ==> l.buf == [])
  }

  predicate Bounded(l: Listener, should: bool) {
    var t := l.thread;
    && MAX_BUFFER <= l.ceiling <= MAX_BUFFER + READ_SIZE * (if l.started == 0 then 0 else l.started - 1)
    && |t.InHand()| <= READ_SIZE
    && (t.NoThread? && l.started == 0 ==> l.buf == [])
    && |l.buf| <= l.ceiling + READ_SIZE
    && Sized(l, should)
  }

  /** How big the buffer may be where the listener stands. */
  predicate Sized(l: Listener, should: bool) {
    var t := l.thread;
    && (t.Starting? || t.AwaitAck? || t.Reading? || t.Holding? || t.Appending? ==> |l.buf| <= l.ceiling)
    && (t.Looping? && should ==> |l.buf| <= l.ceiling)
    && (t.Releasing? || t.Checking? ==> |l.buf| <= t.size)
  }

  predicate Bytewise(l: Listener, side: Side, p: Parent, should: bool) {
    Conserved(l, side, p) && Bounded(l, should)
  }

  /** The mutex is held by whoever is between Lock and Unlock. */
  predicate Locked(s: State) {
    && (s.mutex == TheParent <==> s.parent.HoldsMutex())
    && (s.mutex == Thread(Out) <==> s.out.thread.HoldsMutex())
    && (s.mutex == Thread(Err) <==> s.err.thread.HoldsMutex())
  }

  predicate Inv(s: State) {
    && Locked(s)
    && (s.parent.ShuttingDown() ==> !s.should)
    && (s.parent.Launching() ==> !s.ack)
    && Handshake(s.out, Out, s.parent, s.ack) && Handshake(s.err, Err, s.parent, s.ack)
    && Bytewise(s.out, Out, s.parent, s.should) && Bytewise(s.err, Err, s.parent, s.should)
  }

  lemma MoveKeepsHandshake(l: Listener, side: Side, p: Parent, should: bool, ack: bool)
    requires Handshake(l, side, p, ack) && (p.Launching() ==> !ack)
    ensures Handshake(Move(l, should, ack), side, p, ack)
  {}

  lemma MoveKeepsConserved(l: Listener, side: Side, p: Parent, should: bool, ack: bool)
    requires Conserved(l, side, p) && !l.thread.Appending?
    ensures Conserved(Move(l, should, ack), side, p)
  {}

  lemma MoveKeepsBounded(l: Listener, should: bool, ack: bool)
    requires Bounded(l, should) && !l.thread.Appending?
    ensures Bounded(Move(l, should, ack), should)
  {
    MoveKeepsSized(l, should, ack);
  }

  lemma MoveKeepsSized(l: Listener, should: bool, ack: bool)
    requires Sized(l, should) && MAX_BUFFER <= l.ceiling && !l.thread.Appending?
    ensures Sized(Move(l, should, ack), should)
  {}

  lemma AppendKeepsBytes(l: Listener, side: Side, p: Parent, should: bool, ack: bool)
    requires Bytewise(l, side, p, should) && l.thread.Appending? && !p.HoldsMutex()
    ensures Bytewise(Move(l, should, ack), side, p, should)
  {
    MovedIntoBuffer(l.returned + p.Taken(side), l.buf, l.thread.chunk);
  }

  lemma MovedIntoBuffer(done: seq<byte>, buf: seq<byte>, chunk: seq<byte>)
    ensures done + buf + chunk == done + (buf + chunk) + []
  {}

  lemma ListenerStepKeepsInv(s: State, side: Side, s': State)
    requires Inv(s) && Enabled(s, Listen(side)) && s' == DoListener(s, side)
    ensures Inv(s')
  {
    ListenerKeepsLocked(s, side, s');
    MoveKeepsHandshake(s.At(side), side, s.parent, s.should, s.ack);
    if s.At(side).thread.Appending? {
      AppendKeepsBytes(s.At(side), side, s.parent, s.should, s.ack);
    } else {
      MoveKeepsConserved(s.At(side), side, s.parent, s.should, s.ack);
      MoveKeepsBounded(s.At(side), s.should, s.ack);
    }
  }

  lemma ListenerKeepsLocked(s: State, side: Side, s': State)
    requires Locked(s) && Enabled(s, Listen(side)) && s' == DoListener(s, side)
    ensures Locked(s')
  {
    MoveLocks(s.At(side), s.should, s.ack);
  }

  lemma MoveLocks(l: Listener, should: bool, ack: bool)
    ensures Move(l, should, ack).thread.HoldsMutex() <==>
              || l.thread.Holding? || l.thread.Delaying? || l.thread.Failing?
              || (l.thread.HoldsMutex() && !l.thread.Releasing? && !l.thread.Recording?)
  {}

  lemma ReadKeepsListener(l: Listener, side: Side, p: Parent, should: bool, ack: bool, a: Action)
    requires Handshake(l, side, p, ack) && Bytewise(l, side, p, should) && l.thread.Reading?
    requires a.Receive? ==> |a.chunk| <= READ_SIZE
    ensures Handshake(Got(l, a), side, p, ack) && Bytewise(Got(l, a), side, p, should)
  {}

  lemma ReadKeepsInv(s: State, a: Action, s': State)
    requires Inv(s) && Enabled(s, a) && (a.Receive? || a.ReadFails? || a.EndOfFile?) && s' == Do(s, a)
    ensures Inv(s')
  {
    ReadKeepsListener(s.At(a.side), a.side, s.parent, s.should, s.ack, a);
  }

  predicate IsCall(a: Action) {
    a.Launch? || a.Destroy? || a.Read? || a.ChildEnds? || a.Spawn?
  }

  /** Where a call takes the parent, or the end of pipe() and fork(). */
  predicate Calls(p: Parent, p': Parent) {
    || p' == p
    || (p.Idle? && (p'.Quitting? || p'.TestingFinal? || (p'.Locking? && !p'.final)))
    || (p.Spawning? && (p'.Raising? || p'.Idle?))
  }

  lemma CallKeepsListener(l: Listener, side: Side, p: Parent, p': Parent, should: bool, ack: bool)
    requires Handshake(l, side, p, ack) && Bytewise(l, side, p, should) && Calls(p, p')
    ensures Handshake(l, side, p', ack) && Bytewise(l, side, p', should)
  {}

  lemma CallIsParents(s: State, a: Action, s': State)
    requires Inv(s) && Enabled(s, a) && IsCall(a) && s' == Do(s, a)
    ensures s'.out == s.out && s'.err == s.err && s'.mutex == s.mutex && s'.should == s.should && s'.ack == s.ack
    ensures Calls(s.parent, s'.parent) && s.parent.HoldsMutex() == s'.parent.HoldsMutex()
    ensures (s'.parent.ShuttingDown() ==> !s.should) && (s'.parent.Launching() ==> !s.ack)
  {}

  lemma CallKeepsInv(s: State, a: Action, s': State)
    requires Inv(s) && Enabled(s, a) && IsCall(a) && s' == Do(s, a)
    ensures Inv(s')
  {
    CallIsParents(s, a, s');
    CallKeepsListener(s.out, Out, s.parent, s'.parent, s.should, s.ack);
    CallKeepsListener(s.err, Err, s.parent, s'.parent, s.should, s.ack);
  }

  lemma ParentKeepsHandshake(p: Parent, side: Side, l: Listener, other: Listener, childRunning: bool, ack: bool)
    requires Handshake(l, side, p, ack)
    requires p.Joining? && p.side == side ==> l.thread.Exited?
    ensures p.Concern() == side ==> Handshake(Affect(p, l), side, Next(p, l, childRunning), (ack || p.Acking?) && !p.Unacking?)
    ensures p.Concern() != side ==> Handshake(l, side, Next(p, other, childRunning), (ack || p.Acking?) && !p.Unacking?)
  {}

  lemma ParentKeepsBytes(p: Parent, side: Side, l: Listener, other: Listener, childRunning: bool, ack: bool, should: bool)
    requires Handshake(l, side, p, ack) && Bytewise(l, side, p, should)
    requires p.HoldsMutex() ==> !l.thread.HoldsMutex()
    requires p.Joining? && p.side == side ==> l.thread.Exited?
    ensures p.Concern() == side ==> Bytewise(Affect(p, l), side, Next(p, l, childRunning), (should || p.Raising?) && !p.Quitting?)
    ensures p.Concern() != side ==> Bytewise(l, side, Next(p, other, childRunning), (should || p.Raising?) && !p.Quitting?)
  {
    if p.Concern() == side {
      OwnBytesKept(p, side, l, childRunning, ack, should);
    }
  }

  lemma OwnBytesKept(p: Parent, side: Side, l: Listener, childRunning: bool, ack: bool, should: bool)
    requires Handshake(l, side, p, ack) && Bytewise(l, side, p, should) && p.Concern() == side
    requires p.HoldsMutex() ==> !l.thread.HoldsMutex()
    requires p.Joining? && p.side == side ==> l.thread.Exited?
    ensures Bytewise(Affect(p, l), side, Next(p, l, childRunning), (should || p.Raising?) && !p.Quitting?)
  {
    OwnBytesConserved(p, side, l, childRunning, ack);
  }

  lemma OwnBytesConserved(p: Parent, side: Side, l: Listener, childRunning: bool, ack: bool)
    requires Handshake(l, side, p, ack) && Conserved(l, side, p) && p.Concern() == side
    requires p.Joining? && p.side == side ==> l.thread.Exited?
    ensures Conserved(Affect(p, l), side, Next(p, l, childRunning))
  {}

  lemma ParentKeepsLocked(s: State, s': State)
    requires Inv(s) && Enabled(s, Step) && s' == DoParent(s)
    ensures Locked(s')
  {}

  lemma ParentKeepsFlags(p: Parent, l: Listener, childRunning: bool, should: bool, ack: bool)
    requires (p.ShuttingDown() ==> !should) && (p.Launching() ==> !ack)
    ensures Next(p, l, childRunning).ShuttingDown() ==> !((should || p.Raising?) && !p.Quitting?)
    ensures Next(p, l, childRunning).Launching() ==> !((ack || p.Acking?) && !p.Unacking?)
  {}

  lemma ParentKeepsListener(s: State, side: Side, s': State)
    requires Inv(s) && Enabled(s, Step) && s' == DoParent(s)
    ensures Handshake(s'.At(side), side, s'.parent, s'.ack) && Bytewise(s'.At(side), side, s'.parent, s'.should)
  {
    var other := s.At(s.parent.Concern());
    ParentKeepsHandshake(s.parent, side, s.At(side), other, s.childRunning, s.ack);
    ParentKeepsBytes(s.parent, side, s.At(side), other, s.childRunning, s.ack, s.should);
  }

  lemma ParentStepKeepsInv(s: State, s': State)
    requires Inv(s) && Enabled(s, Step) && s' == DoParent(s)
    ensures Inv(s')
  {
    ParentKeepsLocked(s, s');
    ParentKeepsFlags(s.parent, s.At(s.parent.Concern()), s.childRunning, s.should, s.ack);
    ParentKeepsListener(s, Out, s');
    ParentKeepsListener(s, Err, s');
  }

  lemma StepKeepsInv(s: State, a: Action)
    requires Inv(s) && Enabled(s, a)
    ensures Inv(Do(s, a))
  {
    match a
    case Step => ParentStepKeepsInv(s, Do(s, a));
    case Listen(side) => ListenerStepKeepsInv(s, side, Do(s, a));
    case Receive(_, _) => ReadKeepsInv(s, a, Do(s, a));
    case ReadFails(_) => ReadKeepsInv(s, a, Do(s, a));
    case EndOfFile(_) => ReadKeepsInv(s, a, Do(s, a));
    case _ => CallKeepsInv(s, a, Do(s, a));
  }

  lemma {:induction false} RunKeepsInv(s: State, actions: seq<Action>, end: State)
    requires Inv(s) && Leads(s, actions, end)
    ensures Inv(end)
    decreases |actions|
  {
    if actions != [] {
      StepKeepsInv(s, actions[0]);
      RunKeepsInv(Do(s, actions[0]), actions[1..], end);
    }
  }

  lemma ReachableInv(s: State)
    requires Reachable(s)
    ensures Inv(s)
  {
    var actions :| Leads(START, actions, s);
    RunKeepsInv(START, actions, s);
  }

  /** While the parent waits for a new thread to announce itself, the thread is either about to do so or
      has done so and waits for the parent: the announcement cannot be missed, and no step of anyone but
      the parent takes it back. */
  lemma LaunchNeverMisses(s: State, a: Action)
    requires Reachable(s) && s.parent.Spinning? && Enabled(s, a)
    ensures var side := s.parent.side;
            && (s.At(side).thread.Starting? || s.At(side).thread.AwaitAck?)
            && (!s.At(side).running ==> Enabled(s, Listen(side)) && Do(s, Listen(side)).At(side).running)
            && (s.At(side).running && a != Step ==> Do(s, a).At(side).running && Do(s, a).parent == s.parent)
            && (s.At(side).running ==> Do(s, Step).parent != s.parent)
  {
    ReachableInv(s);
  }

  /** A listener waits for the acknowledgement only while Launch has yet to give it. */
  lemma AckIsGiven(s: State, side: Side)
    requires Reachable(s) && s.At(side).thread.AwaitAck?
    ensures s.ack || s.parent.Launching()
  {
    ReachableInv(s);
  }

  /** The assertions in Shutdown never fail. */
  lemma AssertionsHold(s: State)
    requires Reachable(s) && s.parent.Asserting?
    ensures !s.At(s.parent.side).running
  {
    ReachableInv(s);
  }

  /** Every thread is waited for exactly once: before the next one for the same output is created, and
      before the object is gone. A wait is only ever for a thread that there is. */
  lemma JoinedOnce(s: State, side: Side)
    requires Reachable(s)
    ensures s.At(side).started == s.At(side).joined + if s.At(side).thread.NoThread? then 0 else 1
    ensures s.parent.Creating? && s.parent.side == side ==> s.At(side).started == s.At(side).joined
    ensures s.parent.Joining? && s.parent.side == side ==> s.At(side).started == s.At(side).joined + 1
    ensures s.parent.Destroyed? ==> s.At(side).started == s.At(side).joined && s.At(side).thread.NoThread?
  {
    ReachableInv(s);
  }

  /** What has been returned, what the parent is about to return, what is in the buffer and what the
      listener is about to put there are all bytes read from the child, in order. */
  lemma OutputConserved(s: State, side: Side)
    requires Reachable(s)
    ensures var l := s.At(side);
            && l.log == l.returned + s.parent.Taken(side) + l.buf + l.thread.InHand()
            && (s.parent.Idle? && (l.thread.NoThread? || l.thread.Exited?) ==> l.log == l.returned + l.buf)
  {
    ReachableInv(s);
  }

  /** With a final read, the caller has got everything that was ever read from the child. */
  lemma FinalReadGetsAll(s: State)
    requires Reachable(s) && s.parent.Returning? && s.parent.final
    ensures Do(s, Step).At(s.parent.side).returned == s.At(s.parent.side).log
  {
    ReachableInv(s);
    var l := s.At(s.parent.side);
    assert l.returned + s.parent.res + [] + [] == l.returned + s.parent.res;
  }

  /** A buffer never holds more than one read beyond the larger of the limit and its size at the latest
      launch; in all, each launch can add no more than one read to the limit. */
  lemma BufferBounded(s: State, side: Side)
    requires Reachable(s)
    ensures |s.At(side).buf| <= s.At(side).ceiling + READ_SIZE
    ensures |s.At(side).buf| <= MAX_BUFFER + READ_SIZE * s.At(side).started
  {
    ReachableInv(s);
  }

  /** What a listener leaves for, what the parent is about, and what that has seen to. */
  ghost predicate Faithful(s: State) {
    && Persists(s.out, s.should) && Persists(s.err, s.should)
    && Serves(s.parent, s.call, s.out.thread.NoThread?, s.err.thread.NoThread?)
    && Needed(s.out, s.parent, s.should) && Needed(s.err, s.parent, s.should)
    && Alive(s.parent, s.should, s.childRunning)
  }

  /** A listener that should still run is only on its way out, or has gone, because there is no more to read. */
  predicate Persists(l: Listener, should: bool) {
    var t := l.thread;
    && (t.Failing? || t.Recording? <==> l.ended == InError(false))
    && (should && (t.Leaving? || t.Exited?) ==> !l.ended.NotYet?)
    && (!l.ended.NotYet? ==> Distance(t) == 0)
  }

  /** There are no threads but those that should run, unless Shutdown is about to wait for them. */
  predicate Needed(l: Listener, p: Parent, should: bool) {
    !l.thread.NoThread? && !p.ShuttingDown() ==> should
  }

  predicate Alive(p: Parent, should: bool, childRunning: bool) {
    && (p.Raising? || p.Unacking? || p.Launching() ==> childRunning)
    && (p.Unacking? || p.Launching() ==> should)
    && (p.Final() ==> !childRunning)
  }

  /** The parent is about what it was called for, and Launch has created the threads that are behind it. */
  predicate Serves(p: Parent, call: Action, noOut: bool, noErr: bool) {
    match p
    case Quitting(goal) => call == CallFor(goal)
    case Testing(side, task) => Waits(side, task, call)
    case Joining(side, task) => Waits(side, task, call)
    case Joined(side, task) => Waits(side, task, call)
    case Asserting(_, goal) => call == CallFor(goal)
    case Spawning(out, err) => call == Launch(out, err)
    case Raising(out, err) => call == Launch(out, err)
    case Unacking(out, err) => call == Launch(out, err)
    case Creating(side, more) => Creates(side, more, call, noOut)
    case Noting(side, more) => Creates(side, more, call, noOut)
    case Spinning(side, more) => Creates(side, more, call, noOut)
    case Acking => call.Launch? && noOut == !call.out && noErr == !call.err
    case TestingFinal(side) => call == Read(side, true)
    case Locking(side, final) => call == Read(side, final)
    case Copying(side, final) => call == Read(side, final)
    case Clearing(side, final, _) => call == Read(side, final)
    case Returning(side, final, _) => call == Read(side, final)
    case Destroyed => call == Destroy
    case Idle => true
  }

  function CallFor(goal: Goal): Action {
    match goal
    case Relaunch(out, err) => Launch(out, err)
    case Destruct => Destroy
  }

  predicate Waits(side: Side, task: Task, call: Action) {
    call == if task.Shutdown? then CallFor(task.goal) else Read(side, true)
  }

  predicate Creates(side: Side, more: bool, call: Action, noOut: bool) {
    call.Launch? && if side == Out then call.out && more == call.err else call.err && noOut == !call.out
  }

  lemma MoveFaithful(l: Listener, should: bool, ack: bool)
    requires Persists(l, should)
    ensures Persists(Move(l, should, ack), should) && Move(l, should, ack).thread.NoThread? == l.thread.NoThread?
  {}

  lemma GotFaithful(l: Listener, a: Action, should: bool)
    requires Persists(l, should) && l.thread.Reading?
    ensures Persists(Got(l, a), should) && !Got(l, a).thread.NoThread?
  {}

  lemma ListenerStaysFaithful(s: State, a: Action, s': State)
    requires Faithful(s) && Enabled(s, a) && s' == Do(s, a) && (ByListener(a, Out) || ByListener(a, Err))
    ensures Faithful(s')
  {
    if a.Listen? {
      MoveFaithful(s.At(a.side), s.should, s.ack);
    } else {
      GotFaithful(s.At(a.side), a, s.should);
    }
  }

  lemma CallServes(s: State, a: Action, s': State)
    requires Enabled(s, a) && s' == Do(s, a) && IsCall(a)
    requires Serves(s.parent, s.call, s.out.thread.NoThread?, s.err.thread.NoThread?)
    ensures Serves(s'.parent, s'.call, s.out.thread.NoThread?, s.err.thread.NoThread?)
  {}

  lemma CallAlive(s: State, a: Action, s': State)
    requires Enabled(s, a) && s' == Do(s, a) && IsCall(a) && Alive(s.parent, s.should, s.childRunning)
    ensures Alive(s'.parent, s.should, s'.childRunning)
  {}

  lemma CallNeeds(l: Listener, side: Side, p: Parent, p': Parent, should: bool, ack: bool)
    requires Handshake(l, side, p, ack) && Needed(l, p, should) && Calls(p, p')
    ensures Needed(l, p', should)
  {}

  lemma CallStaysFaithful(s: State, a: Action, s': State)
    requires Inv(s) && Faithful(s) && Enabled(s, a) && s' == Do(s, a) && IsCall(a)
    ensures Faithful(s')
  {
    CallIsParents(s, a, s');
    CallServes(s, a, s');
    CallAlive(s, a, s');
    CallNeeds(s.out, Out, s.parent, s'.parent, s.should, s.ack);
    CallNeeds(s.err, Err, s.parent, s'.parent, s.should, s.ack);
  }

  lemma AffectFaithful(p: Parent, side: Side, l: Listener, ack: bool, should: bool)
    requires Handshake(l, side, p, ack) && Persists(l, should)
    requires p.Joining? && p.side == side ==> l.thread.Exited?
    ensures Persists(l, (should || p.Raising?) && !p.Quitting?)
    ensures p.Concern() == side ==> Persists(Affect(p, l), (should || p.Raising?) && !p.Quitting?)
  {}

  lemma NextServes(p: Parent, call: Action, out: Listener, err: Listener, childRunning: bool, ack: bool)
    requires Handshake(out, Out, p, ack) && Handshake(err, Err, p, ack)
    requires Serves(p, call, out.thread.NoThread?, err.thread.NoThread?)
    requires !p.Idle? && !p.Destroyed? && !p.Spawning?
    ensures var side := p.Concern();
            Serves(Next(p, if side == Out then out else err, childRunning), call,
                   (if side == Out then Affect(p, out) else out).thread.NoThread?,
                   (if side == Err then Affect(p, err) else err).thread.NoThread?)
  {}

  lemma NextAlive(p: Parent, l: Listener, should: bool, childRunning: bool)
    requires Alive(p, should, childRunning)
    ensures Alive(Next(p, l, childRunning), (should || p.Raising?) && !p.Quitting?, childRunning)
  {}

  lemma NextNeeded(p: Parent, side: Side, l: Listener, other: Listener, should: bool, childRunning: bool, ack: bool)
    requires Handshake(l, side, p, ack) && Needed(l, p, should) && Alive(p, should, childRunning)
    requires !p.Idle? && !p.Destroyed? && !p.Spawning?
    ensures p.Concern() == side ==> Needed(Affect(p, l), Next(p, l, childRunning), (should || p.Raising?) && !p.Quitting?)
    ensures p.Concern() != side ==> Needed(l, Next(p, other, childRunning), (should || p.Raising?) && !p.Quitting?)
  {}

  lemma ParentStaysFaithful(s: State, s': State)
    requires Inv(s) && Faithful(s) && Enabled(s, Step) && s' == DoParent(s)
    ensures Faithful(s')
  {
    var other := s.At(s.parent.Concern());
    AffectFaithful(s.parent, Out, s.out, s.ack, s.should);
    AffectFaithful(s.parent, Err, s.err, s.ack, s.should);
    NextServes(s.parent, s.call, s.out, s.err, s.childRunning, s.ack);
    NextAlive(s.parent, other, s.should, s.childRunning);
    NextNeeded(s.parent, Out, s.out, other, s.should, s.childRunning, s.ack);
    NextNeeded(s.parent, Err, s.err, other, s.should, s.childRunning, s.ack);
  }

  lemma {:induction false} RunStaysFaithful(s: State, actions: seq<Action>, end: State)
    requires Inv(s) && Faithful(s) && Leads(s, actions, end)
    ensures Faithful(end)
    decreases |actions|
  {
    if actions != [] {
      var a, s' := actions[0], Do(s, actions[0]);
      StepKeepsInv(s, a);
      if IsCall(a) {
        CallStaysFaithful(s, a, s');
      } else if a.Step? {
        ParentStaysFaithful(s, s');
      } else {
        ListenerStaysFaithful(s, a, s');
      }
      RunStaysFaithful(s', actions[1..], end);
    }
  }

  lemma ReachableFaithful(s: State)
    requires Reachable(s)
    ensures Inv(s) && Faithful(s)
  {
    var actions :| Leads(START, actions, s);
    RunKeepsInv(START, actions, s);
    RunStaysFaithful(START, actions, s);
  }

  /** Unless Shutdown has told it to, a listener does not exit before the end of the child's output, or an
      error; and it never exits before that is recorded. */
  lemma ExitedHasEnded(s: State, side: Side)
    requires Reachable(s) && s.At(side).thread.Exited?
    ensures !s.parent.ShuttingDown() ==> s.At(side).ended == AtEnd || s.At(side).ended == InError(true)
    ensures s.At(side).ended != InError(false)
  {
    ReachableFaithful(s);
  }

  /** A read that fails, or finds the end of the output, is noted. */
  lemma EndIsNoted(s: State, a: Action, side: Side)
    requires Enabled(s, a) && (a == ReadFails(side) || a == EndOfFile(side))
    ensures Do(s, a).At(side).ended == if a.EndOfFile? then AtEnd else InError(false)
  {}

  /** It is the listener's last: from then on the listener is on its way out. */
  lemma EndIsEnd(s: State, side: Side)
    requires Reachable(s) && !s.At(side).ended.NotYet?
    ensures Distance(s.At(side).thread) == 0 && !Enabled(s, EndOfFile(side))
  {
    ReachableFaithful(s);
  }

  /** The parent knows of the child what has happened last. */
  function Lives(actions: seq<Action>, before: bool): bool {
    if actions == [] then before
    else Lives(actions[1..], actions[0] == Spawn(true) || (before && !actions[0].ChildEnds?))
  }

  lemma {:induction false} LivesOn(s: State, actions: seq<Action>, end: State)
    requires Leads(s, actions, end)
    ensures end.childRunning == Lives(actions, s.childRunning)
    decreases |actions|
  {
    if actions != [] {
      LivesOn(Do(s, actions[0]), actions[1..], end);
    }
  }

  /** A final read is refused exactly if the child has been launched and has not been found to have ended since. */
  lemma FinalReadRefusedIff(actions: seq<Action>, s: State)
    requires Leads(START, actions, s) && s.parent.TestingFinal?
    ensures Do(s, Step).parent.Idle? <==> Lives(actions, false)
  {
    LivesOn(START, actions, s);
  }

  /** A final read never waits for a child that runs, and a listener is told to run for as long as it is not
      waited for. */
  lemma FinalReadIsSafe(s: State)
    requires Reachable(s)
    ensures s.parent.Final() ==> !s.childRunning
    ensures s.parent.TestingFinal? && s.childRunning ==> Do(s, Step) == s.(parent := Idle)
    ensures forall side :: !s.At(side).thread.NoThread? && !s.parent.ShuttingDown() ==> s.should
  {
    ReachableFaithful(s);
  }

  /** How far a listener is from read(), while its buffer is not too big. */
  function Distance(t: Thread): nat {
    match t
    case Starting => 12
    case AwaitAck => 3
    case Holding(_) => 10
    case Appending(_) => 9
    case Releasing(size) => if size > MAX_BUFFER then 8 else 4
    case Checking(size) => if size > MAX_BUFFER then 7 else 3
    case Delaying => 6
    case Measuring => 5
    case Looping => 2
    case Reading => 1
    case _ => 0
  }

  /** A listener that is to run, and whose buffer is not too big, comes closer to reading from the child with
      each of its steps. */
  lemma ListenerReads(s: State, side: Side)
    requires Reachable(s) && s.should && s.ack && Enabled(s, Listen(side)) && Distance(s.At(side).thread) > 0
    requires |s.At(side).buf| + |s.At(side).thread.InHand()| <= MAX_BUFFER
    ensures 0 < Distance(Do(s, Listen(side)).At(side).thread) < Distance(s.At(side).thread)
  {
    ReachableInv(s);
    MoveIsCloser(s.At(side));
  }

  lemma MoveIsCloser(l: Listener)
    requires Distance(l.thread) > 0 && !l.thread.Reading? && !l.thread.NoThread?
    requires |l.buf| + |l.thread.InHand()| <= MAX_BUFFER
    ensures 0 < Distance(Move(l, true, true).thread) < Distance(l.thread)
  {}

  /** Once Launch has come to its end, the child has been launched, and there is a thread for each output that
      was to be captured, and no other. */
  lemma LaunchCreatesWanted(s: State)
    requires Reachable(s) && s.parent.Acking?
    ensures s.call == Launch(s.out.needsJoin, s.err.needsJoin) && s.should && s.childRunning
    ensures s.call == Launch(!s.out.thread.NoThread?, !s.err.thread.NoThread?)
  {
    ReachableFaithful(s);
  }

  /** All that was read from the child on a run. */
  function Received(actions: seq<Action>, side: Side): seq<byte> {
    if actions == [] then []
    else (if actions[0].Receive? && actions[0].side == side then actions[0].chunk else []) + Received(actions[1..], side)
  }

  lemma {:induction false} LogIsReceived(s: State, actions: seq<Action>, end: State, side: Side)
    requires Leads(s, actions, end)
    ensures end.At(side).log == s.At(side).log + Received(actions, side)
    decreases |actions|
  {
    if actions == [] {
      assert s.At(side).log + [] == s.At(side).log;
    } else {
      var now := if actions[0].Receive? && actions[0].side == side then actions[0].chunk else [];
      LogStep(s, actions[0], side);
      LogIsReceived(Do(s, actions[0]), actions[1..], end, side);
      Regroup3(s.At(side).log, now, Received(actions[1..], side));
    }
  }

  lemma LogStep(s: State, a: Action, side: Side)
    requires Enabled(s, a)
    ensures Do(s, a).At(side).log == s.At(side).log + (if a.Receive? && a.side == side then a.chunk else [])
  {
    assert s.At(side).log + [] == s.At(side).log;
    LogKept(s.parent, s.At(side), s.should, s.ack);
  }

  lemma LogKept(p: Parent, l: Listener, should: bool, ack: bool)
    ensures Affect(p, l).log == l.log && Move(l, should, ack).log == l.log
  {}

  /** Whatever the interleaving, the reading function has returned what was read from the child, in order, up
      to what is in the buffer and in hand. */
  lemma OutputIsReceived(actions: seq<Action>, end: State, side: Side)
    requires Leads(START, actions, end)
    ensures var l := end.At(side); Received(actions, side) == l.returned + end.parent.Taken(side) + l.buf + l.thread.InHand()
  {
    assert Reachable(end);
    OutputConserved(end, side);
    LogIsReceived(START, actions, end, side);
    assert [] + Received(actions, side) == Received(actions, side);
  }

  /** Any read returns all that there is of the output it was called for, but for what the listener has in hand. */
  lemma ReadGetsBuffer(s: State)
    requires Reachable(s) && s.parent.Returning?
    ensures var side := s.parent.side;
            && s.call == Read(side, s.parent.final)
            && Do(s, Step).At(side).returned + s.At(side).thread.InHand() == s.At(side).log
  {
    ReachableFaithful(s);
    var l := s.At(s.parent.side);
    assert l.returned + s.parent.res + [] == l.returned + s.parent.res;
  }

  /** How far the parent is from the end of a call. */
  function StepsLeft(p: Parent): nat {
    match p
    case Quitting(_) => 19
    case Testing(side, task) => if task.FinalRead? then 7 else if side == Out then 18 else 14
    case Joining(side, task) => if task.FinalRead? then 6 else if side == Out then 17 else 13
    case Joined(side, task) => if task.FinalRead? then 5 else if side == Out then 16 else 12
    case Asserting(side, _) => if side == Out then 15 else 11
    case Spawning(_, _) => 10
    case Raising(_, _) => 9
    case Unacking(_, _) => 8
    case Creating(side, _) => if side == Out then 7 else 4
    case Noting(side, _) => if side == Out then 6 else 3
    case Spinning(side, _) => if side == Out then 5 else 2
    case Acking => 1
    case TestingFinal(_) => 8
    case Locking(_, _) => 4
    case Copying(_, _) => 3
    case Clearing(_, _, _) => 2
    case Returning(_, _, _) => 1
    case _ => 0
  }

  /** Each step of the parent brings it closer to the end of its call, but for a look at a flag that is not
      set yet; and it comes to that exactly with a last step: of Launch, of a read, of the destructor, or where
      the child could not be launched or a final read was refused because it still runs. */
  lemma CallsEnd(s: State, a: Action)
    requires Reachable(s) && Enabled(s, a) && (a.Step? || a.Spawn?)
    ensures StepsLeft(Do(s, a).parent) < StepsLeft(s.parent)
            || (s.parent.Spinning? && !s.At(s.parent.side).running && Do(s, a).parent == s.parent)
    ensures StepsLeft(Do(s, a).parent) == 0 <==>
              || s.parent.Acking? || s.parent.Returning? || a == Spawn(false)
              || (s.parent.TestingFinal? && s.childRunning) || Do(s, a).parent.Destroyed?
    ensures Do(s, a).parent.Destroyed? ==> s.call == Destroy
    ensures Do(s, a).parent.Spawning? ==> s.call.Launch?
  {
    ReachableFaithful(s);
    if a.Step? {
      NextIsCloser(s.parent, s.At(s.parent.Concern()), s.childRunning);
      NextServes(s.parent, s.call, s.out, s.err, s.childRunning, s.ack);
    }
  }

  lemma NextIsCloser(p: Parent, l: Listener, childRunning: bool)
    requires !p.Idle? && !p.Destroyed? && !p.Spawning?
    ensures StepsLeft(Next(p, l, childRunning)) < StepsLeft(p)
            || (p.Spinning? && !l.running && Next(p, l, childRunning) == p)
    ensures StepsLeft(Next(p, l, childRunning)) == 0 <==>
              || p.Acking? || p.Returning? || (p.TestingFinal? && childRunning) || Next(p, l, childRunning).Destroyed?
  {}

  predicate ByListener(a: Action, side: Side) {
    (a.Receive? || a.ReadFails? || a.EndOfFile? || a.Listen?) && a.side == side
  }

  /** While Shutdown waits for a listener, each step of the listener brings it closer to its exit, and
      nobody else's step keeps it from there. */
  lemma ShutdownDrainsListener(s: State, a: Action)
    requires Reachable(s) && s.parent.Joining? && s.parent.task.Shutdown? && Enabled(s, a)
    ensures var side := s.parent.side;
            && (ByListener(a, side) ==> Do(s, a).At(side).thread.Rank() < s.At(side).thread.Rank())
            && (!ByListener(a, side) && a != Step ==> Do(s, a).At(side) == s.At(side))
            && (a != Step ==> Do(s, a).parent == s.parent)
  {
    ReachableInv(s);
    ListenerDrains(s, a, s.parent.side);
  }

  lemma ListenerDrains(s: State, a: Action, side: Side)
    requires Inv(s) && s.parent.Joining? && s.parent.task.Shutdown? && s.parent.side == side && Enabled(s, a)
    ensures ByListener(a, side) ==> Do(s, a).At(side).thread.Rank() < s.At(side).thread.Rank()
    ensures a != Step && !ByListener(a, side) ==> Do(s, a).At(side) == s.At(side)
    ensures a != Step ==> Do(s, a).parent == s.parent
  {}

  function Other(side: Side): Side {
    if side == Out then Err else Out
  }

  /** And it is never stuck: it can step, or it waits for a mutex whose holder can. */
  lemma ShutdownNeverStuck(s: State)
    requires Reachable(s) && s.parent.Joining?
    ensures var side := s.parent.side;
            || Enabled(s, Step)
            || Enabled(s, Listen(side)) || Enabled(s, EndOfFile(side))
            || (s.mutex == Thread(Other(side)) && Enabled(s, Listen(Other(side))))
  {
    ReachableInv(s);
  }

  /** Whoever holds the mutex can take a step. */
  lemma HolderNeverWaits(s: State)
    requires Reachable(s) && s.mutex != Nobody
    ensures Enabled(s, if s.mutex == TheParent then Step else Listen(s.mutex.side))
  {
    ReachableInv(s);
  }
}
