/** Two MpoPipeEx ends, wired to each other, with a writer and a reader thread at each. */
module PipeEx {
  import opened Bytes
  import opened PipeChannel

  /** Which of the two pipes, mutexes and counters an end uses to write and to read. */
  datatype Wiring = Wiring(pipeR: nat, pipeW: nat, mutexR: nat, mutexW: nat, counterR: nat, counterW: nat)

  /** An end, 0 or 1. */
  type End = e: nat | e < 2

  function Other(e: End): End {
    1 - e
  }

  /** Pipe `e` is read by end `e` and written by the other; mutex and counter `e` belong to the writer at `e`. */
  function Create(e: End): Wiring {
    Wiring(pipeR := e, pipeW := Other(e), mutexW := e, mutexR := Other(e), counterW := e, counterR := Other(e))
  }

  /** What the four threads share, and where each stands; all but the first four are indexed by end. */
  datatype System = System(
    pipes: seq<seq<byte>>, mutexes: seq<Holder>, counters: seq<int>, pendings: seq<nat>,
    writers: seq<Writer>, readers: seq<Reader>, sents: seq<seq<byte>>, receiveds: seq<seq<byte>>, seens: seq<nat>)
  {
    ghost predicate Valid() {
      && |pipes| == |mutexes| == |counters| == |pendings| == 2
      && |writers| == |readers| == |sents| == |receiveds| == |seens| == 2
    }

    /** The direction that end `e` writes to, through the references that end `e` holds. */
    function Outgoing(e: End): Channel
      requires Valid()
    {
      var w := Create(e);
      Channel(counters[w.counterW], pendings[e], mutexes[w.mutexW], pipes[w.pipeW],
              writers[e], readers[Other(e)], sents[e], receiveds[Other(e)], seens[Other(e)])
    }

    /** The direction that end `e` reads from, through the references that end `e` holds. */
    function Incoming(e: End): Channel
      requires Valid()
    {
      var w := Create(e);
      Channel(counters[w.counterR], pendings[Other(e)], mutexes[w.mutexR], pipes[w.pipeR],
              writers[Other(e)], readers[e], sents[Other(e)], receiveds[e], seens[e])
    }

    /** A step of the writer at end `e` writes back only what a writer may change. */
    function PutOutgoing(e: End, c: Channel): System
      requires Valid()
    {
      var w := Create(e);
      this.(counters := counters[w.counterW := c.counter], pendings := pendings[e := c.pending],
            mutexes := mutexes[w.mutexW := c.mutex], pipes := pipes[w.pipeW := c.pipe],
            writers := writers[e := c.writer], sents := sents[e := c.sent])
    }

    function PutIncoming(e: End, c: Channel): System
      requires Valid()
    {
      var w := Create(e);
      this.(counters := counters[w.counterR := c.counter],
            mutexes := mutexes[w.mutexR := c.mutex], pipes := pipes[w.pipeR := c.pipe],
            readers := readers[e := c.reader], receiveds := receiveds[e := c.received], seens := seens[e := c.seen])
    }
  }

  const START_SYSTEM := System(
    [[], []], [Nobody, Nobody], [0, 0], [0, 0], [WriterIdle, WriterIdle], [ReaderIdle, ReaderIdle],
    [[], []], [[], []], [0, 0])

  /** A step: at which end, and what that end's writer or reader thread does. */
  type Step = (End, Action)

  predicate CanStep(s: System, t: Step, capacity: nat)
    requires s.Valid()
  {
    Enabled(if ByWriter(t.1) then s.Outgoing(t.0) else s.Incoming(t.0), t.1, capacity)
  }

  function Take(s: System, t: Step, capacity: nat): (s': System)
    requires s.Valid() && CanStep(s, t, capacity)
    ensures s'.Valid()
  {
    if ByWriter(t.1) then s.PutOutgoing(t.0, Do(s.Outgoing(t.0), t.1, capacity))
    else s.PutIncoming(t.0, Do(s.Incoming(t.0), t.1, capacity))
  }

  ghost predicate Runs(s: System, steps: seq<Step>, end: System, capacity: nat)
    requires s.Valid()
    decreases |steps|
  {
    if steps == [] then s == end
    else CanStep(s, steps[0], capacity) && Runs(Take(s, steps[0], capacity), steps[1..], end, capacity)
  }

  /** The steps that concern the direction written at end `e`. */
  ghost function Project(steps: seq<Step>, e: End): seq<Action> {
    if steps == [] then []
    else (if (steps[0].0 == e) == ByWriter(steps[0].1) then [steps[0].1] else []) + Project(steps[1..], e)
  }

  /** One end's reading references lead where the other's writing references lead. */
  lemma WiringMatches(s: System, e: End)
    requires s.Valid()
    ensures s.Incoming(e) == s.Outgoing(Other(e))
  {}

  /** A step moves one direction as PipeChannel says, and leaves the other alone. */
  lemma StepProjects(s: System, t: Step, e: End, capacity: nat)
    requires s.Valid() && CanStep(s, t, capacity)
    ensures var s' := Take(s, t, capacity);
            if (t.0 == e) == ByWriter(t.1)
            then Enabled(s.Outgoing(e), t.1, capacity) && s'.Outgoing(e) == Do(s.Outgoing(e), t.1, capacity)
            else s'.Outgoing(e) == s.Outgoing(e)
  {}

  lemma {:induction false} RunProjects(s: System, steps: seq<Step>, end: System, e: End, capacity: nat)
    requires s.Valid() && end.Valid() && Runs(s, steps, end, capacity)
    ensures Leads(s.Outgoing(e), Project(steps, e), end.Outgoing(e), capacity)
    decreases |steps|
  {
    if steps != [] {
      StepProjects(s, steps[0], e, capacity);
      RunProjects(Take(s, steps[0], capacity), steps[1..], end, e, capacity);
      if (steps[0].0 == e) == ByWriter(steps[0].1) {
        LeadsBack(s.Outgoing(e), steps[0].1, Project(steps[1..], e), end.Outgoing(e), capacity);
      } else {
        assert Project(steps, e) == Project(steps[1..], e);
      }
    }
  }

  /** So whatever the four threads do, each direction conserves its bytes and its count on its own. */
  lemma BothDirectionsConserve(steps: seq<Step>, end: System, e: End, capacity: nat)
    requires capacity <= LIMIT && end.Valid() && Runs(START_SYSTEM, steps, end, capacity)
    ensures Reachable(end.Outgoing(e), capacity) && Reachable(end.Incoming(e), capacity)
    ensures var w := Create(e);
            && end.sents[e] == end.receiveds[Other(e)] + end.pipes[w.pipeW]
            && end.counters[w.counterW] + end.writers[e].Unadded()
               == |end.pipes[w.pipeW]| + end.readers[Other(e)].Unsubtracted()
            && end.seens[e] <= |end.pipes[w.pipeR]|
  {
    forall x: End ensures Reachable(end.Outgoing(x), capacity) {
      RunProjects(START_SYSTEM, steps, end, x, capacity);
      assert START_SYSTEM.Outgoing(x) == START;
    }
    WiringMatches(end, e);
    Conservation(end.Outgoing(e), capacity);
    SeenBytesWait(end.Incoming(e), capacity);
  }

  /** And what either end receives, together with what is on its way, is what the calls at the other end have
      written, in order; and its reader is about its latest call. */
  lemma BothDirectionsDeliver(steps: seq<Step>, end: System, e: End, capacity: nat)
    requires capacity <= LIMIT && end.Valid() && Runs(START_SYSTEM, steps, end, capacity)
    ensures Pushed(Project(steps, e), []) == end.receiveds[Other(e)] + end.pipes[Create(Other(e)).pipeR]
    ensures Serves(end.readers[Other(e)], LastCall(Project(steps, e), CallQuery))
  {
    RunProjects(START_SYSTEM, steps, end, e, capacity);
    assert START_SYSTEM.Outgoing(e) == START;
    BytesAreTheWriters(Project(steps, e), end.Outgoing(e), capacity);
    CallsAreServed(Project(steps, e), end.Outgoing(e), capacity);
  }

  /** A reader at either end that asks how much there is learns all but what the writer at the other end has
      yet to book. */
  lemma QueryAtEnd(steps: seq<Step>, s: System, e: End, capacity: nat)
    requires capacity <= LIMIT && s.Valid() && Runs(START_SYSTEM, steps, s, capacity) && s.readers[e].Querying?
    ensures var pipe, unadded := s.pipes[Create(e).pipeR], s.writers[Other(e)].Unadded();
            && CanStep(s, (e, ReadCounter), capacity)
            && Take(s, (e, ReadCounter), capacity).seens[e] + unadded >= |pipe|
            && (s.writers[Other(e)].WriterIdle? ==> Take(s, (e, ReadCounter), capacity).seens[e] == |pipe|)
  {
    RunProjects(START_SYSTEM, steps, s, Other(e), capacity);
    assert START_SYSTEM.Outgoing(Other(e)) == START;
    WiringMatches(s, e);
    QueryFindsBytes(s.Incoming(e), capacity);
  }
}
