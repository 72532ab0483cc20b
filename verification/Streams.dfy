/** Nonblocking streams, as their users see them: anything may take several calls. */
module Streams {

  datatype StreamMsg = MsgOk | MsgError | MsgTimeout | MsgEnd

  /** What a call of Read may come to. */
  datatype Event = Data(bytes: string) | Timeout | End | Error

  /** All bytes that are still to be read. */
  function Incoming(events: seq<Event>): string {
    if events == [] then ""
    else (if events[0].Data? then events[0].bytes else "") + Incoming(events[1..])
  }

  /** No more calls of Read than this can return data or a timeout. */
  function Pending(events: seq<Event>): nat {
    if events == [] then 0
    else (if events[0].Data? then 1 + |events[0].bytes| else 1) + Pending(events[1..])
  }

  /** Nothing but bytes, and pauses in between. */
  predicate Calm(events: seq<Event>) {
    forall i | 0 <= i < |events| :: events[i].Timeout? || (events[i].Data? && events[i].bytes != "")
  }

  class InStream {
    var events: seq<Event>

    constructor (events: seq<Event>)
      ensures this.events == events
    {
      this.events := events;
    }

    method Read(max: nat) returns (msg: StreamMsg, bytes: string)
      requires max > 0
      modifies this
      ensures |bytes| <= max && (!msg.MsgOk? ==> bytes == "")
      ensures bytes + Incoming(events) == Incoming(old(events))
      ensures msg.MsgOk? || msg.MsgTimeout? ==> Pending(events) < Pending(old(events))
      ensures old(Calm(events)) ==> Calm(events) && (msg.MsgOk? ==> bytes != "")
      ensures old(Calm(events) && Incoming(events) != "") ==> msg.MsgOk? || msg.MsgTimeout?
      ensures old(Calm(events) && Incoming(events) == "") ==> !msg.MsgOk?
      ensures old(events) == [] ==> msg.MsgEnd?
    {
      if events == [] {
        return MsgEnd, "";
      }
      var first := events[0];
      match first
      case Data(d) =>
        if |d| <= max {
          events := events[1..];
          return MsgOk, d;
        }
        assert ([Data(d[max..])] + events[1..])[1..] == events[1..];
        assert d[..max] + (d[max..] + Incoming(events[1..])) == d + Incoming(events[1..]);
        events := [Data(d[max..])] + events[1..];
        return MsgOk, d[..max];
      case Timeout =>
        events := events[1..];
        return MsgTimeout, "";
      case End =>
        events := events[1..];
        return MsgEnd, "";
      case Error =>
        events := events[1..];
        return MsgError, "";
    }
  }

  /** A steady one may take less than it is given, but does not fail. */
  class OutStream {
    const steady: bool
    var written: string

    constructor (steady: bool)
      ensures this.steady == steady && written == ""
    {
      this.steady, written := steady, "";
    }

    /** Writes some of the bytes, and at least one if all is well; after an error, some may have gone out. */
    method Write(bytes: string) returns (msg: StreamMsg, n: nat)
      modifies this
      ensures n <= |bytes| && written == old(written) + bytes[..n]
      ensures msg.MsgOk? && bytes != "" ==> n > 0
      ensures msg.MsgTimeout? || msg.MsgEnd? ==> n == 0
      ensures steady ==> msg.MsgOk?
    {
      n :| 0 <= n <= |bytes| && (bytes != "" ==> n > 0);
      msg := MsgOk;
      if !steady {
        if * {
          n :| 0 <= n <= |bytes|;
          msg := MsgError;
        } else if * {
          n, msg := 0, MsgTimeout;
        } else if * {
          n, msg := 0, MsgEnd;
        }
      }
      written := written + bytes[..n];
    }

    /** StreamFull's WriteCRLF, when it does not fail. */
    method WriteCRLF(bytes: string)
      modifies this
      ensures written == old(written) + (bytes + "\r\n")
    {
      written := written + bytes;
      written := written + "\r\n";
    }
  }
}
