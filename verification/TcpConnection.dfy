/** The send path and the graceful half-close of src/TcpConnection.cc. */
module TcpConnection {
  import opened Buffers

  datatype Phase = Connecting | Connected | Disconnecting | Disconnected

  /** What write() did: take the first `n` bytes, refuse for now, fail for good (EPIPE, ECONNRESET),
      or fail otherwise. */
  datatype WriteResult = Wrote(n: nat) | WouldBlock | BrokenPipe | OtherError

  /** A callback handed to the event loop. */
  datatype Notice = WriteComplete | HighWaterMark(size: nat)

  /** A call of a user's callback, with the state it sees. */
  datatype Call = Connection(state: Phase) | Close(state: Phase)

  lemma SplitPayload(wire: seq<Byte>, waiting: seq<Byte>, data: seq<Byte>, n: nat)
    requires n <= |data| && (n > 0 ==> waiting == [])
    ensures wire + waiting + data == wire + data[..n] + (waiting + data[n..])
    ensures n == 0 ==> data[..n] == [] && data[n..] == data
    ensures n == |data| ==> data[n..] == []
  {
    assert data == data[..n] + data[n..];
  }

  class TcpConnection {
    var state: Phase
    const output: Buffer
    var writing: bool           // the channel is interested in write events
    var reading: bool
    const highWaterMark: nat
    const hasWriteComplete: bool
    const hasHighWaterMark: bool
    var tied: bool              // the channel keeps the connection alive while it handles events
    var calls: seq<Call>        // the connection and close callbacks, in order
    var notices: seq<Notice>    // what has been given to queueInLoop
    var wire: seq<Byte>         // every byte write() has taken
    var shutdowns: nat          // how often SHUT_WR has been issued
    ghost var accepted: seq<Byte>  // the payloads of all sends that met no broken pipe, in order

    /** Nothing is lost, doubled or reordered between send and the wire, and while the connection
        is open write interest is on exactly when something is waiting. */
    ghost predicate Valid()
      reads this, output
    {
      && output.Valid()
      && wire + output.Readable() == accepted
      && (state != Disconnected ==> (writing <==> output.Readable() != []))
    }

    /** SHUT_WR goes out at most once, and after it nothing is waiting or will be accepted; between a
        shutdown and the close it has gone out exactly if nothing is waiting. */
    ghost predicate HalfClosed()
      requires output.Valid()
      reads this, output
    {
      && shutdowns <= 1
      && (shutdowns == 1 ==> !state.Connected? && !writing && output.Readable() == [])
      && (state.Disconnecting? ==> (shutdowns == 1 <==> output.Readable() == []))
    }

    constructor (output: Buffer, highWaterMark: nat, hasWriteComplete: bool, hasHighWaterMark: bool)
      requires output.Valid() && output.Readable() == []
      ensures Valid() && HalfClosed() && state == Connecting && accepted == [] && shutdowns == 0
      ensures this.output == output
    {
      this.output, this.highWaterMark := output, highWaterMark;
      this.hasWriteComplete, this.hasHighWaterMark := hasWriteComplete, hasHighWaterMark;
      state, writing, reading, tied := Connecting, false, false, false;
      calls, notices, wire, shutdowns, accepted := [], [], [], 0, [];
    }

    /** connectEstablished. */
    method ConnectEstablished()
      requires Valid() && HalfClosed() && state == Connecting && shutdowns == 0
      modifies this`state, this`tied, this`reading, this`calls
      ensures Valid() && HalfClosed() && state == Connected && tied && reading
      ensures calls == old(calls) + [Connection(Connected)]
    {
      state := Connected;
      tied := true;
      reading := true;
      calls := calls + [Connection(state)];
    }

    /** The high-water notice is due when the waiting bytes reach the mark from below. */
    function Crossing(before: nat, after: nat): seq<Notice> {
      if before < highWaterMark <= after && hasHighWaterMark then [HighWaterMark(after)] else []
    }

    /** The direct write of sendInLoop; `nwrote` is what the kernel took. */
    method TryWrite(data: seq<Byte>, result: WriteResult) returns (nwrote: nat, fault: bool)
      requires result.Wrote? ==> result.n <= |data|
      modifies this`wire, this`notices
      ensures nwrote == (if result.Wrote? then result.n else 0) && fault == result.BrokenPipe?
      ensures wire == old(wire) + data[..nwrote]
      ensures notices == old(notices) + if result == Wrote(|data|) && hasWriteComplete then [WriteComplete] else []
    {
      nwrote, fault := 0, false;
      match result
      case Wrote(n) =>
        nwrote := n;
        wire := wire + data[..n];
        if n == |data| && hasWriteComplete { notices := notices + [WriteComplete]; }
      case BrokenPipe => fault := true;
      case _ =>
    }

    /** The rest of sendInLoop: what was not written waits in the output buffer. */
    method Keep(rest: seq<Byte>)
      requires output.Valid() && rest != []
      modifies this`writing, this`notices, output
      ensures output.Valid() && output.Readable() == old(output.Readable()) + rest && writing
      ensures notices == old(notices) + Crossing(|old(output.Readable())|, |output.Readable()|)
    {
      var oldLen := output.ReadableBytes();
      if oldLen + |rest| >= highWaterMark && oldLen < highWaterMark && hasHighWaterMark {
        notices := notices + [HighWaterMark(oldLen + |rest|)];
      }
      output.Append(rest);
      writing := true;
    }

    /** sendInLoop; `result` is the answer of write() if it is called. */
    method SendInLoop(data: seq<Byte>, result: WriteResult)
      requires Valid() && (result.Wrote? ==> result.n <= |data|)
      modifies this`wire, this`notices, this`writing, this`accepted, output
      ensures Valid()
      ensures var idle := !old(writing) && old(output.Readable()) == [];
              && accepted == old(accepted) + (if idle && result.BrokenPipe? then [] else data)
              && wire == old(wire) + (if idle && result.Wrote? then data[..result.n] else [])
              && notices == old(notices)
                   + (if idle && result == Wrote(|data|) && hasWriteComplete then [WriteComplete] else [])
                   + Crossing(|old(output.Readable())|, |output.Readable()|)
      ensures old(HalfClosed()) && shutdowns == 0 ==> HalfClosed()
    {
      var nwrote, fault := 0, false;
      if !writing && output.ReadableBytes() == 0 {
        nwrote, fault := TryWrite(data, result);
      }
      if !fault {
        SplitPayload(old(wire), old(output.Readable()), data, nwrote);
        accepted := accepted + data;
        if nwrote < |data| { Keep(data[nwrote..]); }
      }
    }

    /** send on the loop thread. */
    method Send(data: seq<Byte>, result: WriteResult)
      requires Valid() && HalfClosed() && (result.Wrote? ==> result.n <= |data|)
      modifies this`wire, this`notices, this`writing, this`accepted, output
      ensures Valid() && HalfClosed()
      ensures state != Connected ==> accepted == old(accepted) && wire == old(wire)
      ensures state == Connected ==>
                accepted == old(accepted) + if old(output.Readable()) == [] && result.BrokenPipe? then [] else data
      ensures state == Connected ==>
                wire == old(wire) + if !old(writing) && old(output.Readable()) == [] && result.Wrote?
                                    then data[..result.n] else []
      ensures state != Connected ==> notices == old(notices)
      ensures state == Connected ==>
                notices == old(notices)
                  + (if old(output.Readable()) == [] && result == Wrote(|data|) && hasWriteComplete
                     then [WriteComplete] else [])
                  + Crossing(|old(output.Readable())|, |output.Readable()|)
    {
      if state == Connected { SendInLoop(data, result); }
    }

    /** shutdown on the loop thread. */
    method Shutdown()
      requires Valid() && HalfClosed()
      modifies this`state, this`shutdowns
      ensures Valid() && HalfClosed() && accepted == old(accepted) && wire == old(wire)
      ensures state == if old(state) == Connected then Disconnecting else old(state)
      ensures shutdowns > old(shutdowns) ==> wire == accepted
      ensures old(state) == Connected && old(output.Readable()) == [] ==> shutdowns == 1
    {
      if state == Connected {
        state := Disconnecting;
        ShutdownInLoop();
      }
    }

    /** shutdownInLoop. */
    method ShutdownInLoop()
      modifies this`shutdowns
      ensures shutdowns == old(shutdowns) + if writing then 0 else 1
    {
      if !writing { shutdowns := shutdowns + 1; }
    }

    /** handleWrite; `result` is the answer of write() on the readable bytes. */
    method HandleWrite(result: WriteResult)
      requires Valid() && HalfClosed() && (result.Wrote? ==> result.n <= |output.Readable()|)
      modifies this`wire, this`notices, this`writing, this`shutdowns, output
      ensures Valid() && HalfClosed() && accepted == old(accepted)
      ensures wire == old(wire) + if old(writing) && result.Wrote? then old(output.Readable())[..result.n] else []
      ensures notices == old(notices) + if old(writing) && !writing && hasWriteComplete then [WriteComplete] else []
      ensures shutdowns > old(shutdowns) ==> wire == accepted
      ensures old(writing) && state == Disconnecting && output.Readable() == [] && old(output.Readable()) != [] ==>
                shutdowns == 1
    {
      if writing && result.Wrote? && result.n > 0 {
        var n := result.n;
        ghost var before := output.Readable();
        wire := wire + output.buffer[output.readerIndex..output.readerIndex + n];
        output.Retrieve(n);
        assert before == before[..n] + before[n..];
        if output.ReadableBytes() == 0 {
          writing := false;
          if hasWriteComplete { notices := notices + [WriteComplete]; }
          if state == Disconnecting { ShutdownInLoop(); }
        }
      }
    }

    /** handleClose. */
    method HandleClose()
      requires Valid() && HalfClosed()
      modifies this`state, this`writing, this`reading, this`calls
      ensures Valid() && HalfClosed() && state == Disconnected && !writing && !reading
      ensures calls == old(calls) + [Connection(Disconnected), Close(Disconnected)]
    {
      state := Disconnected;
      writing, reading := false, false;
      calls := calls + [Connection(state)];
      calls := calls + [Close(state)];
    }
  }

  // ----- whole runs -----

  /** What happens to an established connection on its loop thread, with the answers of write(). */
  datatype Event =
    | Sent(data: seq<Byte>, result: WriteResult)
    | Writable(result: WriteResult)
    | ShutdownCalled
    | PeerClosed

  predicate Ends(e: Event) { e.ShutdownCalled? || e.PeerClosed? }

  predicate Ended(events: seq<Event>) { exists i :: 0 <= i < |events| && Ends(events[i]) }

  predicate NoBrokenPipe(events: seq<Event>) {
    forall i :: 0 <= i < |events| && events[i].Sent? ==> !events[i].result.BrokenPipe?
  }

  /** The bytes the application sent before it shut the connection down or the peer closed it. */
  function Payload(events: seq<Event>): seq<Byte> {
    if events == [] then []
    else
      var front, last := events[..|events| - 1], events[|events| - 1];
      Payload(front) + if last.Sent? && !Ended(front) then last.data else []
  }

  /** How many of the offered bytes write() takes. */
  function Taken(result: WriteResult, offered: nat): (n: nat)
    ensures n <= offered
  {
    if !result.Wrote? then 0 else if result.n < offered then result.n else offered
  }

  /** write() takes at most what it is offered. */
  function Clamp(result: WriteResult, offered: nat): (r: WriteResult)
    ensures (r.Wrote? <==> result.Wrote?) && (r.Wrote? ==> r.n == Taken(result, offered))
    ensures !result.Wrote? ==> r == result
  {
    if result.Wrote? && result.n > offered then Wrote(offered) else result
  }

  method Handle(c: TcpConnection, e: Event)
    requires c.Valid() && c.HalfClosed()
    modifies c, c.output
    ensures c.Valid() && c.HalfClosed()
    ensures c.state == Connected <==> old(c.state) == Connected && !Ends(e)
    ensures !(e.Sent? && e.result.BrokenPipe?) ==>
              c.accepted == old(c.accepted) + if e.Sent? && old(c.state) == Connected then e.data else []
    ensures c.shutdowns > old(c.shutdowns) ==> c.wire == c.accepted
    ensures e.Writable? ==>
              c.wire == old(c.wire) + if !old(c.writing) then [] else
                          old(c.output.Readable())[..Taken(e.result, |old(c.output.Readable())|)]
    ensures e.Sent? ==>
              c.wire == old(c.wire) + if old(c.state) == Connected && !old(c.writing) && old(c.output.Readable()) == []
                                      then e.data[..Taken(e.result, |e.data|)] else []
  {
    match e
    case Sent(data, result) => c.Send(data, Clamp(result, |data|));
    case Writable(result) => c.HandleWrite(Clamp(result, c.output.ReadableBytes()));
    case ShutdownCalled => c.Shutdown();
    case PeerClosed => c.HandleClose();
  }

  /** For every run: what is on the wire and what still waits are together exactly what was sent, and
      SHUT_WR went out at most once, after everything sent; and as soon as everything is on the wire,
      if the connection is being shut down. */
  method Play(c: TcpConnection, events: seq<Event>)
    requires c.Valid() && c.HalfClosed() && c.state == Connected && c.accepted == []
    modifies c, c.output
    ensures c.Valid() && c.HalfClosed()
    ensures NoBrokenPipe(events) ==> c.wire + c.output.Readable() == Payload(events)
    ensures NoBrokenPipe(events) && c.shutdowns == 1 ==> c.wire == Payload(events)
    ensures NoBrokenPipe(events) && c.state == Disconnecting ==> (c.shutdowns == 1 <==> c.wire == Payload(events))
  {
    var i := 0;
    while i < |events|
      invariant i <= |events| && c.Valid() && c.HalfClosed()
      invariant c.state == Connected <==> !Ended(events[..i])
      invariant NoBrokenPipe(events) ==> c.accepted == Payload(events[..i])
    {
      Handle(c, events[i]);
      assert events[..i + 1] == events[..i] + [events[i]];
      EndedSnoc(events[..i], events[i]);
      i := i + 1;
    }
    assert events[..i] == events;
  }

  /** From a new connection on: everything its user sends is on the wire or waiting. */
  method Serve(highWaterMark: nat, hasWriteComplete: bool, hasHighWaterMark: bool, events: seq<Event>)
    returns (c: TcpConnection)
    ensures c.Valid() && c.HalfClosed()
    ensures NoBrokenPipe(events) ==> c.wire + c.output.Readable() == Payload(events)
    ensures NoBrokenPipe(events) && c.shutdowns == 1 ==> c.wire == Payload(events)
    ensures NoBrokenPipe(events) && c.state == Disconnecting ==> (c.shutdowns == 1 <==> c.wire == Payload(events))
  {
    var output := new Buffer(INITIAL_SIZE);
    c := new TcpConnection(output, highWaterMark, hasWriteComplete, hasHighWaterMark);
    c.ConnectEstablished();
    Play(c, events);
  }

  lemma EndedSnoc(events: seq<Event>, e: Event)
    ensures Ended(events + [e]) <==> Ended(events) || Ends(e)
    ensures Payload(events + [e]) == Payload(events) + if e.Sent? && !Ended(events) then e.data else []
  {
    var all := events + [e];
    assert all[..|all| - 1] == events && all[|all| - 1] == e;
    if i :| 0 <= i < |events| && Ends(events[i]) { assert Ends(all[i]); }
  }
}
