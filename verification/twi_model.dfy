/** The TWI slave handler as a function from the driver state and one bus
    condition to the next state and the effects, with the properties the
    handler promises. The class in module Twi is proved to follow `Step`. */
module TwiModel {
  import opened TwiTypes

  // ---------------------------------------------------------------------
  // One handler call (twi_check_conditions)
  // ---------------------------------------------------------------------

  /** One call of the handler: nothing happens unless TWINT is set; otherwise
      the status decides the action, and the call ends by writing TWCR with
      TWINT set to release the bus. */
  function Step(d: Driver, status: Status, fetched: bv8): Outcome {
    if !d.twcr.twint then Outcome(d, [])
    else
      var o := Dispatch(d, status, fetched);
      var twcr := o.next.twcr.(twint := true);
      Outcome(o.next.(twcr := twcr), o.effects + [WriteControl(twcr)])
  }

  /** The switch over the status code. */
  function Dispatch(d: Driver, status: Status, fetched: bv8): Outcome {
    match status
    case BusError =>
      var twcr := d.twcr.(twsto := true);
      Outcome(d.(twcr := twcr), [WriteControl(twcr)])
    case SrSlaAck | SrGcallAck =>
      Outcome(d.(writeState := AddrHi), [])
    case SrDataAck | SrGcallDataAck =>
      Receive(d)
    case SrStop =>
      Outcome(d, if d.address == SENTINEL then [] else [Update])
    case StSlaAck | StDataAck =>
      Outcome(d.(twdr := fetched), [GetByte(fetched)])
    case StDataNack | StLastData =>
      var twcr := d.twcr.(twint := false, twea := true);
      Outcome(d.(twcr := twcr), [WriteControl(twcr)])
    case Unrecognized =>
      Outcome(d, [])
  }

  /** A received data byte, interpreted by the write state. */
  function Receive(d: Driver): Outcome {
    match d.writeState
    case AddrHi =>
      Outcome(d.(address := d.twdr as bv16, writeState := AddrLo), [])
    case AddrLo =>
      var a := AssembleAddress(d.address, d.twdr);
      Outcome(d.(address := a, writeState := DataByte), if a != SENTINEL then [SetAddress(a)] else [])
    case DataByte =>
      Outcome(d, [SetByte(d.twdr)])
  }

  /** The write state a received data byte moves to. */
  function Advance(w: WriteState): WriteState {
    match w
    case AddrHi => AddrLo
    case AddrLo => DataByte
    case DataByte => DataByte
  }

  // ---------------------------------------------------------------------
  // twi_init and twi_deinit (register effects only)
  // ---------------------------------------------------------------------

  function Initialized(d: Driver): Outcome {
    Outcome(d.(twar := TWAR_INIT, twcr := TWCR_INIT), [WriteControl(TWCR_INIT)])
  }

  function Deinitialized(d: Driver): Outcome {
    Outcome(d.(twar := 0, twcr := TWCR_CLEARED), [WriteControl(TWCR_CLEARED)])
  }

  // ---------------------------------------------------------------------
  // The bus around the handler
  // ---------------------------------------------------------------------

  /** The hardware raising a condition: it sets TWINT and, for a received
      data byte, loads the byte into TWDR. This models the peripheral, not
      the driver. */
  function Raise(d: Driver, e: Event): Driver {
    d.(twcr := d.twcr.(twint := true), twdr := if e.status.IsDataReceived() then e.data else d.twdr)
  }

  /** A condition raised and handled. */
  function Deliver(d: Driver, e: Event): Outcome {
    Step(Raise(d, e), e.status, e.fetched)
  }

  /** A sequence of conditions, each raised and handled in turn; the effects
      are concatenated in order. */
  function Run(d: Driver, events: seq<Event>): Outcome {
    RunWith(Deliver, d, events)
  }

  /** Each event handled in turn by `handle`, starting from the state the
      previous one left. */
  function RunWith(handle: (Driver, Event) -> Outcome, d: Driver, events: seq<Event>): Outcome
    decreases |events|
  {
    if events == [] then Outcome(d, [])
    else
      var first := handle(d, events[0]);
      var rest := RunWith(handle, first.next, events[1..]);
      Outcome(rest.next, first.effects + rest.effects)
  }

  /** One prog_buffer_set_byte per event, with the byte the event carried. */
  function ByteWrites(events: seq<Event>): seq<Effect> {
    if events == [] then [] else [SetByte(events[0].data)] + ByteWrites(events[1..])
  }

  /** One prog_buffer_get_byte per event, with the byte it returned. */
  function ByteReads(events: seq<Event>): seq<Effect> {
    if events == [] then [] else [GetByte(events[0].fetched)] + ByteReads(events[1..])
  }

  // ---------------------------------------------------------------------
  // Properties of one handler call
  // ---------------------------------------------------------------------

  /** Without the interrupt flag the handler changes nothing and calls nothing. */
  lemma NoInterruptNoChange(d: Driver, status: Status, fetched: bv8)
    requires !d.twcr.twint
    ensures Step(d, status, fetched) == Outcome(d, [])
  {
  }

  /** Every handled condition makes at most one call into the programming
      buffer and ends with a TWCR write that sets TWINT, after every other
      effect. That final write is the only one carrying TWINT, except on a
      bus error: setting TWSTO by read-modify-write carries the TWINT bit
      that was read, so that branch writes it twice. */
  lemma HandlerReleasesBusLast(d: Driver, status: Status, fetched: bv8)
    requires d.twcr.twint
    ensures var o := Step(d, status, fetched);
      && |AdapterCalls(o.effects)| <= 1
      && |o.effects| >= 1
      && o.effects[|o.effects| - 1] == WriteControl(o.next.twcr)
      && o.next.twcr.twint
      && ReleaseCount(o.effects) == if status == BusError then 2 else 1
  {
    var p := Dispatch(d, status, fetched);
    var tail := [WriteControl(p.next.twcr.(twint := true))];
    DispatchEffects(d, status, fetched);
    AdapterCallsAppend(p.effects, tail);
    ReleaseCountAppend(p.effects, tail);
    assert ReleaseCount(tail) == 1 by {
      assert tail[1..] == [];
    }
  }

  /** The switch makes at most one effect: a TWCR write only for a bus error
      (carrying the TWINT bit that was read) or a finished read (with TWINT
      masked off). */
  lemma DispatchEffects(d: Driver, status: Status, fetched: bv8)
    requires d.twcr.twint
    ensures var p := Dispatch(d, status, fetched);
      && |p.effects| <= 1
      && |AdapterCalls(p.effects)| <= 1
      && ReleaseCount(p.effects) == (if status == BusError then 1 else 0)
      && (LastAddressSet(p.effects).Some? ==> LastAddressSet(p.effects) == Some(p.next.address))
      && (LastAddressSet(p.effects) == None && p.next.writeState == DataByte && p.next.address != SENTINEL
          ==> d.writeState == DataByte && p.next.address == d.address)
  {
    var p := Dispatch(d, status, fetched);
    if p.effects != [] {
      assert p.effects[1..] == [] && p.effects[..0] == [];
    }
  }

  /** An address match for a write, direct or by general call, restarts the
      write state and keeps the target address. */
  lemma WriteAddressMatch(d: Driver, status: Status, fetched: bv8)
    requires d.twcr.twint && status.IsWriteAddressMatch()
    ensures var o := Step(d, status, fetched);
      && o.next == d.(writeState := AddrHi)
      && AdapterCalls(o.effects) == []
  {
  }

  /** General call is handled exactly like direct addressing, both for the
      address match and for the data bytes that follow. */
  lemma GeneralCallLikeDirect(d: Driver, fetched: bv8)
    ensures Step(d, SrGcallAck, fetched) == Step(d, SrSlaAck, fetched)
    ensures Step(d, SrGcallDataAck, fetched) == Step(d, SrDataAck, fetched)
  {
  }

  /** The write state moves only forward (high byte, low byte, data), and
      back to the high byte only on a write address match. */
  lemma WriteStateAdvances(d: Driver, status: Status, fetched: bv8)
    ensures var w := Step(d, status, fetched).next.writeState;
      || w == d.writeState
      || (status.IsWriteAddressMatch() && w == AddrHi)
      || (status.IsDataReceived() && w == Advance(d.writeState))
  {
  }

  /** A received high address byte replaces the target address and waits
      for the low byte; nothing is called. */
  lemma HighByteStep(d: Driver, status: Status, fetched: bv8)
    requires d.twcr.twint && status.IsDataReceived() && d.writeState == AddrHi
    ensures var o := Step(d, status, fetched);
      && o.next == d.(address := d.twdr as bv16, writeState := AddrLo)
      && o.next.address < 256
      && AdapterCalls(o.effects) == []
  {
    var next := d.(address := d.twdr as bv16, writeState := AddrLo);
    assert Dispatch(d, status, fetched) == Receive(d) == Outcome(next, []);
    assert (d.twdr as bv16) < 256;
    assert Step(d, status, fetched).effects == [WriteControl(next.twcr.(twint := true))];
    AdapterCallsSingle(WriteControl(next.twcr.(twint := true)));
  }

  /** The driver's invariant: while the low address byte is awaited, the
      target address holds only the high byte, so shifting it left by eight
      loses nothing. */
  predicate AddressInvariant(d: Driver) {
    d.writeState == AddrLo ==> d.address < 256
  }

  lemma StepKeepsInvariant(d: Driver, status: Status, fetched: bv8)
    requires AddressInvariant(d)
    ensures AddressInvariant(Step(d, status, fetched).next)
  {
    if d.twcr.twint {
      DispatchKeepsInvariant(d, status, fetched);
    }
  }

  lemma DispatchKeepsInvariant(d: Driver, status: Status, fetched: bv8)
    requires AddressInvariant(d)
    ensures AddressInvariant(Dispatch(d, status, fetched).next)
  {
    if status.IsDataReceived() {
      assert Dispatch(d, status, fetched) == Receive(d);
      if d.writeState == AddrHi {
        assert (d.twdr as bv16) < 256;
      }
    }
  }

  /** A received low address byte completes the big-endian target address
      (high byte first) and starts the data phase; the page is selected with
      prog_buffer_set_address exactly once unless the address is the
      sentinel, and then nothing is called. */
  lemma LowByteStep(d: Driver, status: Status, fetched: bv8)
    requires AddressInvariant(d)
    requires d.twcr.twint && status.IsDataReceived() && d.writeState == AddrLo
    ensures var o := Step(d, status, fetched);
      && o.next == d.(address := o.next.address, writeState := DataByte)
      && o.next.address >> 8 == d.address
      && o.next.address & 0xFF == d.twdr as bv16
      && AdapterCalls(o.effects) == if o.next.address == SENTINEL then [] else [SetAddress(o.next.address)]
  {
    var a := AssembleAddress(d.address, d.twdr);
    var call := if a != SENTINEL then [SetAddress(a)] else [];
    assert Dispatch(d, status, fetched) == Outcome(d.(address := a, writeState := DataByte), call);
    AdapterCallsAppend(call, [WriteControl(d.twcr)]);
    AdapterCallsSingle(WriteControl(d.twcr));
    AdapterCallsSingle(SetAddress(a));
  }

  /** In the data phase each received byte goes to prog_buffer_set_byte, and
      the state and target address stay as they are. */
  lemma DataByteStep(d: Driver, status: Status, fetched: bv8)
    requires d.twcr.twint && status.IsDataReceived() && d.writeState == DataByte
    ensures var o := Step(d, status, fetched);
      && o.next == d
      && AdapterCalls(o.effects) == [SetByte(d.twdr)]
  {
    assert Receive(d) == Outcome(d, [SetByte(d.twdr)]);
    assert Dispatch(d, status, fetched) == Receive(d);
    AdapterCallsAppend([SetByte(d.twdr)], [WriteControl(d.twcr)]);
    AdapterCallsSingle(SetByte(d.twdr));
    AdapterCallsSingle(WriteControl(d.twcr));
  }

  /** STOP (or repeated START) commits the programming buffer unless the
      target address is the sentinel. Neither the write state nor the
      target address is reset. */
  lemma StopStep(d: Driver, fetched: bv8)
    requires d.twcr.twint
    ensures var o := Step(d, SrStop, fetched);
      && o.next == d
      && AdapterCalls(o.effects) == if d.address == SENTINEL then [] else [Update]
  {
    AdapterCallsAppend(Dispatch(d, SrStop, fetched).effects, [WriteControl(d.twcr)]);
  }

  /** Own address + R and every acknowledged transmitted byte fetch exactly
      one byte from the programming buffer and place it in TWDR. */
  lemma ByteRequestStep(d: Driver, status: Status, fetched: bv8)
    requires d.twcr.twint && status.IsByteRequested()
    ensures var o := Step(d, status, fetched);
      && o.next == d.(twdr := fetched)
      && AdapterCalls(o.effects) == [GetByte(fetched)]
  {
    AdapterCallsAppend([GetByte(fetched)], [WriteControl(d.twcr)]);
  }

  /** When the master stops reading, the handler sets TWEA again so that the
      slave answers the next time it is addressed; it calls nothing, and the
      first TWCR write has TWINT cleared. */
  lemma ReadFinishedStep(d: Driver, status: Status, fetched: bv8)
    requires d.twcr.twint && status.IsReadFinished()
    ensures var o := Step(d, status, fetched);
      && o.next == d.(twcr := d.twcr.(twea := true))
      && o.effects == [WriteControl(d.twcr.(twint := false, twea := true)), WriteControl(d.twcr.(twea := true))]
      && AdapterCalls(o.effects) == []
  {
  }

  /** A bus error only requests a STOP; the write state and target address
      are kept. */
  lemma BusErrorStep(d: Driver, fetched: bv8)
    requires d.twcr.twint
    ensures var o := Step(d, BusError, fetched);
      && o.next == d.(twcr := d.twcr.(twsto := true))
      && AdapterCalls(o.effects) == []
  {
  }

  /** Any other status code only releases the bus. */
  lemma UnrecognizedStep(d: Driver, fetched: bv8)
    requires d.twcr.twint
    ensures Step(d, Unrecognized, fetched) == Outcome(d, [WriteControl(d.twcr)])
  {
  }

  // ---------------------------------------------------------------------
  // Properties of sequences of conditions
  // ---------------------------------------------------------------------

  /** Running two sequences one after the other is running their
      concatenation. */
  lemma {:induction false} RunAppend(handle: (Driver, Event) -> Outcome, d: Driver, xs: seq<Event>, ys: seq<Event>)
    ensures var a := RunWith(handle, d, xs); var b := RunWith(handle, a.next, ys);
      RunWith(handle, d, xs + ys) == Outcome(b.next, a.effects + b.effects)
    decreases |xs|
  {
    if xs == [] {
      assert xs + ys == ys;
    } else {
      assert (xs + ys)[1..] == xs[1..] + ys;
      RunAppend(handle, handle(d, xs[0]).next, xs[1..], ys);
    }
  }

  /** A run is its first event followed by the rest. */
  lemma RunCons(d: Driver, events: seq<Event>)
    requires events != []
    ensures var first := Deliver(d, events[0]); var rest := Run(first.next, events[1..]);
      Run(d, events) == Outcome(rest.next, first.effects + rest.effects)
  {
  }

  lemma RunSingle(d: Driver, e: Event)
    ensures Run(d, [e]) == Deliver(d, e)
  {
    RunCons(d, [e]);
    assert [e][0] == e && [e][1..] == [];
    assert Deliver(d, e).effects + [] == Deliver(d, e).effects;
  }

  /** The address invariant holds after any sequence of conditions. */
  lemma {:induction false} RunKeepsInvariant(d: Driver, events: seq<Event>)
    requires AddressInvariant(d)
    ensures AddressInvariant(Run(d, events).next)
    decreases |events|
  {
    if events != [] {
      RunCons(d, events);
      StepKeepsInvariant(Raise(d, events[0]), events[0].status, events[0].fetched);
      RunKeepsInvariant(Deliver(d, events[0]).next, events[1..]);
    }
  }

  /** Two data bytes hi and lo received while the high byte is awaited
      leave the target address hi:lo (big-endian) in the data phase, and
      call prog_buffer_set_address(hi:lo) exactly once unless hi:lo is the
      sentinel, and nothing else. */
  lemma AddressBytes(d: Driver, hi: Event, lo: Event)
    requires d.writeState == AddrHi
    requires hi.status.IsDataReceived() && lo.status.IsDataReceived()
    ensures var o := Run(d, [hi, lo]);
      && o.next.writeState == DataByte
      && o.next.address >> 8 == hi.data as bv16
      && o.next.address & 0xFF == lo.data as bv16
      && o.next.address as int == hi.data as int * 256 + lo.data as int
      && AdapterCalls(o.effects) == if o.next.address == SENTINEL then [] else [SetAddress(o.next.address)]
  {
    var d1 := Deliver(d, hi);
    RunCons(d, [hi, lo]);
    assert [hi, lo][0] == hi && [hi, lo][1..] == [lo];
    HighByteStep(Raise(d, hi), hi.status, hi.fetched);
    RunSingle(d1.next, lo);
    LowByteStep(Raise(d1.next, lo), lo.status, lo.fetched);
    AdapterCallsAppend(d1.effects, Deliver(d1.next, lo).effects);
    BytesValue(Run(d, [hi, lo]).next.address, hi.data, lo.data);
  }

  /** An address match for a write followed by two data bytes hi and lo,
      from any state, ends like AddressBytes: the address match makes the
      driver await the high byte whatever state it was in. */
  lemma AddressCapture(d: Driver, start: Event, hi: Event, lo: Event)
    requires start.status.IsWriteAddressMatch()
    requires hi.status.IsDataReceived() && lo.status.IsDataReceived()
    ensures var o := Run(d, [start, hi, lo]);
      && o.next.writeState == DataByte
      && o.next.address >> 8 == hi.data as bv16
      && o.next.address & 0xFF == lo.data as bv16
      && o.next.address as int == hi.data as int * 256 + lo.data as int
      && AdapterCalls(o.effects) == if o.next.address == SENTINEL then [] else [SetAddress(o.next.address)]
  {
    var d1 := Deliver(d, start);
    RunCons(d, [start, hi, lo]);
    assert [start, hi, lo][0] == start && [start, hi, lo][1..] == [hi, lo];
    WriteAddressMatch(Raise(d, start), start.status, start.fetched);
    AddressBytes(d1.next, hi, lo);
    AdapterCallsAppend(d1.effects, Run(d1.next, [hi, lo]).effects);
  }

  /** In the data phase, every received byte gives exactly one
      prog_buffer_set_byte with that byte, in arrival order; the write state
      and the target address do not change. */
  lemma {:induction false} StreamingBytes(d: Driver, events: seq<Event>)
    requires d.writeState == DataByte
    requires forall i :: 0 <= i < |events| ==> events[i].status.IsDataReceived()
    ensures var o := Run(d, events);
      && o.next.writeState == DataByte
      && o.next.address == d.address
      && AdapterCalls(o.effects) == ByteWrites(events)
    decreases |events|
  {
    if events != [] {
      var first := Deliver(d, events[0]);
      RunCons(d, events);
      DataByteStep(Raise(d, events[0]), events[0].status, events[0].fetched);
      StreamingBytes(first.next, events[1..]);
      AdapterCallsAppend(first.effects, Run(first.next, events[1..]).effects);
    }
  }

  /** A whole write transaction: address match, two address bytes, any
      number of data bytes, STOP. With an ordinary address hi:lo the buffer
      sees set_address(hi:lo), one set_byte per data byte in order, then one
      update. With the sentinel it sees neither set_address nor update, but
      data bytes sent after the sentinel still reach set_byte. */
  lemma WriteTransaction(d: Driver, start: Event, hi: Event, lo: Event, body: seq<Event>, stop: Event)
    requires start.status.IsWriteAddressMatch()
    requires hi.status.IsDataReceived() && lo.status.IsDataReceived()
    requires forall i :: 0 <= i < |body| ==> body[i].status.IsDataReceived()
    requires stop.status == SrStop
    ensures var o := Run(d, [start, hi, lo] + body + [stop]);
      && o.next.address >> 8 == hi.data as bv16
      && o.next.address & 0xFF == lo.data as bv16
      && o.next.address as int == hi.data as int * 256 + lo.data as int
      && var ordinary := o.next.address != SENTINEL;
         AdapterCalls(o.effects) ==
           (if ordinary then [SetAddress(o.next.address)] else [])
           + ByteWrites(body)
           + (if ordinary then [Update] else [])
  {
    var header := [start, hi, lo];
    var a := Run(d, header);
    var b := Run(a.next, body);
    var c := Run(b.next, [stop]);
    AddressCapture(d, start, hi, lo);
    StreamingBytes(a.next, body);
    StopStep(Raise(b.next, stop), stop.fetched);
    RunSingle(b.next, stop);
    RunAppend(Deliver, d, header, body);
    RunAppend(Deliver, d, header + body, [stop]);
    AdapterCallsAppend(a.effects, b.effects);
    AdapterCallsAppend(a.effects + b.effects, c.effects);
  }

  /** In a read transaction, every byte request fetches exactly one byte
      from the programming buffer, in order, and TWDR ends up holding the
      last byte fetched; the write state and target address are untouched. */
  lemma {:induction false} StreamingReads(d: Driver, events: seq<Event>)
    requires forall i :: 0 <= i < |events| ==> events[i].status.IsByteRequested()
    ensures var o := Run(d, events);
      && o.next.writeState == d.writeState
      && o.next.address == d.address
      && (events != [] ==> o.next.twdr == events[|events| - 1].fetched)
      && AdapterCalls(o.effects) == ByteReads(events)
    decreases |events|
  {
    if events != [] {
      var first := Deliver(d, events[0]);
      RunCons(d, events);
      ByteRequestStep(Raise(d, events[0]), events[0].status, events[0].fetched);
      StreamingReads(first.next, events[1..]);
      AdapterCallsAppend(first.effects, Run(first.next, events[1..]).effects);
    }
  }

  /** A later write transaction that sends no address bytes reuses the old
      target address: address match then STOP commits unless the old address
      is the sentinel. */
  lemma StaleAddressReused(d: Driver, start: Event, stop: Event)
    requires start.status.IsWriteAddressMatch() && stop.status == SrStop
    ensures var o := Run(d, [start, stop]);
      && o.next.address == d.address
      && AdapterCalls(o.effects) == if d.address == SENTINEL then [] else [Update]
  {
    var d1 := Deliver(d, start);
    var d2 := Deliver(d1.next, stop);
    WriteAddressMatch(Raise(d, start), start.status, start.fetched);
    StopStep(Raise(d1.next, stop), stop.fetched);
    RunSingle(d, start);
    RunSingle(d1.next, stop);
    RunAppend(Deliver, d, [start], [stop]);
    assert [start] + [stop] == [start, stop];
    AdapterCallsAppend(d1.effects, d2.effects);
  }

  // ---------------------------------------------------------------------
  // The programming buffer's selected page
  // ---------------------------------------------------------------------

  /** In the data phase with an ordinary target address, the last address
      handed to the programming buffer is the target address, so set_byte
      and update act on the page the host selected. */
  predicate Coherent(d: Driver, log: seq<Effect>) {
    d.writeState == DataByte && d.address != SENTINEL ==> LastAddressSet(log) == Some(d.address)
  }

  lemma StepKeepsCoherent(d: Driver, log: seq<Effect>, status: Status, fetched: bv8)
    requires Coherent(d, log)
    ensures var o := Step(d, status, fetched); Coherent(o.next, log + o.effects)
  {
    var o := Step(d, status, fetched);
    if d.twcr.twint {
      var p := Dispatch(d, status, fetched);
      var tail := [WriteControl(o.next.twcr)];
      DispatchEffects(d, status, fetched);
      assert LastAddressSet(tail) == None by {
        assert tail[..0] == [];
      }
      LastAddressSetAppend(p.effects, tail);
      LastAddressSetAppend(log, o.effects);
    } else {
      assert log + o.effects == log;
    }
  }

  lemma {:induction false} RunKeepsCoherent(d: Driver, log: seq<Effect>, events: seq<Event>)
    requires Coherent(d, log)
    ensures var o := Run(d, events); Coherent(o.next, log + o.effects)
    decreases |events|
  {
    if events != [] {
      var first := Deliver(d, events[0]);
      var rest := Run(first.next, events[1..]);
      var raised := Raise(d, events[0]);
      RunCons(d, events);
      assert raised.writeState == d.writeState && raised.address == d.address;
      assert first == Step(raised, events[0].status, events[0].fetched);
      StepKeepsCoherent(raised, log, events[0].status, events[0].fetched);
      RunKeepsCoherent(first.next, log + first.effects, events[1..]);
      assert log + first.effects + rest.effects == log + (first.effects + rest.effects);
    } else {
      assert log + [] == log;
    }
  }

  /** A STOP in the data phase with an ordinary target address makes one
      call, prog_buffer_update, and selects no other page: afterwards the
      last address handed to the buffer is still the target address, so the
      commit acts on the page the host selected. */
  lemma CommitTargetsSelectedPage(d: Driver, log: seq<Effect>, fetched: bv8)
    requires Coherent(d, log) && d.twcr.twint
    requires d.writeState == DataByte && d.address != SENTINEL
    ensures var o := Step(d, SrStop, fetched);
      && AdapterCalls(o.effects) == [Update]
      && LastAddressSet(log + o.effects) == Some(d.address)
  {
    var o := Step(d, SrStop, fetched);
    StopStep(d, fetched);
    assert o.effects == [Update, WriteControl(d.twcr)];
    assert LastAddressSet(o.effects) == None by {
      assert o.effects[..1] == [Update] && o.effects[..1][..0] == [];
    }
    LastAddressSetAppend(log, o.effects);
  }

  // ---------------------------------------------------------------------
  // Initialisation
  // ---------------------------------------------------------------------

  /** twi_init makes the device a slave at address 34 that also answers the
      general call, acknowledges, and raises the TWI interrupt; the write
      state and target address are left as they were. */
  lemma InitConfiguresSlave(d: Driver)
    ensures var o := Initialized(d);
      && o.next.twar >> 1 == DEFAULT_TWI_ADDRESS
      && o.next.twar & (1 << TWGCE) != 0
      && o.next.twcr.twea && o.next.twcr.twen && o.next.twcr.twie
      && !o.next.twcr.twint && !o.next.twcr.twsta && !o.next.twcr.twsto && !o.next.twcr.twwc
      && o.effects == [WriteControl(o.next.twcr)]
      && o.next.writeState == d.writeState && o.next.address == d.address
      && o.next.twdr == d.twdr
  {
  }

  /** twi_deinit clears the slave address, general call and every TWCR bit;
      the one register write it makes is that all-zero TWCR. */
  lemma DeinitDisables(d: Driver)
    ensures var o := Deinitialized(d);
      && o.next.twar == 0
      && o.next.twar >> 1 == 0
      && o.next.twar & (1 << TWGCE) == 0
      && !o.next.twcr.twint && !o.next.twcr.twea && !o.next.twcr.twsta && !o.next.twcr.twsto
      && !o.next.twcr.twwc && !o.next.twcr.twen && !o.next.twcr.twie
      && o.effects == [WriteControl(o.next.twcr)]
      && o.next.writeState == d.writeState && o.next.address == d.address
      && o.next.twdr == d.twdr
  {
  }

  /** Shutting down then initialising gives the same registers as
      initialising directly. */
  lemma InitAfterDeinit(d: Driver)
    ensures Initialized(Deinitialized(d).next).next == Initialized(d).next
  {
  }
}
