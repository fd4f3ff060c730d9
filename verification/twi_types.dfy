/** Values shared by the TWI (I2C) slave driver model: the bus conditions the
    hardware reports, the driver's write state, the control-register bits, and
    the observable effects of one handler call. */
module TwiTypes {

  datatype Option<T> = None | Some(value: T)

  /** The condition code the TWI hardware reports in its status register.
      The ten named codes are the ones the handler distinguishes; every other
      code is `Unrecognized`. The numeric codes belong to the C library and
      are not modelled. */
  datatype Status =
    | BusError        // illegal START or STOP on the bus
    | SrSlaAck        // own address + W received, ACK returned
    | SrGcallAck      // general call address received, ACK returned
    | SrDataAck       // data byte received after own address, ACK returned
    | SrGcallDataAck  // data byte received after general call, ACK returned
    | SrStop          // STOP or repeated START while addressed as receiver
    | StSlaAck        // own address + R received, ACK returned
    | StDataAck       // data byte transmitted, ACK received
    | StDataNack      // data byte transmitted, NACK received
    | StLastData      // last data byte transmitted, ACK received
    | Unrecognized
  {
    /** A write transaction addresses this slave (directly or by general call). */
    predicate IsWriteAddressMatch() {
      this == SrSlaAck || this == SrGcallAck
    }

    /** The hardware has placed a received data byte in TWDR. */
    predicate IsDataReceived() {
      this == SrDataAck || this == SrGcallDataAck
    }

    /** The master asks for the next byte of a read transaction. */
    predicate IsByteRequested() {
      this == StSlaAck || this == StDataAck
    }

    /** The master has finished reading. */
    predicate IsReadFinished() {
      this == StDataNack || this == StLastData
    }
  }

  /** How the next received data byte is interpreted. */
  datatype WriteState = AddrHi | AddrLo | DataByte

  /** The TWI control register TWCR, one field per bit. The bit positions
      belong to the C library and are not modelled. */
  datatype Control = Control(
    twint: bool,  // interrupt flag: set by hardware, a written one releases the bus
    twea: bool,   // enable acknowledge
    twsta: bool,  // START condition
    twsto: bool,  // STOP condition
    twwc: bool,   // write collision
    twen: bool,   // TWI enable
    twie: bool)   // TWI interrupt enable

  /** What one handler call does that another component can see, in order:
      the calls into the programming buffer and the writes to TWCR. */
  datatype Effect =
    | SetAddress(addr: bv16)        // prog_buffer_set_address
    | SetByte(value: bv8)           // prog_buffer_set_byte
    | GetByte(value: bv8)           // prog_buffer_get_byte, with the byte it returned
    | Update                        // prog_buffer_update
    | WriteControl(bits: Control)
  {
    predicate IsAdapterCall() {
      !WriteControl?
    }
  }

  /** The driver's module statics together with the three TWI registers it
      reads and writes. */
  datatype Driver = Driver(
    writeState: WriteState,
    address: bv16,
    twcr: Control,
    twdr: bv8,
    twar: bv8)

  /** One bus condition as the hardware raises it: the status code, the byte
      it has received into TWDR (read only for the data-received codes), and
      the byte prog_buffer_get_byte would return if the handler asked. */
  datatype Event = Event(status: Status, data: bv8, fetched: bv8)

  /** The state after one call together with its effects. */
  datatype Outcome = Outcome(next: Driver, effects: seq<Effect>)

  /** Target address that asks the bootloader to exit instead of selecting a page. */
  const SENTINEL: bv16 := 0xFFFF

  /** Seven-bit slave address the device answers to. */
  const DEFAULT_TWI_ADDRESS: bv8 := 34

  /** Bit number of the general-call enable in TWAR. TWAR holds the slave
      address in bits 7..1 (it is shifted left by one), leaving bit 0. */
  const TWGCE: bv8 := 0

  /** The value twi_init writes to TWAR. */
  const TWAR_INIT: bv8 := (DEFAULT_TWI_ADDRESS << 1) | (1 << TWGCE)

  /** The value twi_init writes to TWCR: acknowledge, enable, interrupt enable. */
  const TWCR_INIT: Control := Control(false, true, false, false, false, true, true)

  /** TWCR with every bit zero. */
  const TWCR_CLEARED: Control := Control(false, false, false, false, false, false, false)

  /** `(address << 8) | byte` computed in a 16-bit unsigned variable: the high
      byte of `address` is shifted out. */
  function AssembleAddress(address: bv16, low: bv8): (r: bv16)
    ensures r >> 8 == address & 0xFF && r & 0xFF == low as bv16
    ensures address < 256 ==> r >> 8 == address
  {
    (address << 8) | (low as bv16)
  }

  /** A 16-bit value is its high byte times 256 plus its low byte. */
  lemma WordValue(x: bv16)
    ensures x as int == ((x >> 8) as int) * 256 + ((x & 0xFF) as int)
  {
  }

  /** Widening a byte to 16 bits keeps its value. */
  lemma WidenKeepsValue(b: bv8)
    ensures (b as bv16) as int == b as int
  {
  }

  /** A 16-bit value whose high byte is `hi` and whose low byte is `lo` is
      the number hi * 256 + lo. */
  lemma BytesValue(x: bv16, hi: bv8, lo: bv8)
    requires x >> 8 == hi as bv16 && x & 0xFF == lo as bv16
    ensures x as int == hi as int * 256 + lo as int
  {
    WordValue(x);
    WidenKeepsValue(hi);
    WidenKeepsValue(lo);
  }

  /** The calls into the programming buffer among `effects`, in order. */
  function AdapterCalls(effects: seq<Effect>): (r: seq<Effect>)
    ensures |r| <= |effects|
  {
    if effects == [] then []
    else (if effects[0].IsAdapterCall() then [effects[0]] else []) + AdapterCalls(effects[1..])
  }

  lemma AdapterCallsSingle(e: Effect)
    ensures AdapterCalls([e]) == if e.IsAdapterCall() then [e] else []
  {
    assert [e][0] == e && [e][1..] == [];
  }

  lemma {:induction false} AdapterCallsAppend(a: seq<Effect>, b: seq<Effect>)
    ensures AdapterCalls(a + b) == AdapterCalls(a) + AdapterCalls(b)
  {
    if a == [] {
      assert a + b == b;
    } else {
      var head := if a[0].IsAdapterCall() then [a[0]] else [];
      AdapterCallsAppend(a[1..], b);
      assert (a + b)[0] == a[0];
      assert (a + b)[1..] == a[1..] + b;
      calc {
        AdapterCalls(a + b);
        head + AdapterCalls(a[1..] + b);
        head + (AdapterCalls(a[1..]) + AdapterCalls(b));
        (head + AdapterCalls(a[1..])) + AdapterCalls(b);
      }
    }
  }

  /** How many TWCR writes among `effects` carry a one in TWINT, that is,
      release the bus. */
  function ReleaseCount(effects: seq<Effect>): (n: nat)
    ensures n <= |effects|
  {
    if effects == [] then 0
    else (if effects[0].WriteControl? && effects[0].bits.twint then 1 else 0) + ReleaseCount(effects[1..])
  }

  lemma {:induction false} ReleaseCountAppend(a: seq<Effect>, b: seq<Effect>)
    ensures ReleaseCount(a + b) == ReleaseCount(a) + ReleaseCount(b)
  {
    if a == [] {
      assert a + b == b;
    } else {
      assert (a + b)[1..] == a[1..] + b;
      ReleaseCountAppend(a[1..], b);
    }
  }

  /** The address most recently passed to prog_buffer_set_address in `log`. */
  function LastAddressSet(log: seq<Effect>): (r: Option<bv16>)
    ensures r.Some? ==> SetAddress(r.value) in log
  {
    if log == [] then None
    else if log[|log| - 1].SetAddress? then Some(log[|log| - 1].addr)
    else LastAddressSet(log[..|log| - 1])
  }

  lemma {:induction false} LastAddressSetAppend(a: seq<Effect>, b: seq<Effect>)
    ensures LastAddressSet(a + b) == if LastAddressSet(b).Some? then LastAddressSet(b) else LastAddressSet(a)
  {
    if b == [] {
      assert a + b == a;
    } else {
      assert (a + b)[..|a + b| - 1] == a + b[..|b| - 1];
      LastAddressSetAppend(a, b[..|b| - 1]);
    }
  }
}
