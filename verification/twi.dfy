/** The TWI slave driver as the firmware has it: module statics and hardware
    registers updated in place by the three entry points. Each entry point is
    proved to do exactly what the corresponding function of TwiModel says. */
module Twi {
  import opened TwiTypes
  import opened TwiModel

  class TwiSlave {
    // Module statics of the driver.
    var writeState: WriteState
    var address: bv16

    // TWI peripheral registers: control, data, slave address.
    var twcr: Control
    var twdr: bv8
    var twar: bv8

    /** Every call into the programming buffer and every TWCR write, in order. */
    ghost var log: seq<Effect>

    /** The statics and registers as one value. */
    function State(): Driver
      reads this
    {
      Driver(writeState, address, twcr, twdr, twar)
    }

    /** Program start: the statics are zero-initialised, which makes the
        write state ADDR_HI and the target address 0; the registers hold
        whatever the hardware left in them. */
    constructor (twcr0: Control, twdr0: bv8, twar0: bv8)
      ensures State() == Driver(AddrHi, 0, twcr0, twdr0, twar0)
      ensures AddressInvariant(State()) && Coherent(State(), log)
      ensures log == []
    {
      writeState := AddrHi;
      address := 0;
      twcr, twdr, twar := twcr0, twdr0, twar0;
      log := [];
    }

    /** twi_check_conditions: handle the condition the hardware reports in
        `status`. `fetched` is the byte prog_buffer_get_byte returns if the
        handler calls it. */
    method CheckConditions(status: Status, fetched: bv8)
      modifies this
      ensures var o := Step(old(State()), status, fetched);
        State() == o.next && log == old(log) + o.effects
      ensures AddressInvariant(old(State())) ==> AddressInvariant(State())
      ensures Coherent(old(State()), old(log)) ==> Coherent(State(), log)
    {
      ghost var before, log0 := State(), log;
      if twcr.twint {
        HandleCondition(status, fetched);
        // Release the bus.
        twcr := twcr.(twint := true);
        log := log + [WriteControl(twcr)];
      }
      if AddressInvariant(before) {
        StepKeepsInvariant(before, status, fetched);
      }
      if Coherent(before, log0) {
        StepKeepsCoherent(before, log0, status, fetched);
      }
    }

    /** The switch over the status code in twi_check_conditions. */
    method HandleCondition(status: Status, fetched: bv8)
      modifies this
      ensures var o := Dispatch(old(State()), status, fetched);
        State() == o.next && log == old(log) + o.effects
    {
      match status {
        case BusError =>
          twcr := twcr.(twsto := true);
          log := log + [WriteControl(twcr)];
        case SrSlaAck | SrGcallAck =>
          writeState := AddrHi;
        case SrDataAck | SrGcallDataAck =>
          ReceiveByte();
        case SrStop =>
          if address != SENTINEL {
            log := log + [Update];
          }
        case StSlaAck | StDataAck =>
          log := log + [GetByte(fetched)];
          twdr := fetched;
        case StDataNack | StLastData =>
          twcr := twcr.(twint := false, twea := true);
          log := log + [WriteControl(twcr)];
        case Unrecognized =>
      }
    }

    /** The received-data branch of twi_check_conditions: the byte in TWDR
        is the high address byte, the low address byte or a data byte,
        depending on the write state. */
    method ReceiveByte()
      modifies this
      ensures var o := Receive(old(State()));
        State() == o.next && log == old(log) + o.effects
    {
      if writeState == AddrHi {
        address := twdr as bv16;
        writeState := AddrLo;
      } else if writeState == AddrLo {
        address := (address << 8) | (twdr as bv16);
        writeState := DataByte;
        // The sentinel asks the bootloader to exit; no new page is selected,
        // so later bytes go to the page selected before.
        if address != SENTINEL {
          log := log + [SetAddress(address)];
        }
      } else {
        log := log + [SetByte(twdr)];
      }
    }

    /** twi_init, register part: slave address 34 with general call, and
        acknowledge, enable and interrupt enable in TWCR. */
    method Init()
      modifies this
      ensures var o := Initialized(old(State()));
        State() == o.next && log == old(log) + o.effects
    {
      twar := (DEFAULT_TWI_ADDRESS << 1) | (1 << TWGCE);
      twcr := Control(false, true, false, false, false, true, true);
      log := log + [WriteControl(twcr)];
    }

    /** twi_deinit, register part: TWAR and TWCR cleared. */
    method Deinit()
      modifies this
      ensures var o := Deinitialized(old(State()));
        State() == o.next && log == old(log) + o.effects
    {
      twar := 0;
      twcr := Control(false, false, false, false, false, false, false);
      log := log + [WriteControl(twcr)];
    }
  }
}
