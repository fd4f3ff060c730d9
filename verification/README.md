# TWI slave handler of the OpenServo ATtinyX5 bootloader, in Dafny

The bootloader talks to its host over TWI (Atmel's name for I2C) as a slave.
`twi_check_conditions` handles one bus condition that the TWI hardware reports.
Each condition belongs to one of two kinds of transaction:

- **Write transaction.** The first two data bytes are a big-endian 16-bit
  target address. It is handed to the programming buffer
  (`prog_buffer_set_address`) unless it is the exit sentinel 0xFFFF. Every
  later byte goes to `prog_buffer_set_byte`. STOP commits the buffer
  (`prog_buffer_update`) unless the address is the sentinel.
- **Read transaction.** Each requested byte comes from `prog_buffer_get_byte`
  and goes into the data register TWDR.

`twi_init` and `twi_deinit` write fixed values into the slave-address
register TWAR and the control register TWCR.

The project has four modules:

- `TwiTypes` (`twi_types.dfy`) holds the values:
  - the status codes the handler distinguishes;
  - the three-valued write state;
  - TWCR as a record of its bits;
  - the driver state (the two module statics and the three registers);
  - the effects a call has.

  An effect is either a call into the programming buffer or a write to TWCR.
  The module also holds the constants: the sentinel, slave address 34, and
  the TWAR and TWCR values of `twi_init`.
- `TwiModel` (`twi_model.dfy`) describes one handler call as a function
  `Step` from a driver state and a status to the next state and the ordered
  effects. `Initialized` and `Deinitialized` do the same for the two
  register set-ups.
  - `Raise` models the peripheral between two handler calls: it sets TWINT
    and, for a received byte, loads it into TWDR.
  - `Run` models a sequence of conditions raised and handled.
  - The lemmas state what one call and whole transactions do.
- `Twi` (`twi.dfy`) is the driver as the firmware has it. The class
  `TwiSlave` keeps the statics and registers as fields. It records the
  effects in a ghost log. Its methods `CheckConditions`, `Init` and `Deinit`
  update them in place. Each method is proved to produce exactly the state
  and effects of the matching `TwiModel` function.
- `TwiScenarios` (`twi_scenarios.dfy`) works through three concrete
  transactions: writing a page, the exit request, and reading two bytes.

Addresses are `bv16` and bytes are `bv8`. `(twi_address << 8) | TWDR` is
therefore computed modulo 2^16, as in the 16-bit C variable.

The driver keeps one invariant: while the low address byte is awaited, the
target address is below 256 (`AddressInvariant`). Because of it, the shift
loses nothing. `AddressBytes` and `WriteTransaction` state the assembled
address both byte by byte (the high byte is the first byte received, and
the low byte is the second) and as the number `hi * 256 + lo`.

Some behaviour of the source may be surprising. The model keeps it as
written and states it in lemmas:

- **The bus-error branch writes TWINT twice.** It sets TWSTO by
  read-modify-write. The TWINT bit it read is 1, so that write already
  carries TWINT, and the final write carries it again. The branch for a
  finished read masks TWINT out of its own write.
- **Bytes sent after the sentinel address still reach `prog_buffer_set_byte`.**
  No new page is selected in that case, so the bytes go to the page selected
  before.
- **Neither STOP nor a bus error resets the target address.** A later write
  transaction that sends no address bytes reuses the old address.
- **General call is handled exactly like direct addressing.**

## Model

| member | source | states |
|---|---|---|
| TwiModel.Step | OpenServo/ATtinyX5_Bootloader/twi.c:31-111 | The handler itself; it has no contract of its own. What it does is stated by NoInterruptNoChange, HandlerReleasesBusLast, the per-status lemmas below, StepKeepsInvariant and StepKeepsCoherent, and Twi.TwiSlave.CheckConditions is proved equal to it. |
| TwiModel.Dispatch | OpenServo/ATtinyX5_Bootloader/twi.c:35-106 | The status switch; no contract of its own. DispatchEffects and DispatchKeepsInvariant state its properties, and Twi.TwiSlave.HandleCondition is proved equal to it. |
| TwiModel.Receive | OpenServo/ATtinyX5_Bootloader/twi.c:47-78 | The received-byte branch; no contract of its own. HighByteStep, LowByteStep and DataByteStep state each of its three cases, and Twi.TwiSlave.ReceiveByte is proved equal to it. |
| TwiModel.Initialized | OpenServo/ATtinyX5_Bootloader/twi.c:123-128 | The register writes of `twi_init`; no contract of its own. InitConfiguresSlave and InitAfterDeinit state them, and Twi.TwiSlave.Init is proved equal to it. |
| TwiModel.Deinitialized | OpenServo/ATtinyX5_Bootloader/twi.c:141-142 | The register writes of `twi_deinit`; no contract of its own. DeinitDisables states them, and Twi.TwiSlave.Deinit is proved equal to it. |
| TwiTypes.AssembleAddress | OpenServo/ATtinyX5_Bootloader/twi.c:60 | The high byte of the result is the low byte of the old address and its low byte is the received byte; when the old address is below 256 nothing is shifted out, so the high byte is the old address. |
| TwiTypes.BytesValue | OpenServo/ATtinyX5_Bootloader/twi.c:60 | A 16-bit address whose high byte is hi and whose low byte is lo is the number hi * 256 + lo. |
| TwiModel.NoInterruptNoChange | OpenServo/ATtinyX5_Bootloader/twi.c:33 | Without TWINT set, the handler leaves the state and every register unchanged and has no effect. |
| TwiModel.HandlerReleasesBusLast | OpenServo/ATtinyX5_Bootloader/twi.c:33-110 | With TWINT set, a call makes at most one programming-buffer call and ends with a TWCR write. That write comes after every other effect, equals the final TWCR and carries TWINT. TWINT is written once, or twice on a bus error. |
| TwiModel.DispatchEffects | OpenServo/ATtinyX5_Bootloader/twi.c:35-106 | The status switch has at most one effect. It writes TWCR with TWINT only on a bus error. An address it hands to the buffer is the new target address. In the data phase, without such a call, the data phase and the address were already in place. |
| TwiModel.WriteAddressMatch | OpenServo/ATtinyX5_Bootloader/twi.c:42-45 | An address match for a write, direct or by general call, moves to the high-address-byte state, keeps the target address and registers, and calls nothing. |
| TwiModel.GeneralCallLikeDirect | OpenServo/ATtinyX5_Bootloader/twi.c:42-48 | General-call address match and general-call data give exactly the outcome of their direct-addressing counterparts. |
| TwiModel.WriteStateAdvances | OpenServo/ATtinyX5_Bootloader/twi.c:42-78 | The write state stays put, goes back to the high-byte state only on a write address match, and otherwise advances one step (high, low, data, data) only on a received byte. |
| TwiModel.HighByteStep | OpenServo/ATtinyX5_Bootloader/twi.c:49-55 | The first data byte becomes the whole target address (so it is below 256) and the low-byte state follows. TWCR, TWDR and TWAR are unchanged, and nothing is called. |
| TwiModel.LowByteStep | OpenServo/ATtinyX5_Bootloader/twi.c:57-73 | In the low-byte state the old address becomes the high byte and the received byte the low byte. The data state follows, and TWCR, TWDR and TWAR are unchanged. `prog_buffer_set_address` is called exactly once with that address if it is not 0xFFFF, and nothing is called otherwise. |
| TwiModel.DataByteStep | OpenServo/ATtinyX5_Bootloader/twi.c:75-77 | In the data state a received byte gives exactly one `prog_buffer_set_byte` with TWDR, and nothing else changes. |
| TwiModel.StopStep | OpenServo/ATtinyX5_Bootloader/twi.c:80-89 | STOP calls `prog_buffer_update` exactly once if and only if the target address is not 0xFFFF. The write state, the address and the registers stay as they are. |
| TwiModel.ByteRequestStep | OpenServo/ATtinyX5_Bootloader/twi.c:91-94 | Own address + R and an acknowledged transmitted byte each make exactly one `prog_buffer_get_byte` call and place its result in TWDR; nothing else changes. |
| TwiModel.ReadFinishedStep | OpenServo/ATtinyX5_Bootloader/twi.c:96-100 | NACK or last byte sets TWEA and calls nothing. The exact two TWCR writes are: the first with TWINT masked, then the release. |
| TwiModel.BusErrorStep | OpenServo/ATtinyX5_Bootloader/twi.c:37-40 | A bus error sets TWSTO and changes nothing else: no state or address reset, no call. |
| TwiModel.UnrecognizedStep | OpenServo/ATtinyX5_Bootloader/twi.c:102-105 | Any other status only writes TWCR back with TWINT. |
| TwiModel.StepKeepsInvariant | OpenServo/ATtinyX5_Bootloader/twi.c:49-63 | Every handler call preserves the address invariant, so in the low-byte state the target address is below 256. |
| TwiModel.DispatchKeepsInvariant | OpenServo/ATtinyX5_Bootloader/twi.c:35-106 | The status switch preserves the address invariant. |
| TwiModel.RunKeepsInvariant | OpenServo/ATtinyX5_Bootloader/twi.c:49-63 | The address invariant holds after any sequence of raised and handled conditions. |
| TwiModel.AddressBytes | OpenServo/ATtinyX5_Bootloader/twi.c:49-73 | From the high-byte state, two received bytes hi, lo leave the data state with the address hi:lo: high byte hi, low byte lo, numerically hi * 256 + lo. `prog_buffer_set_address(hi:lo)` is the only call, and it is made only when hi:lo is not 0xFFFF. |
| TwiModel.AddressCapture | OpenServo/ATtinyX5_Bootloader/twi.c:42-73 | The same outcome from any state, when the two bytes follow a write address match. |
| TwiModel.StreamingBytes | OpenServo/ATtinyX5_Bootloader/twi.c:75-77 | In the data state, any number of received bytes give exactly one `prog_buffer_set_byte` each, in arrival order, and leave the state and address unchanged. |
| TwiModel.WriteTransaction | OpenServo/ATtinyX5_Bootloader/twi.c:42-89 | A whole write transaction (address match, hi, lo, data bytes, STOP) from any state ends with the address hi:lo, numerically hi * 256 + lo. For an ordinary address the buffer sees set_address, one set_byte per data byte in order, then update. For 0xFFFF it sees only the set_byte calls. |
| TwiModel.StreamingReads | OpenServo/ATtinyX5_Bootloader/twi.c:91-94 | Any number of byte requests give one `prog_buffer_get_byte` each, in order. TWDR ends with the last byte fetched, and the write state and address are unchanged. |
| TwiModel.StaleAddressReused | OpenServo/ATtinyX5_Bootloader/twi.c:42-89 | A write address match followed directly by STOP keeps the old address and commits it unless it is 0xFFFF. |
| TwiModel.StepKeepsCoherent | OpenServo/ATtinyX5_Bootloader/twi.c:57-89 | One handler call keeps this property: in the data phase with an ordinary address, the last address handed to the buffer is the target address. |
| TwiModel.RunKeepsCoherent | OpenServo/ATtinyX5_Bootloader/twi.c:57-89 | Any sequence of raised and handled conditions also keeps it. |
| TwiModel.CommitTargetsSelectedPage | OpenServo/ATtinyX5_Bootloader/twi.c:80-88 | With a coherent history, a STOP in the data phase with an ordinary address makes exactly one call, `prog_buffer_update`. It selects no other page: afterwards the last `prog_buffer_set_address` in the log is still the target address. |
| TwiModel.InitConfiguresSlave | OpenServo/ATtinyX5_Bootloader/twi.c:123-128 | `twi_init` puts slave address 34 in TWAR bits 7..1 and sets general-call enable. It sets TWEA, TWEN and TWIE but not TWINT, TWSTA, TWSTO or TWWC. TWCR is written exactly once, and the write state, address and TWDR are left alone. |
| TwiModel.DeinitDisables | OpenServo/ATtinyX5_Bootloader/twi.c:141-142 | `twi_deinit` leaves TWAR = 0, so the slave address and general-call enable are cleared. It leaves all seven TWCR bits clear (TWCR = 0), writes TWCR exactly once, and leaves the write state, address and TWDR alone. |
| TwiModel.InitAfterDeinit | OpenServo/ATtinyX5_Bootloader/twi.c:123-142 | `twi_init` after `twi_deinit` gives the same state as `twi_init` alone. |
| TwiScenarios.WritePage | OpenServo/ATtinyX5_Bootloader/twi.c:42-89 | Writing 0xAB, 0xCD to address 0x0010 makes exactly the calls set_address(0x0010), set_byte(0xAB), set_byte(0xCD), update. |
| TwiScenarios.ExitRequest | OpenServo/ATtinyX5_Bootloader/twi.c:57-89 | Sending the address 0xFFFF and STOP makes no programming-buffer call. |
| TwiScenarios.ReadTwoBytes | OpenServo/ATtinyX5_Bootloader/twi.c:91-94 | Reading two bytes fetches them in order and leaves the second in TWDR. |
| Twi.TwiSlave.constructor | OpenServo/ATtinyX5_Bootloader/twi.c:25-28 | The zero-initialised statics give the high-byte state and address 0, with an empty log. The address invariant and the coherence of the log hold from the start. |
| Twi.TwiSlave.CheckConditions | OpenServo/ATtinyX5_Bootloader/twi.c:31-111 | The in-place handler leaves exactly the state `Step` gives and appends exactly its effects to the log. It preserves the address invariant and the coherence of its log: in the data phase with an ordinary address, the last page handed to the buffer is the target address. |
| Twi.TwiSlave.HandleCondition | OpenServo/ATtinyX5_Bootloader/twi.c:35-106 | The in-place status switch matches `Dispatch` in state and effects. |
| Twi.TwiSlave.ReceiveByte | OpenServo/ATtinyX5_Bootloader/twi.c:49-77 | The in-place received-byte branch matches `Receive` in state and effects. |
| Twi.TwiSlave.Init | OpenServo/ATtinyX5_Bootloader/twi.c:123-128 | The register writes of `twi_init` match `Initialized`, including the TWCR write in the log. |
| Twi.TwiSlave.Deinit | OpenServo/ATtinyX5_Bootloader/twi.c:141-142 | The register writes of `twi_deinit` match `Deinitialized`, including the TWCR write in the log. |

## Left out

- The pin and clock set-up in `twi_init` and `twi_deinit` (PRR, PORTC and DDRC) is plain port I/O without logic. Note that `twi_deinit` clears the PRTWI bit just as `twi_init` does, so it does not switch the TWI clock off.
- The `prog_buffer_*` functions are implemented in the programming-buffer component, which is not part of this model. Calls to them are recorded as effects in order. The byte `prog_buffer_get_byte` returns is a parameter.
- Interrupt dispatch, reentrancy and bus timing (clock stretching, how fast TWINT is cleared) are left out. One handler call is one atomic step.
- The hardware is not modelled. Registers hold the value last written; there are no write-one-to-clear semantics for TWINT and no automatic clearing of TWSTO. Between handler calls, `Raise` supplies only what the hardware must do for the handler to run: set TWINT and load a received byte into TWDR. One consequence: every handled call leaves TWINT set in the model's TWCR (the release write carries it), so calling `Twi.TwiSlave.CheckConditions` again without a new condition handles the same status a second time; in the data phase that repeats `prog_buffer_set_byte` with the same TWDR. On the hardware the written one clears TWINT and the second call does nothing. The `Run`-level lemmas are unaffected, because `Raise` sets TWINT before each call.
- The numeric TW_* status codes and the bit positions of TWCR come from the C library headers and are not modelled. Statuses are an enumeration, and TWCR is a record of named bits. General-call enable is bit 0 of TWAR, below the shifted slave address.
- The commented-out hooks for error reporting and the bootloader's active and exit flags have no behaviour in the source.
