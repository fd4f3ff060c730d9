/** Whole transactions as the host drives them, from any driver state. */
module TwiScenarios {
  import opened TwiTypes
  import opened TwiModel

  /** Writing a page: address 0x0010, then the bytes 0xAB and 0xCD, then
      STOP. The page is selected once, the two bytes are stored in order and
      the buffer is committed once. */
  lemma WritePage(d: Driver)
    ensures var o := Run(d, [Event(SrSlaAck, 0, 0), Event(SrDataAck, 0x00, 0), Event(SrDataAck, 0x10, 0)]
                            + [Event(SrDataAck, 0xAB, 0), Event(SrDataAck, 0xCD, 0)]
                            + [Event(SrStop, 0, 0)]);
      && o.next.address == 0x0010
      && AdapterCalls(o.effects) == [SetAddress(0x0010), SetByte(0xAB), SetByte(0xCD), Update]
  {
    var body := [Event(SrDataAck, 0xAB, 0), Event(SrDataAck, 0xCD, 0)];
    WriteTransaction(d, Event(SrSlaAck, 0, 0), Event(SrDataAck, 0x00, 0), Event(SrDataAck, 0x10, 0),
                     body, Event(SrStop, 0, 0));
    assert ByteWrites(body) == [SetByte(0xAB), SetByte(0xCD)] by {
      assert body[1..] == [Event(SrDataAck, 0xCD, 0)] && body[1..][1..] == [];
    }
  }

  /** Sending the sentinel address 0xFFFF and STOP calls nothing in the
      programming buffer: no page is selected and nothing is committed. */
  lemma ExitRequest(d: Driver)
    ensures var o := Run(d, [Event(SrSlaAck, 0, 0), Event(SrDataAck, 0xFF, 0), Event(SrDataAck, 0xFF, 0)]
                            + [] + [Event(SrStop, 0, 0)]);
      && o.next.address == SENTINEL
      && AdapterCalls(o.effects) == []
  {
    WriteTransaction(d, Event(SrSlaAck, 0, 0), Event(SrDataAck, 0xFF, 0), Event(SrDataAck, 0xFF, 0),
                     [], Event(SrStop, 0, 0));
  }

  /** Reading two bytes: own address + R fetches the first byte and the
      acknowledged byte fetches the second, in order. */
  lemma ReadTwoBytes(d: Driver, first: bv8, second: bv8)
    ensures var o := Run(d, [Event(StSlaAck, 0, first), Event(StDataAck, 0, second)]);
      && AdapterCalls(o.effects) == [GetByte(first), GetByte(second)]
      && o.next.twdr == second
  {
    var e := [Event(StSlaAck, 0, first), Event(StDataAck, 0, second)];
    StreamingReads(d, e);
    assert e[1..] == [Event(StDataAck, 0, second)];
    assert ByteReads(e[1..][1..]) == [];
    assert ByteReads(e[1..]) == [GetByte(second)];
  }
}
