/** The encoder and the decoder put together: a message written to a buffer and read from it. */
module PbMessages {
  import opened Wrappers
  import opened Coding
  import opened PbDecode
  import opened PbEncode
  import opened Proto
  import opened ProtoRoundTrip
  import opened ProtoWire

  /**
    Written with one descriptor and read with another: unless the buffer is too small, the reader gets the
    writer's value in each field the two share, exactly if it misses no required field and no text it
    takes in is unterminated.
   */
  method Send(d: Desc, slots: seq<Slot>, bufsize: nat, r: Desc) returns (sent: bool, got: Option<seq<Slot>>)
    requires DescOk(d) && DescOk(r) && Agree(r, d) && Fits(d, slots) && bufsize < TWO32
    ensures sent <==> Encode(d, slots).Some? && |Encode(d, slots).value| <= bufsize
    ensures sent ==>
              got == if Readable(r, d, slots, 0) && Supplies(d, r) then Some(Received(r, d, slots, |slots|)) else None
  {
    var buf := EncodeToBuffer(d, slots, bufsize);
    if buf.None? {
      return false, None;
    }
    got := DecodeBuffer(r, buf.value);
    MessageBack(r, d, slots, buf.value);
    sent := true;
  }

  /** Written and read with the same descriptor. */
  method SendBack(d: Desc, slots: seq<Slot>, bufsize: nat) returns (sent: bool, got: Option<seq<Slot>>)
    requires DescOk(d) && Fits(d, slots) && bufsize < TWO32
    ensures sent <==> Encode(d, slots).Some? && |Encode(d, slots).value| <= bufsize
    ensures sent ==> got == if Terminated(Submessage(d), Message(slots)) then Some(slots) else None
  {
    OwnReader(d, slots);
    sent, got := Send(d, slots, bufsize, d);
  }
}
