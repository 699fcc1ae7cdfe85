// QtIoDeviceChecksummedMessageHeaderReader and QtIoDeviceChecksummedMessageReader: the loops
// that read a device character by character, proved to be ChecksummedFraming's functions.
module ChecksummedReader {
  import opened Wrappers
  import opened Text
  import opened ChecksummedFraming

  // The bytes that have arrived and were not read yet.
  class IoDevice {
    var pending: string

    constructor ()
      ensures pending == ""
    {
      pending := "";
    }

    method GetChar() returns (c: char)
      requires pending != ""
      modifies this
      ensures old(pending) == [c] + pending
    {
      c := pending[0];
      pending := pending[1..];
    }
  }

  class HeaderReader {
    const device: IoDevice
    const checksum: Checksum
    var state: HeaderState
    var buffer: string
    var parsedChecksumOfSizeOfData: string
    var parsedSizeOfData: int
    var parsedSizeOfDataAsString: string
    var parsedMessageChecksum: string

    constructor (device: IoDevice, checksum: Checksum)
      ensures this.device == device && this.checksum == checksum && Value() == INITIAL.header
    {
      this.device, this.checksum, state, buffer := device, checksum, LookingForSync, "";
      parsedChecksumOfSizeOfData, parsedSizeOfData, parsedSizeOfDataAsString, parsedMessageChecksum := "", 0, "", "";
    }

    function Value(): Header
      reads this
    {
      Header(state, buffer, parsedChecksumOfSizeOfData, parsedSizeOfData, parsedSizeOfDataAsString, parsedMessageChecksum)
    }

    method TryReadUntilComma() returns (found: bool)
      modifies this`buffer, device
      ensures var f := UntilComma(old(buffer), old(device.pending));
              found == f.found && buffer == f.buffer && device.pending == f.rest
    {
      while device.pending != ""
        invariant UntilComma(old(buffer), old(device.pending)) == UntilComma(buffer, device.pending)
        decreases |device.pending|
      {
        var inChar := device.GetChar();
        if inChar == ',' {
          return true;
        }
        buffer := buffer + [inChar];
        if |buffer| > SIZE_OF_LARGEST_HEADER_COMPONENT {
          buffer := buffer[1..];
        }
      }
      return false;
    }

    // The cases of the switch fall through into each other.
    method TryReadMessageHeader() returns (complete: bool, messageSize: int)
      modifies this, device
      ensures var h := ReadHeader(checksum, old(Value()), old(device.pending));
              complete == h.complete && Value() == h.header && device.pending == h.rest
      ensures complete ==> messageSize == parsedSizeOfData
    {
      hide ParseInt; hide UntilComma;
      complete, messageSize := false, 0;
      var entry := state;
      if entry == LookingForSync {
        var found := TryReadUntilComma();
        if !found { return; }
        if EndsWith(buffer, SYNC) {
          state := ReadingChecksumOfSizeOfData;
        }
        buffer := "";
      }
      if entry == LookingForSync || entry == ReadingChecksumOfSizeOfData {
        var found := TryReadUntilComma();
        if !found { return; }
        parsedChecksumOfSizeOfData := buffer;
        buffer := "";
        state := ReadingSizeOfData;
      }
      if entry != ReadingChecksumOfData {
        var found := TryReadUntilComma();
        if !found { return; }
        var converted := ParseInt(buffer, 32);
        parsedSizeOfData := if converted.Some? then converted.value else 0;
        if converted.None? {
          state := LookingForSync;
          return;
        }
        parsedSizeOfDataAsString := buffer;
        buffer := "";
        if checksum(parsedSizeOfDataAsString) != parsedChecksumOfSizeOfData {
          state := LookingForSync;
          return;
        }
        state := ReadingChecksumOfData;
      }
      var found := TryReadUntilComma();
      if !found { return; }
      parsedMessageChecksum := buffer;
      buffer := "";
      messageSize := parsedSizeOfData;
      state := LookingForSync;
      complete := true;
    }
  }

  class MessageReader {
    const device: IoDevice
    const checksum: Checksum
    const headerReader: HeaderReader
    var haveReadMessageHeader: bool
    var messageSize: int
    var numBytesOfMessageLeft: int
    var messageBuffer: string

    ghost predicate Valid()
    {
      headerReader.device == device && headerReader.checksum == checksum
    }

    function Value(): Reader
      reads this, headerReader
    {
      Reader(headerReader.Value(), haveReadMessageHeader, numBytesOfMessageLeft, messageBuffer)
    }

    constructor (device: IoDevice, checksum: Checksum)
      ensures Valid() && this.device == device && this.checksum == checksum && Value() == INITIAL && fresh(headerReader)
    {
      this.device, this.checksum := device, checksum;
      headerReader := new HeaderReader(device, checksum);
      haveReadMessageHeader, messageSize, numBytesOfMessageLeft, messageBuffer := false, 0, 0, "";
    }

    method MessageChecksumIsValid() returns (valid: bool)
      requires !haveReadMessageHeader
      modifies this
      ensures valid <==> checksum(messageBuffer) == headerReader.parsedMessageChecksum
      ensures messageBuffer == old(messageBuffer) && numBytesOfMessageLeft == old(numBytesOfMessageLeft)
      ensures messageSize == old(messageSize) && !haveReadMessageHeader
    {
      if checksum(messageBuffer) == headerReader.parsedMessageChecksum {
        return true;
      } else {
        haveReadMessageHeader := false;
        return false;
      }
    }

    method TryReadMessageActual() returns (message: Option<string>)
      requires Valid() && haveReadMessageHeader
      modifies this, device
      ensures var m := ReadBody(checksum, old(Value()), old(device.pending));
              Value() == m.reader && device.pending == m.rest && message == m.message
    {
      var numBytesToRead := if numBytesOfMessageLeft < |device.pending| then numBytesOfMessageLeft else |device.pending|;
      if numBytesToRead < 1 {
        return None;
      }
      var i := 0;
      while i < numBytesToRead
        invariant 0 <= i <= numBytesToRead
        invariant device.pending == old(device.pending)[i..] && messageBuffer == old(messageBuffer) + old(device.pending)[..i]
        invariant haveReadMessageHeader && numBytesOfMessageLeft == old(numBytesOfMessageLeft)
      {
        var inChar := device.GetChar();
        messageBuffer := messageBuffer + [inChar];
        i := i + 1;
      }
      numBytesOfMessageLeft := numBytesOfMessageLeft - numBytesToRead;
      if numBytesOfMessageLeft < 1 {
        haveReadMessageHeader := false;
        var valid := MessageChecksumIsValid();
        if valid {
          return Some(messageBuffer);
        }
      }
      return None;
    }

    method TryReadMessage() returns (message: Option<string>)
      requires Valid()
      modifies this, headerReader, device
      ensures var m := ReadMessage(checksum, old(Value()), old(device.pending));
              Value() == m.reader && device.pending == m.rest && message == m.message
    {
      hide ReadHeader; hide ReadBody;
      if !haveReadMessageHeader {
        var complete, size := headerReader.TryReadMessageHeader();
        if !complete {
          return None;
        }
        messageSize := size;
        haveReadMessageHeader := true;
        numBytesOfMessageLeft := messageSize;
        messageBuffer := "";
      }
      message := TryReadMessageActual();
    }

    // stuck: the pass of the loop left everything as it was, so the program never leaves it. That
    // is so exactly when a body of a declared size below one is awaited.
    method HandleReadyRead() returns (emitted: seq<string>, stuck: bool)
      requires Valid()
      modifies this, headerReader, device
      ensures Handled(Value(), emitted, stuck) == Handle(checksum, old(Value()), old(device.pending))
      ensures stuck <==> device.pending != ""
      ensures stuck ==> haveReadMessageHeader && numBytesOfMessageLeft < 1
    {
      hide ReadMessage; hide Handle;
      emitted, stuck := [], false;
      ghost var start, input := Value(), device.pending;
      assert forall e: seq<string> :: [] + e == e;
      while device.pending != ""
        invariant var h, all := Handle(checksum, Value(), device.pending), Handle(checksum, start, input);
                  all == Handled(h.reader, emitted + h.emitted, h.stuck)
        decreases |device.pending|
      {
        HandleStep(checksum, Value(), device.pending, emitted);
        var bytesAvailable := |device.pending|;
        var message := TryReadMessage();
        if |device.pending| == bytesAvailable {
          assert emitted + [] == emitted;
          return emitted, true;
        }
        match message {
          case None => assert emitted + [] == emitted;
          case Some(s) => emitted := emitted + [s];
        }
      }
      HandleNothing(checksum, Value());
      assert emitted + [] == emitted;
    }
  }

  // One pass of the loop.
  lemma HandleStep(checksum: Checksum, r: Reader, input: string, emitted: seq<string>)
    requires input != ""
    ensures var m, h := ReadMessage(checksum, r, input), Handle(checksum, r, input);
            if |m.rest| == |input| then
              h == Handled(m.reader, [], true) && m.reader == r && m.rest == input && r.haveReadHeader && r.bytesLeft < 1
            else
              var h' := Handle(checksum, m.reader, m.rest);
              && h'.reader == h.reader && h'.stuck == h.stuck
              && emitted + h.emitted == emitted + Emission(m.message) + h'.emitted
  {
    hide ReadHeader;
    var m := ReadMessage(checksum, r, input);
    if |m.rest| < |input| {
      var h' := Handle(checksum, m.reader, m.rest);
      assert emitted + (Emission(m.message) + h'.emitted) == emitted + Emission(m.message) + h'.emitted;
    }
  }

  lemma HandleNothing(checksum: Checksum, r: Reader)
    ensures Handle(checksum, r, "") == Handled(r, [], false)
  {
  }
}
