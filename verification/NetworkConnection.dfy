// NetworkMagic, ByteArrayMessageSizePeekerForIODevice and the frame loop of
// AbstractClientConnection::handleDataReceivedFromClient, proved to be NetworkFraming's functions.
module NetworkConnection {
  import opened NetworkFraming

  class IoDevice {
    var available: Bytes

    constructor ()
      ensures available == []
    {
      available := [];
    }

    method ReadByte() returns (b: Byte)
      requires available != []
      modifies this
      ensures old(available) == [b] + available
    {
      b := available[0];
      available := available[1..];
    }

    // Copies the next bytes without consuming them.
    method Peek(into: array<Byte>)
      requires into.Length <= |available|
      modifies into
      ensures into[..] == available[..into.Length]
    {
      var i := 0;
      while i < into.Length
        invariant 0 <= i <= into.Length <= |available|
        invariant into[..i] == available[..i]
      {
        into[i] := available[i];
        i := i + 1;
      }
    }

    // operator>>(QDataStream &, QByteArray &) when the whole array has arrived
    method ReadByteArray() returns (m: Message)
      requires Enough(available)
      modifies this
      ensures m == TakeMessage(old(available)) && available == AfterMessage(old(available))
    {
      var size := FromBigEndian(available);
      available := available[4..];
      if size == NULL_SIZE {
        return Null;
      }
      m := Data(available[..size]);
      available := available[size..];
    }
  }

  class NetworkMagic {
    const device: IoDevice
    var currentMagicByteIndex: nat
    var magicGot: bool

    ghost predicate Valid()
      reads this
    {
      currentMagicByteIndex < MAGIC_BYTE_SIZE || (magicGot && currentMagicByteIndex == MAGIC_BYTE_SIZE)
    }

    function Value(): State
      reads this
    {
      if magicGot then MagicGot else Seeking(currentMagicByteIndex)
    }

    constructor (device: IoDevice)
      ensures this.device == device && Valid() && Value() == START
    {
      this.device, magicGot, currentMagicByteIndex := device, false, 0;
    }

    method ConsumeByteByByteLookingForMagic() returns (seen: bool)
      requires Valid()
      modifies this, device
      ensures Valid()
      ensures var s := Search(old(Value()), old(device.available));
              seen == s.got && device.available == s.rest && Value() == if s.got then MagicGot else Seeking(s.index)
    {
      if magicGot {
        return true;
      }
      ghost var start, input := currentMagicByteIndex, device.available;
      while |device.available| > 0
        invariant !magicGot && currentMagicByteIndex < MAGIC_BYTE_SIZE
        invariant Seek(start, input) == Seek(currentMagicByteIndex, device.available)
        decreases |device.available|
      {
        var potentialMagicPiece := device.ReadByte();
        if MAGIC[currentMagicByteIndex] == potentialMagicPiece {
          currentMagicByteIndex := currentMagicByteIndex + 1;
          if currentMagicByteIndex == MAGIC_BYTE_SIZE {
            magicGot := true;
            return true;
          }
        } else {
          currentMagicByteIndex := 0;
        }
      }
      return false;
    }

    method MessageHasBeenConsumedSoPlzResetMagic()
      modifies this
      ensures Valid() && Value() == START
    {
      magicGot, currentMagicByteIndex := false, 0;
    }
  }

  class MessageSizePeeker {
    const rawSizePeek: array<Byte>
    const device: IoDevice

    constructor (device: IoDevice)
      ensures this.device == device && rawSizePeek.Length == 4 && fresh(rawSizePeek)
    {
      this.device := device;
      rawSizePeek := new Byte[4](i => 0);
    }

    method EnoughBytesAreAvailableToReadTheByteArrayMessage() returns (enough: bool)
      requires rawSizePeek.Length == 4
      modifies rawSizePeek
      ensures enough <==> Enough(device.available)
    {
      var bytesAvailable := |device.available|;
      if bytesAvailable < 4 {
        return false;
      }
      device.Peek(rawSizePeek);
      var peekedByteArraySize := FromBigEndian(rawSizePeek[..]);
      assert peekedByteArraySize == FromBigEndian(device.available);
      if peekedByteArraySize == NULL_SIZE || peekedByteArraySize == 0 {
        return true;
      }
      return bytesAvailable >= peekedByteArraySize + 4;
    }
  }

  class ClientConnection {
    const device: IoDevice
    const networkMagic: NetworkMagic
    const ioDevicePeeker: MessageSizePeeker

    ghost predicate Valid()
      reads networkMagic
    {
      && networkMagic.device == device && ioDevicePeeker.device == device && ioDevicePeeker.rawSizePeek.Length == 4
      && networkMagic.Valid()
    }

    constructor (device: IoDevice)
      ensures Valid() && this.device == device && networkMagic.Value() == START
      ensures fresh(networkMagic) && fresh(ioDevicePeeker) && fresh(ioDevicePeeker.rawSizePeek)
    {
      this.device := device;
      networkMagic := new NetworkMagic(device);
      ioDevicePeeker := new MessageSizePeeker(device);
    }

    // The messages that reach the hello switch, in order; nothing that could be read is left.
    method HandleDataReceivedFromClient() returns (dispatched: seq<Bytes>)
      requires Valid()
      modifies device, networkMagic, ioDevicePeeker.rawSizePeek
      ensures Valid()
      ensures Processed(networkMagic.Value(), device.available, dispatched)
              == Process(old(networkMagic.Value()), old(device.available))
      ensures Settled(networkMagic.Value(), device.available)
    {
      hide Enough; hide Process; hide Seek;
      dispatched := [];
      ghost var start, input := networkMagic.Value(), device.available;
      ProcessSettles(start, input);
      assert forall p: seq<Bytes> :: [] + p == p;
      while device.available != []
        invariant Valid()
        invariant var p, all := Process(networkMagic.Value(), device.available), Process(start, input);
                  all == p.(messages := dispatched + p.messages)
        decreases |device.available|
      {
        ProcessStep(networkMagic.Value(), device.available, dispatched);
        var seen := networkMagic.ConsumeByteByByteLookingForMagic();
        if !seen {
          return;
        }
        var enough := ioDevicePeeker.EnoughBytesAreAvailableToReadTheByteArrayMessage();
        if !enough {
          return;
        }
        var message := device.ReadByteArray();
        networkMagic.MessageHasBeenConsumedSoPlzResetMagic();
        if message.Data? && message.bytes != [] {
          dispatched := dispatched + [message.bytes];
        }
      }
      ProcessNothing(networkMagic.Value(), dispatched);
    }
  }

  // One pass of the loop.
  lemma ProcessStep(s: State, input: Bytes, before: seq<Bytes>)
    requires IsState(s) && input != []
    ensures var sought, p := Search(s, input), Process(s, input);
            if !sought.got then p == Processed(Seeking(sought.index), [], []) && sought.rest == [] && before + p.messages == before
            else if !Enough(sought.rest) then p == Processed(MagicGot, sought.rest, []) && before + p.messages == before
            else
              var rest := Process(START, AfterMessage(sought.rest));
              var m := TakeMessage(sought.rest);
              && |AfterMessage(sought.rest)| < |input|
              && p.state == rest.state && p.pending == rest.pending
              && before + p.messages == (if m.Data? && m.bytes != [] then before + [m.bytes] else before) + rest.messages
  {
    hide Enough; hide TakeMessage; hide AfterMessage; hide Seek;
    var sought := Search(s, input);
    assert before + [] == before;
    if sought.got && Enough(sought.rest) {
      var rest := Process(START, AfterMessage(sought.rest));
      var m := TakeMessage(sought.rest);
      assert NonEmpty([m]) == if m.Data? && m.bytes != [] then [m.bytes] else [] by { assert NonEmpty([m][1..]) == []; }
      assert before + (NonEmpty([m]) + rest.messages) == before + NonEmpty([m]) + rest.messages;
    }
  }

  lemma ProcessNothing(s: State, before: seq<Bytes>)
    requires IsState(s)
    ensures Process(s, []) == Processed(s, [], []) && before + [] == before
  {
  }
}
