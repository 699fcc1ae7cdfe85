// Magic and length prefixed messages: what a connection takes out of a stream of bytes, as a
// function of what it has seen, and why the way the bytes were cut does not matter.
module NetworkFraming {
  import opened Text
  import opened Lists

  type Byte = n: int | 0 <= n < 256
  type Bytes = seq<Byte>

  const MAGIC_BYTE_SIZE := 4
  // F, U, C, K
  const MAGIC: Bytes := [0x46, 0x55, 0x43, 0x4B]

  // ---------- the wire format ----------

  // QDataStream writes a quint32 with the most significant byte first.
  function BigEndian(n: int): (b: Bytes)
    requires 0 <= n < 0x1_0000_0000
    ensures |b| == 4
  {
    [n / 0x100_0000, n / 0x1_0000 % 256, n / 256 % 256, n % 256]
  }

  function FromBigEndian(b: Bytes): (n: int)
    requires |b| >= 4
    ensures 0 <= n < 0x1_0000_0000
  {
    ((b[0] as int * 256 + b[1] as int) * 256 + b[2] as int) * 256 + b[3] as int
  }

  // A QByteArray may be null, which is streamed as a length of all ones.
  datatype Message = Null | Data(bytes: Bytes)

  const NULL_SIZE := 0xFFFF_FFFF

  predicate Streamable(m: Message) { m.Data? ==> |m.bytes| < 0x8000_0000 }

  function Streamed(m: Message): Bytes
    requires Streamable(m)
  {
    match m
    case Null => BigEndian(NULL_SIZE)
    case Data(b) => BigEndian(|b|) + b
  }

  function Frame(m: Message): Bytes
    requires Streamable(m)
  {
    MAGIC + Streamed(m)
  }

  function Frames(ms: seq<Message>): Bytes
    requires forall m | m in ms :: Streamable(m)
  {
    if ms == [] then [] else Frame(ms[0]) + Frames(ms[1..])
  }

  // Null and empty messages are consumed and dropped.
  function NonEmpty(ms: seq<Message>): seq<Bytes>
  {
    if ms == [] then []
    else
      var rest := NonEmpty(ms[1..]);
      if ms[0].Data? && ms[0].bytes != [] then [ms[0].bytes] + rest else rest
  }

  // ---------- taking the stream apart ----------

  datatype Sought = Sought(got: bool, index: nat, rest: Bytes)

  function Seek(index: nat, input: Bytes): (s: Sought)
    requires index < MAGIC_BYTE_SIZE
    ensures !s.got ==> s.rest == [] && s.index < MAGIC_BYTE_SIZE
    ensures s.got ==> |s.rest| < |input| && s.rest == input[|input| - |s.rest|..] && s.index == MAGIC_BYTE_SIZE
    decreases |input|
  {
    if input == [] then Sought(false, index, [])
    else if MAGIC[index] == input[0] then
      if index + 1 == MAGIC_BYTE_SIZE then Sought(true, MAGIC_BYTE_SIZE, input[1..]) else Seek(index + 1, input[1..])
    else Seek(0, input[1..])
  }

  predicate Enough(input: Bytes)
  {
    |input| >= 4
    && var size := FromBigEndian(input);
       size == NULL_SIZE || size == 0 || |input| >= size + 4
  }

  function TakeMessage(input: Bytes): Message
    requires Enough(input)
  {
    var size := FromBigEndian(input);
    if size == NULL_SIZE then Null else Data(input[4..4 + size])
  }

  function AfterMessage(input: Bytes): (r: Bytes)
    requires Enough(input)
    ensures |r| < |input|
  {
    var size := FromBigEndian(input);
    if size == NULL_SIZE then input[4..] else input[4 + size..]
  }

  // Either the magic is sought, with so many bytes of it seen, or it was found.
  datatype State = Seeking(index: nat) | MagicGot

  predicate IsState(s: State) { s.Seeking? ==> s.index < MAGIC_BYTE_SIZE }

  const START := Seeking(0)

  // pending: the bytes left in the device.
  datatype Processed = Processed(state: State, pending: Bytes, messages: seq<Bytes>)

  function Following(before: seq<Bytes>, p: Processed): Processed
  {
    p.(messages := before + p.messages)
  }

  lemma FollowingTwice(a: seq<Bytes>, b: seq<Bytes>, p: Processed)
    ensures Following(a, Following(b, p)) == Following(a + b, p) && Following([], p) == p
  {
    assert a + (b + p.messages) == a + b + p.messages;
    assert [] + p.messages == p.messages;
  }

  function Search(s: State, input: Bytes): Sought
    requires IsState(s)
  {
    match s
    case MagicGot => Sought(true, MAGIC_BYTE_SIZE, input)
    case Seeking(i) => Seek(i, input)
  }

  function Process(s: State, input: Bytes): (p: Processed)
    requires IsState(s)
    ensures IsState(p.state)
    decreases |input|
  {
    if input == [] then Processed(s, [], [])
    else
      var sought := Search(s, input);
      if !sought.got then Processed(Seeking(sought.index), [], [])
      else if !Enough(sought.rest) then Processed(MagicGot, sought.rest, [])
      else
        Following(NonEmpty([TakeMessage(sought.rest)]), Process(START, AfterMessage(sought.rest)))
  }

  // The handler runs whenever more bytes have arrived.
  function ProcessAll(s: State, pending: Bytes, chunks: seq<Bytes>): Processed
    requires IsState(s)
    decreases |chunks|
  {
    if chunks == [] then Processed(s, pending, [])
    else
      var first := Process(s, pending + chunks[0]);
      Following(first.messages, ProcessAll(first.state, first.pending, chunks[1..]))
  }

  // ---------- the way the bytes are cut does not matter, for any bytes ----------

  // Nothing that could be handled is left over.
  predicate Settled(s: State, pending: Bytes)
  {
    IsState(s) && if s.MagicGot? then !Enough(pending) else pending == []
  }

  lemma {:induction false} ProcessSettles(s: State, input: Bytes)
    requires IsState(s)
    ensures var p := Process(s, input); IsState(p.state) && Settled(p.state, p.pending)
    decreases |input|
  {
    if input != [] {
      var sought := Search(s, input);
      if sought.got && Enough(sought.rest) {
        ProcessSettles(START, AfterMessage(sought.rest));
      }
    }
  }

  lemma {:induction false} SeekOn(index: nat, a: Bytes, b: Bytes)
    requires index < MAGIC_BYTE_SIZE
    ensures var s := Seek(index, a);
            Seek(index, a + b) == if s.got then s.(rest := s.rest + b) else Seek(s.index, b)
    decreases |a|
  {
    if a == [] {
      assert a + b == b;
    } else {
      assert (a + b)[1..] == a[1..] + b;
      if MAGIC[index] != a[0] {
        SeekOn(0, a[1..], b);
      } else if index + 1 < MAGIC_BYTE_SIZE {
        SeekOn(index + 1, a[1..], b);
      }
    }
  }

  lemma EnoughStays(a: Bytes, b: Bytes)
    requires Enough(a)
    ensures Enough(a + b) && TakeMessage(a + b) == TakeMessage(a) && AfterMessage(a + b) == AfterMessage(a) + b
  {
  }

  lemma SettledProcess(s: State, pending: Bytes)
    requires Settled(s, pending)
    ensures Process(s, pending) == Processed(s, pending, [])
  {
  }

  lemma SearchOn(s: State, a: Bytes, b: Bytes)
    requires IsState(s)
    ensures var sought := Search(s, a);
            Search(s, a + b) == if sought.got then sought.(rest := sought.rest + b) else Seek(sought.index, b)
  {
    if s.Seeking? { SeekOn(s.index, a, b); }
  }

  // What is done once the search has come to an end.
  function Found(sought: Sought): Processed
    requires !sought.got ==> sought.index < MAGIC_BYTE_SIZE
  {
    if !sought.got then Processed(Seeking(sought.index), [], [])
    else if !Enough(sought.rest) then Processed(MagicGot, sought.rest, [])
    else
      Following(NonEmpty([TakeMessage(sought.rest)]), Process(START, AfterMessage(sought.rest)))
  }

  lemma ProcessIsFound(s: State, input: Bytes)
    requires IsState(s)
    ensures Process(s, input) == Found(Search(s, input))
  {
  }

  lemma {:induction false} ProcessOn(s: State, a: Bytes, b: Bytes)
    requires IsState(s)
    ensures var p := Process(s, a);
            Process(s, a + b) == Following(p.messages, Process(p.state, p.pending + b))
    decreases |a|
  {
    hide Enough; hide TakeMessage; hide AfterMessage; hide Seek; hide Process; hide Following; hide NonEmpty;
    var p := Process(s, a);
    var q := Process(p.state, p.pending + b);
    var sought := Search(s, a);
    ProcessIsFound(s, a);
    ProcessIsFound(s, a + b);
    ProcessIsFound(p.state, p.pending + b);
    SearchOn(s, a, b);
    FollowingTwice([], [], q);
    if !sought.got {
      assert [] + b == b;
    } else if Enough(sought.rest) {
      EnoughStays(sought.rest, b);
      var rest := Process(START, AfterMessage(sought.rest));
      ProcessOn(START, AfterMessage(sought.rest), b);
      var first := NonEmpty([TakeMessage(sought.rest)]);
      FollowingParts(first, rest);
      FollowingTwice(first, rest.messages, q);
    }
  }

  lemma FollowingParts(before: seq<Bytes>, p: Processed)
    ensures var q := Following(before, p);
            q.state == p.state && q.pending == p.pending && q.messages == before + p.messages
  {
  }

  lemma {:induction false} ChunksDoNotMatter(s: State, pending: Bytes, chunks: seq<Bytes>)
    requires IsState(s) && Settled(s, pending)
    ensures ProcessAll(s, pending, chunks) == Process(s, pending + Joined(chunks))
    decreases |chunks|
  {
    hide Settled; hide Process;
    if chunks == [] {
      assert pending + [] == pending;
      SettledProcess(s, pending);
    } else {
      var first := Process(s, pending + chunks[0]);
      ProcessSettles(s, pending + chunks[0]);
      ChunksDoNotMatter(first.state, first.pending, chunks[1..]);
      ProcessOn(s, pending + chunks[0], Joined(chunks[1..]));
      assert pending + chunks[0] + Joined(chunks[1..]) == pending + Joined(chunks);
    }
  }

  // ---------- frames ----------

  lemma BigEndianBack(n: int, rest: Bytes)
    requires 0 <= n < 0x1_0000_0000
    ensures FromBigEndian(BigEndian(n) + rest) == n
  {
    var a, b, c := n / 256, n / 0x1_0000, n / 0x100_0000;
    assert n == 256 * a + n % 256;
    assert b == a / 256 && a == 256 * b + a % 256;
    assert c == b / 256 && b == 256 * c + b % 256 && c < 256;
  }

  lemma MagicIsFound(rest: Bytes)
    ensures Seek(0, MAGIC + rest) == Sought(true, MAGIC_BYTE_SIZE, rest)
  {
    var input := MAGIC + rest;
    assert input[1..] == MAGIC[1..] + rest && input[1..][1..] == MAGIC[2..] + rest;
    assert input[1..][1..][1..] == MAGIC[3..] + rest && input[1..][1..][1..][1..] == rest;
    assert Seek(3, input[1..][1..][1..]).got;
    assert Seek(2, input[1..][1..]).got;
    assert Seek(1, input[1..]).got;
  }

  lemma MessageIsTaken(m: Message, rest: Bytes)
    requires Streamable(m)
    ensures Enough(Streamed(m) + rest) && TakeMessage(Streamed(m) + rest) == m && AfterMessage(Streamed(m) + rest) == rest
  {
    match m {
      case Null => BigEndianBack(NULL_SIZE, rest);
      case Data(b) =>
        assert Streamed(m) + rest == BigEndian(|b|) + (b + rest);
        BigEndianBack(|b|, b + rest);
    }
  }

  lemma NonEmptyStep(ms: seq<Message>)
    requires ms != []
    ensures NonEmpty(ms) == NonEmpty([ms[0]]) + NonEmpty(ms[1..])
  {
    assert NonEmpty([ms[0]][1..]) == [];
  }

  lemma {:induction false} FramesProcess(ms: seq<Message>, rest: Bytes)
    requires forall m | m in ms :: Streamable(m)
    ensures var p := Process(START, rest);
            Process(START, Frames(ms) + rest) == Following(NonEmpty(ms), p)
    decreases |ms|
  {
    hide Enough; hide TakeMessage; hide AfterMessage; hide Seek; hide Streamed;
    var p := Process(START, rest);
    if ms == [] {
      assert Frames(ms) + rest == rest && [] + p.messages == p.messages;
    } else {
      var tail := Frames(ms[1..]) + rest;
      assert Frames(ms) + rest == MAGIC + (Streamed(ms[0]) + tail);
      MagicIsFound(Streamed(ms[0]) + tail);
      MessageIsTaken(ms[0], tail);
      FramesProcess(ms[1..], rest);
      NonEmptyStep(ms);
      assert NonEmpty([ms[0]]) + (NonEmpty(ms[1..]) + p.messages) == NonEmpty(ms) + p.messages;
    }
  }

  // Frames cut in any way arrive as exactly the messages that are not empty, in order, and the
  // connection is as it was at the start. Bytes of a frame that is still under way wait.
  lemma FramesComeBack(ms: seq<Message>, chunks: seq<Bytes>)
    requires forall m | m in ms :: Streamable(m)
    requires Joined(chunks) == Frames(ms)
    ensures ProcessAll(START, [], chunks) == Processed(START, [], NonEmpty(ms))
  {
    ChunksDoNotMatter(START, [], chunks);
    FramesProcess(ms, []);
    assert [] + Joined(chunks) == Joined(chunks) && Frames(ms) + [] == Frames(ms) && NonEmpty(ms) + [] == NonEmpty(ms);
  }

  // ---------- the matcher on any bytes ----------

  // With index bytes of the magic already seen, a match means that the last four bytes are the
  // magic, and without one the index still counts bytes of the magic at the end.
  lemma {:induction false} SeekIsSound(index: nat, input: Bytes)
    requires index < MAGIC_BYTE_SIZE
    ensures var s := Seek(index, input);
            EndsWith(MAGIC[..index] + input[..|input| - |s.rest|], MAGIC[..s.index])
    decreases |input|
  {
    if input == [] {
      assert MAGIC[..index] + input[..0] == MAGIC[..index];
    } else if MAGIC[index] == input[0] && index + 1 == MAGIC_BYTE_SIZE {
      assert MAGIC[..index] + input[..1] == MAGIC;
    } else {
      var i := if MAGIC[index] == input[0] then index + 1 else 0;
      SeekIsSound(i, input[1..]);
      SoundStep(index, i, input, |input| - |Seek(index, input).rest|, MAGIC[..Seek(index, input).index]);
    }
  }

  lemma SoundStep(index: nat, i: nat, input: Bytes, n: nat, seen: Bytes)
    requires index < MAGIC_BYTE_SIZE && input != [] && 0 < n <= |input|
    requires i == if MAGIC[index] == input[0] then index + 1 else 0
    requires EndsWith(MAGIC[..i] + input[1..][..n - 1], seen)
    ensures EndsWith(MAGIC[..index] + input[..n], seen)
  {
    var more := input[1..][..n - 1];
    assert input[..n] == [input[0]] + more;
    if MAGIC[index] == input[0] {
      assert MAGIC[..i] == MAGIC[..index] + [input[0]];
      assert MAGIC[..index] + input[..n] == MAGIC[..i] + more;
    } else {
      EndsWithMore(MAGIC[..index] + [input[0]], MAGIC[..i] + more, seen);
      assert MAGIC[..i] + more == more;
      assert MAGIC[..index] + [input[0]] + more == MAGIC[..index] + input[..n];
    }
  }

  lemma EndsWithMore(front: Bytes, s: Bytes, t: Bytes)
    requires EndsWith(s, t)
    ensures EndsWith(front + s, t)
  {
  }

  // A magic that follows a prefix without one is found if and only if the prefix leaves nothing
  // half matched: the byte that breaks a match is not tried as the first of the next one.
  lemma MagicFoundIff(prefix: Bytes, rest: Bytes)
    requires !Seek(0, prefix).got
    ensures Seek(0, prefix + MAGIC).got <==> Seek(0, prefix).index == 0
    ensures Seek(0, prefix).index == 0 ==> Seek(0, prefix + MAGIC + rest) == Sought(true, MAGIC_BYTE_SIZE, rest)
    ensures Seek(0, prefix).index != 0 ==> Seek(0, prefix + MAGIC) == Sought(false, 0, [])
  {
    var i := Seek(0, prefix).index;
    SeekOn(0, prefix, MAGIC);
    SeekOn(0, prefix, MAGIC + rest);
    assert prefix + MAGIC + rest == prefix + (MAGIC + rest);
    MagicIsFound(rest);
    MagicIsFound([]);
    assert MAGIC + [] == MAGIC;
    if i != 0 {
      assert MAGIC[1..][1..] == MAGIC[2..] && MAGIC[2..][1..] == MAGIC[3..] && MAGIC[3..][1..] == [];
      assert Seek(0, MAGIC[3..]) == Sought(false, 0, []);
      assert Seek(0, MAGIC[2..]) == Sought(false, 0, []);
      assert Seek(0, MAGIC[1..]) == Sought(false, 0, []);
    }
  }

  // On the bytes: a prefix can only hide the frame behind it by ending in a beginning of the magic.
  lemma HidesOnlyByItsEnd(prefix: Bytes, rest: Bytes)
    requires !Seek(0, prefix).got && forall j | 0 < j < MAGIC_BYTE_SIZE :: !EndsWith(prefix, MAGIC[..j])
    ensures Seek(0, prefix + MAGIC + rest) == Sought(true, MAGIC_BYTE_SIZE, rest)
  {
    SeekIsSound(0, prefix);
    assert MAGIC[..0] + prefix[..|prefix|] == prefix;
    hide EndsWith;
    MagicFoundIff(prefix, rest);
  }

  lemma BeginsInside(prefix: Bytes, n: nat, j: nat)
    requires n <= |prefix| && 0 < j <= MAGIC_BYTE_SIZE && EndsWith(prefix[..n], MAGIC[..j])
    ensures MAGIC[0] in prefix
  {
    assert prefix[n - j] == prefix[..n][n - j..][0] == MAGIC[..j][0];
  }

  // So no bytes without the first one of the magic hide a frame.
  lemma NothingHiddenWithoutFirstByte(prefix: Bytes, rest: Bytes)
    requires MAGIC[0] !in prefix
    ensures Seek(0, prefix + MAGIC + rest) == Sought(true, MAGIC_BYTE_SIZE, rest)
  {
    forall n: nat, j: nat | n <= |prefix| && 0 < j <= MAGIC_BYTE_SIZE ensures !EndsWith(prefix[..n], MAGIC[..j]) {
      if EndsWith(prefix[..n], MAGIC[..j]) { BeginsInside(prefix, n, j); }
    }
    SeekIsSound(0, prefix);
    var n := |prefix| - |Seek(0, prefix).rest|;
    assert MAGIC[..0] + prefix[..n] == prefix[..n] && prefix[..|prefix|] == prefix;
    hide EndsWith;
    HidesOnlyByItsEnd(prefix, rest);
  }

  // A merge hands the matcher a new device without resetting it: the first frame from there is
  // found if and only if nothing was half read on the old one.
  lemma NewDeviceNeedsFreshMatcher(s: State, rest: Bytes)
    requires IsState(s)
    ensures Search(s, MAGIC + rest) == Sought(true, MAGIC_BYTE_SIZE, rest) <==> s == START
  {
    MagicIsFound(rest);
    if s.Seeking? && s.index != 0 {
      var input := MAGIC + rest;
      assert input[1..] == MAGIC[1..] + rest && input[1..][1..] == MAGIC[2..] + rest;
      assert input[1..][1..][1..] == MAGIC[3..] + rest && input[1..][1..][1..][1..] == rest;
      assert Seek(0, input[1..][1..]) == Seek(0, rest);
      assert Seek(s.index, input) == Seek(0, rest);
    }
  }

  // One stray first byte hides the frame behind it, two do not.
  lemma StrayFirstBytes()
    ensures !Seek(0, [MAGIC[0]] + MAGIC).got && Seek(0, [MAGIC[0], MAGIC[0]] + MAGIC).got
  {
    assert [MAGIC[0]][1..] == [] && [MAGIC[0], MAGIC[0]][1..] == [MAGIC[0]];
    assert Seek(1, [MAGIC[0]]) == Sought(false, 0, []);
    MagicFoundIff([MAGIC[0]], []);
    MagicFoundIff([MAGIC[0], MAGIC[0]], []);
  }
}
