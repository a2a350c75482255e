/** Fixed-capacity messages and their transport through the IPC buffer (ipc.rs). */
module Messages {
  import opened Machine

  const MESSAGE_CAPACITY: nat := 120
  const EXTRA_CAPACITY: nat := 4

  // The recoverable failures of the IPC layer.
  datatype IpcError =
    | MessageTooLong(length: nat, capacity: nat)
    | TooManyCapabilities(count: nat, capacity: nat)
    | InvalidMessageIndex(index: nat, length: nat)
    | ReceiveCapacityExceeded(count: nat, capacity: nat)
    | InvalidReceiveSlot
    | InvalidReceivePath
    | ReplyPending
    | NoReplySlots
    | NoReplyAuthority
    | ReplyCapabilityOperationFailed

  // What the kernel reports about a message besides its words.
  datatype MessageInfo = MessageInfo(tag: usize, length: nat, extraCaps: nat, capsUnwrapped: nat)

  datatype Message = Message(
    tag: usize, words: seq<usize>, length: nat, capabilities: seq<usize>, extraCaps: nat, capsUnwrapped: nat)
  {
    predicate Valid() {
      && |words| == MESSAGE_CAPACITY && length <= MESSAGE_CAPACITY
      && |capabilities| == EXTRA_CAPACITY && extraCaps <= EXTRA_CAPACITY
    }

    // The payload, without the unused rest.
    function Words(): seq<usize>
      requires Valid()
    {
      words[..length]
    }

    function Word(index: nat): Result<usize, IpcError>
      requires Valid()
    {
      if index >= length then Err(InvalidMessageIndex(index, length))
      else if index < |words| then Ok(words[index])
      else Err(InvalidMessageIndex(index, length))
    }
  }

  function Empty(tag: usize): Message {
    Message(tag, seq(MESSAGE_CAPACITY, _ => 0), 0, seq(EXTRA_CAPACITY, _ => 0), 0, 0)
  }

  // `content` in front of what was there.
  function Overwritten(content: seq<usize>, was: seq<usize>): seq<usize>
    requires |content| <= |was|
  {
    content + was[|content|..]
  }

  // The message that carries a payload and capabilities which fit.
  function Composed(tag: usize, words: seq<usize>, capabilities: seq<usize>): Message
    requires |words| <= MESSAGE_CAPACITY && |capabilities| <= EXTRA_CAPACITY
  {
    var empty := Empty(tag);
    empty.(words := Overwritten(words, empty.words), length := |words|,
           capabilities := Overwritten(capabilities, empty.capabilities), extraCaps := |capabilities|)
  }

  method WithCapabilities(tag: usize, words: seq<usize>, capabilities: seq<usize>)
    returns (r: Result<Message, IpcError>)
    ensures r == if |words| > MESSAGE_CAPACITY then Err(MessageTooLong(|words|, MESSAGE_CAPACITY))
                 else if |capabilities| > EXTRA_CAPACITY
                 then Err(TooManyCapabilities(|capabilities|, EXTRA_CAPACITY))
                 else Ok(Composed(tag, words, capabilities))
    ensures r.Ok? ==>
              && r.value.Valid() && r.value.tag == tag && r.value.capsUnwrapped == 0
              && r.value.Words() == words
              && r.value.extraCaps == |capabilities| && r.value.capabilities[..r.value.extraCaps] == capabilities
              && (forall i :: |words| <= i < MESSAGE_CAPACITY ==> r.value.words[i] == 0)
              && (forall i :: |capabilities| <= i < EXTRA_CAPACITY ==> r.value.capabilities[i] == 0)
  {
    if |words| > MESSAGE_CAPACITY {
      return Err(MessageTooLong(|words|, MESSAGE_CAPACITY));
    }
    if |capabilities| > EXTRA_CAPACITY {
      return Err(TooManyCapabilities(|capabilities|, EXTRA_CAPACITY));
    }
    var message := Empty(tag);
    message := message.(words := Overwritten(words, message.words), length := |words|);
    var held := message.capabilities;
    for i := 0 to |capabilities|
      invariant held == Overwritten(capabilities[..i], Empty(tag).capabilities)
    {
      held := held[i := capabilities[i]];
    }
    assert capabilities[..|capabilities|] == capabilities;
    return Ok(message.(capabilities := held, extraCaps := |capabilities|));
  }

  // The kernel-visible buffer of one thread.
  class IpcBuffer {
    const msgRegs: array<usize>
    const capsOrBadges: array<usize>

    ghost predicate Valid() {
      msgRegs.Length == MESSAGE_CAPACITY && capsOrBadges.Length == EXTRA_CAPACITY && msgRegs != capsOrBadges
    }

    constructor (msgRegs: array<usize>, capsOrBadges: array<usize>)
      ensures this.msgRegs == msgRegs && this.capsOrBadges == capsOrBadges
    {
      this.msgRegs, this.capsOrBadges := msgRegs, capsOrBadges;
    }
  }

  // Fills the front of an array in place.
  method CopyFromSlice(a: array<usize>, content: seq<usize>)
    requires |content| <= a.Length
    modifies a
    ensures a[..] == Overwritten(content, old(a[..]))
  {
    for i := 0 to |content|
      invariant forall k :: 0 <= k < i ==> a[k] == content[k]
      invariant forall k :: i <= k < a.Length ==> a[k] == old(a[k])
    {
      a[i] := content[i];
    }
  }

  // Puts the payload and the capabilities into the buffer and describes them.
  method Prepare(message: Message, buffer: IpcBuffer) returns (info: MessageInfo)
    requires message.Valid() && buffer.Valid()
    modifies buffer.msgRegs, buffer.capsOrBadges
    ensures info == MessageInfo(message.tag, message.length, message.extraCaps, 0)
    ensures buffer.msgRegs[..] == Overwritten(message.Words(), old(buffer.msgRegs[..]))
    ensures buffer.capsOrBadges[..]
         == Overwritten(message.capabilities[..message.extraCaps], old(buffer.capsOrBadges[..]))
  {
    CopyFromSlice(buffer.msgRegs, message.Words());
    CopyFromSlice(buffer.capsOrBadges, message.capabilities[..message.extraCaps]);
    return MessageInfo(message.tag, message.length, message.extraCaps, 0);
  }

  // The message read back out of a buffer.
  function Read(info: MessageInfo, regs: seq<usize>): Result<Message, IpcError>
    requires |regs| == MESSAGE_CAPACITY
  {
    if info.length > MESSAGE_CAPACITY then Err(MessageTooLong(info.length, MESSAGE_CAPACITY))
    else if info.extraCaps > EXTRA_CAPACITY then Err(TooManyCapabilities(info.extraCaps, EXTRA_CAPACITY))
    else
      var empty := Empty(info.tag);
      Ok(empty.(words := Overwritten(regs[..info.length], empty.words), length := info.length,
                extraCaps := info.extraCaps, capsUnwrapped := info.capsUnwrapped))
  }

  method Received(info: MessageInfo, buffer: IpcBuffer) returns (r: Result<Message, IpcError>)
    requires buffer.Valid()
    ensures r == Read(info, buffer.msgRegs[..])
  {
    if info.length > MESSAGE_CAPACITY {
      return Err(MessageTooLong(info.length, MESSAGE_CAPACITY));
    }
    if info.extraCaps > EXTRA_CAPACITY {
      return Err(TooManyCapabilities(info.extraCaps, EXTRA_CAPACITY));
    }
    var words := Empty(info.tag).words;
    for i := 0 to info.length
      invariant words == Overwritten(buffer.msgRegs[..i], Empty(info.tag).words)
    {
      words := words[i := buffer.msgRegs[i]];
    }
    return Ok(Empty(info.tag).(words := words, length := info.length, extraCaps := info.extraCaps,
                                 capsUnwrapped := info.capsUnwrapped));
  }

  // A faithful kernel copies as many registers as the message is long and leaves the rest of
  // the receiver's buffer alone. Then exactly the sent label and words arrive, whatever either
  // buffer held before, and nothing stale comes with them.
  lemma MessagesArriveIntact(tag: usize, words: seq<usize>, capabilities: seq<usize>, sender: seq<usize>,
                             receiver: seq<usize>, info: MessageInfo, index: nat)
    requires |words| <= MESSAGE_CAPACITY && |capabilities| <= EXTRA_CAPACITY
    requires |sender| == |receiver| == MESSAGE_CAPACITY
    requires info.tag == tag && info.length == |words| && info.extraCaps <= EXTRA_CAPACITY
    ensures var sent := Composed(tag, words, capabilities);
            var regs := Overwritten(Overwritten(sent.Words(), sender)[..info.length], receiver);
            var got := Read(info, regs);
            && got.Ok? && got.value.Valid()
            && got.value.tag == tag
            && got.value.Words() == words
            && (forall i :: |words| <= i < MESSAGE_CAPACITY ==> got.value.words[i] == 0)
            && (index < |words| ==> got.value.Word(index) == Ok(words[index]))
            && (index >= |words| ==> got.value.Word(index) == Err(InvalidMessageIndex(index, |words|)))
            && got.value.extraCaps == info.extraCaps && got.value.capsUnwrapped == info.capsUnwrapped
  {
    var sent := Composed(tag, words, capabilities);
    assert sent.Words() == words;
    assert Overwritten(words, sender)[..|words|] == words;
    assert Overwritten(words, receiver)[..|words|] == words;
  }
}
