/** One end of a connection: the receive buffer, the two message queues, and what the socket calls do to them. */
module SessionBase {
  import opened Bytes
  import opened Messages
  import opened MessageObjects
  import opened Framing
  import ServerModel

  /** The three results of `parseMessage`, and the case where C++ defines none. */
  datatype Found = Nothing | Invalid | Undefined | Got(msg: Message)

  /** A message that fits the wire. */
  type Sendable = m: Message | m.WellFormed() witness Hello

  /** What may wait for the socket: one message more than the limit that `sendMessage` checks. */
  type Outbox = q: seq<Sendable> | |q| <= MAX_NETWORK_MESSAGE_QUEUE + 1

  type Offset = n: nat | n <= MAX_MESSAGE_SIZE

  class SessionBase {
    /** The address of the session object this is a part of. */
    ghost const address: nat
    const buffer: array<byte>
    var bufferOffset: Offset
    var disconnectionFlag: bool
    var receivingQueue: seq<Message>
    var sendingQueue: Outbox

    // Everything that was ever parsed, and written to the socket.
    ghost var delivered: seq<Message>
    ghost var written: seq<Message>

    ghost predicate Valid() {
      buffer.Length == MAX_MESSAGE_SIZE
    }

    /** Everything that was ever accepted for sending. */
    ghost function Admitted(): (r: seq<Message>)
      reads `written, `sendingQueue
    {
      written + sendingQueue
    }

    ghost function Received(): (r: seq<byte>)
      requires Valid()
      reads this, buffer
    {
      buffer[..bufferOffset]
    }

    ghost function CurrentInput(): (r: Input)
      requires Valid()
      reads this, buffer
    {
      Input(Received(), delivered, false)
    }

    constructor (ghost address: nat)
      ensures this.address == address
      ensures Valid() && fresh(buffer) && CurrentInput() == EMPTY
      ensures !disconnectionFlag && receivingQueue == [] && sendingQueue == [] && written == []
    {
      this.address := address;
      buffer := new byte[MAX_MESSAGE_SIZE];
      bufferOffset := 0;
      disconnectionFlag := false;
      receivingQueue, sendingQueue := [], [];
      delivered, written := [], [];
    }

    method Disconnect()
      modifies this`disconnectionFlag
      ensures disconnectionFlag
    {
      disconnectionFlag := true;
    }

    predicate IsConnected()
      reads this
    {
      !disconnectionFlag
    }

    // ---------- sending ----------

    /** True exactly when the next `SendMessage` succeeds. */
    predicate CanSendMessages()
      reads this
    {
      |sendingQueue| <= MAX_NETWORK_MESSAGE_QUEUE
    }

    method SendMessage(m: Message) returns (ok: bool)
      requires m.WellFormed()
      modifies this`sendingQueue
      ensures ok == old(CanSendMessages())
      ensures sendingQueue == ServerModel.Enqueue(old(sendingQueue), m)
      ensures Admitted() == old(Admitted()) + if ok then [m] else []
    {
      if |sendingQueue| > MAX_NETWORK_MESSAGE_QUEUE {
        return false;
      }
      sendingQueue := sendingQueue + [m];
      return true;
    }

    static lemma Advanced(written: seq<Message>, queue: seq<Message>)
      requires queue != []
      ensures (written + [queue[0]]) + queue[1..] == written + queue
    {
    }

    /** Writes the front message; `bytes` is what `send` is given. */
    method WriteData(pad: Padding) returns (hasError: bool, bytes: seq<byte>)
      requires Valid()
      modifies this`sendingQueue, this`written
      ensures !hasError && Admitted() == old(Admitted())
      ensures old(sendingQueue) == [] ==> bytes == [] && sendingQueue == [] && written == old(written)
      ensures old(sendingQueue) != [] ==>
                && bytes == Frame(old(sendingQueue)[0], pad)
                && sendingQueue == old(sendingQueue)[1..] && written == old(written) + [old(sendingQueue)[0]]
    {
      if |sendingQueue| == 0 {
        return false, [];
      }
      var message := sendingQueue[0];
      Advanced(written, sendingQueue);
      sendingQueue := sendingQueue[1..];
      written := written + [message];

      var payloadSize := message.Size();
      var payload := Body(message, pad);
      var header := Field(Command(message.Kind()), COMMAND_SIZE) + Int32Bytes(payloadSize);
      var sendBuffer := new byte[HEADER_SIZE + payloadSize];
      Memcpy(sendBuffer, 0, header);
      if payloadSize > 0 {
        Memcpy(sendBuffer, HEADER_SIZE, payload);
      }
      assert sendBuffer[..HEADER_SIZE] == header;
      return false, sendBuffer[..];
    }

    // ---------- receiving ----------

    /** The search for the command of the header: the first type of the enumeration that matches. */
    method FindKind(command: seq<byte>) returns (k: Option<Kind>)
      requires |command| == COMMAND_SIZE
      ensures k.Some? ==> Matches(command, k.value)
      ensures k.None? ==> forall j: Kind :: !Matches(command, j)
      ensures k == KindFrom(command, 0)
    {
      var i := 0;
      while i < |KINDS|
        invariant i <= |KINDS|
        invariant KindFrom(command, 0) == KindFrom(command, i)
        invariant forall j :: 0 <= j < i ==> !Matches(command, KINDS[j])
      {
        if Matches(command, KINDS[i]) {
          return Some(KINDS[i]);
        }
        i := i + 1;
      }
      forall j: Kind ensures !Matches(command, j) {
        var n := match j
          case STATUS => 0 case HELLO => 1 case NICKNAME => 2 case BYE => 3 case CHAT => 4
          case FILE_REQUEST => 5 case FILE_DATA => 6;
        assert KINDS[n] == j;
      }
      return None;
    }

    /** `fromRawBytes` of a new message object of the given type. */
    static method Make(k: Kind, payload: seq<byte>, size: int) returns (r: Found, payloadSize: nat)
      requires size <= |payload| && size <= MAX_PAYLOAD_SIZE
      ensures match DecodeBody(k, payload, size)
              case Parsed(m, used) => r == Got(m) && HEADER_SIZE + payloadSize == used
              case Overrun => r == Undefined
              case _ => r == Nothing
    {
      var d, m := Refused, Hello;
      match k {
        case HELLO => d, m := Accepted, Hello;
        case BYE => d, m := Accepted, Bye;
        case STATUS =>
          var o := new StatusMessage(STATUS_OK);
          d := o.FromRawBytes(payload, size);
          m := o.Value();
        case NICKNAME =>
          var o := new NicknameMessage([]);
          d := o.FromRawBytes(payload, size);
          m := o.Value();
        case CHAT =>
          var o := new ChatMessage();
          d := o.FromRawBytes(payload, size);
          m := o.Value();
        case FILE_REQUEST =>
          var o := new FileTransferMessage([]);
          d := o.FromRawBytes(payload, size);
          m := o.Value();
        case FILE_DATA =>
          var o := new FileDataMessage();
          d := o.FromRawBytes(payload, size);
          m := o.Value();
      }
      r := match d case Accepted => Got(m) case Refused => Nothing case Overruns => Undefined;
      payloadSize := m.Size();
    }

    /** Takes the first message off the buffer and moves the rest to its start. */
    method ParseMessage() returns (r: Found)
      requires Valid() && bufferOffset >= HEADER_SIZE
      modifies this`bufferOffset, this`delivered, buffer
      ensures Valid()
      ensures match Parse(old(Received()))
              case Parsed(m, used) => r == Got(m) && Received() == old(Received())[used..]
                && delivered == old(delivered) + [m]
              case BadHeader => r == Invalid && Received() == old(Received()) && delivered == old(delivered)
              case Overrun => r == Undefined && Received() == old(Received()) && delivered == old(delivered)
              case _ => r == Nothing && Received() == old(Received()) && delivered == old(delivered)
    {
      ghost var b := Received();
      var command, size := buffer[..COMMAND_SIZE], Int32(buffer[COMMAND_SIZE..HEADER_SIZE]);
      assert command == b[..4] && buffer[COMMAND_SIZE..HEADER_SIZE] == b[4..8];
      var kind := FindKind(command);
      if kind.None? || size > MAX_PAYLOAD_SIZE {
        return Invalid;
      }
      if bufferOffset - HEADER_SIZE < size {
        return Nothing;
      }
      var payload := buffer[HEADER_SIZE..bufferOffset];
      assert payload == b[8..];
      var payloadSize;
      r, payloadSize := Make(kind.value, payload, size);
      if r.Got? {
        Shift(HEADER_SIZE + payloadSize);
        delivered := delivered + [r.msg];
      }
    }

    /** The bytes behind the message move to the front; the tail of the buffer is zeroed. */
    method Shift(messageOffset: nat)
      requires Valid() && messageOffset <= bufferOffset
      modifies this`bufferOffset, buffer
      ensures Valid() && Received() == old(Received())[messageOffset..]
      ensures buffer[..] == old(buffer[messageOffset..]) + Zeros(messageOffset)
    {
      var remainder := buffer[messageOffset..];
      Memset(buffer, MAX_MESSAGE_SIZE);
      Memcpy(buffer, 0, remainder);
      assert Zeros(MAX_MESSAGE_SIZE)[|remainder|..] == Zeros(messageOffset);
      assert buffer[..] == remainder + Zeros(messageOffset);
      bufferOffset := bufferOffset - messageOffset;
      assert buffer[..bufferOffset] == remainder[..bufferOffset] == old(Received())[messageOffset..];
    }

    /** `piece` is what `recv` returned for the free part of the buffer, nothing at the end of the stream. */
    method ReadData(piece: seq<byte>) returns (hasError: bool)
      requires Valid() && receivingQueue == [] && |piece| <= MAX_MESSAGE_SIZE - bufferOffset
      modifies this`bufferOffset, this`delivered, this`receivingQueue, buffer
      ensures Valid()
      ensures var next := Receive(old(CurrentInput()), piece);
              CurrentInput() == next.(failed := false) && hasError == next.failed
      ensures old(delivered) <= delivered && receivingQueue == delivered[|old(delivered)|..] && |receivingQueue| <= 1
    {
      if |piece| == 0 {
        assert Received() + piece == Received();
        return true;
      }
      Memcpy(buffer, bufferOffset, piece);
      assert buffer[..bufferOffset] == old(Received());
      bufferOffset := bufferOffset + |piece|;
      assert Received() == old(Received()) + piece;
      if bufferOffset < HEADER_SIZE {
        return false;
      }
      var message := ParseMessage();
      match message {
        case Nothing => return false;
        case Invalid => return true;
        case Undefined => return true;
        case Got(m) => receivingQueue := receivingQueue + [m];
      }
      return false;
    }

    /** Takes a message from the back of the received ones. */
    method ReceiveMessage() returns (r: Option<Message>)
      modifies this`receivingQueue
      ensures old(receivingQueue) == [] ==> r == None && receivingQueue == []
      ensures old(receivingQueue) != [] ==> r.Some? && old(receivingQueue) == receivingQueue + [r.value]
    {
      if |receivingQueue| == 0 {
        return None;
      }
      var message := receivingQueue[|receivingQueue| - 1];
      receivingQueue := receivingQueue[..|receivingQueue| - 1];
      return Some(message);
    }
  }
}
