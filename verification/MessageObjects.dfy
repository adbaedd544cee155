/** The message classes: character arrays and heap buffers filled in place, refining the wire format of `Messages`. */
module MessageObjects {
  import opened Bytes
  import opened Messages

  // ---------- string.h ----------

  method Memset(dst: array<byte>, n: nat)
    requires n <= dst.Length
    modifies dst
    ensures dst[..] == Zeros(n) + old(dst[..])[n..]
  {
    for i := 0 to n
      invariant dst[..] == Zeros(i) + old(dst[..])[i..]
    {
      dst[i] := 0;
    }
  }

  method Memcpy(dst: array<byte>, at: nat, src: seq<byte>)
    requires at + |src| <= dst.Length
    modifies dst
    ensures dst[..] == old(dst[..at]) + src + old(dst[at + |src|..])
  {
    for i := 0 to |src|
      invariant dst[..] == old(dst[..at]) + src[..i] + old(dst[at + i..])
    {
      dst[at + i] := src[i];
    }
  }

  method Strncpy(dst: array<byte>, src: seq<byte>, n: nat)
    requires n <= dst.Length
    modifies dst
    ensures dst[..n] == Field(src, n)
    ensures dst[n..] == old(dst[n..])
  {
    for i := 0 to n
      invariant forall j :: 0 <= j < i ==> dst[j] == if j < |src| then src[j] else 0
      invariant forall j :: n <= j < dst.Length ==> dst[j] == old(dst[j])
    {
      dst[i] := if i < |src| then src[i] else 0;
    }
    assert dst[..n] == Field(src, n);
  }

  /** What `fromRawBytes` makes of a payload; the third result is where C++ defines no behaviour. */
  datatype Decoding = Accepted | Refused | Overruns

  /** The part of the session's buffer from the payload to the last received byte. */
  ghost predicate Decodes(r: Decoding, value: Message, k: Kind, rest: seq<byte>, size: int)
    requires size <= |rest| && size <= MAX_PAYLOAD_SIZE
  {
    match DecodeBody(k, rest, size)
    case Parsed(m, _) => r == Accepted && value == m
    case Overrun => r == Overruns
    case _ => r == Refused
  }

  class StatusMessage {
    var status: int32

    constructor (code: int32)
      ensures Value() == Status(code)
    {
      status := code;
    }

    function Value(): (r: Message)
      reads this
    {
      Status(status)
    }

    method FromRawBytes(buffer: seq<byte>, size: int) returns (r: Decoding)
      requires size <= |buffer| && size <= MAX_PAYLOAD_SIZE
      modifies this
      ensures Decodes(r, Value(), STATUS, buffer, size)
    {
      if size != STATUS_SIZE {
        return Refused;
      }
      status := Int32(buffer[..STATUS_SIZE]);
      return Accepted;
    }

    method ToRawBytes(pad: Padding) returns (raw: array<byte>)
      ensures fresh(raw) && raw[..] == Body(Value(), pad)
    {
      raw := new byte[STATUS_SIZE];
      Memcpy(raw, 0, Int32Bytes(status));
    }
  }

  class NicknameMessage {
    const nickname: array<byte>

    ghost predicate Valid()
      reads this
    {
      nickname.Length == NICKNAME_FIELD_SIZE
    }

    constructor (name: seq<byte>)
      ensures Valid() && fresh(nickname) && Value() == NewNickname(name)
    {
      nickname := new byte[NICKNAME_FIELD_SIZE];
      new;
      SetNickName(name);
    }

    function Value(): (r: Message)
      reads this, nickname
    {
      Nickname(nickname[..])
    }

    /** Zeroed, copied and terminated. */
    method SetNickName(name: seq<byte>)
      requires Valid()
      modifies nickname
      ensures Value() == NewNickname(name)
    {
      Memset(nickname, MAX_NICKNAME_SIZE);
      Strncpy(nickname, name, MAX_NICKNAME_SIZE);
      nickname[NICKNAME_FIELD_SIZE - 1] := 0;
      assert nickname[..] == nickname[..MAX_NICKNAME_SIZE] + [0];
    }

    method FromRawBytes(buffer: seq<byte>, size: int) returns (r: Decoding)
      requires Valid() && size <= |buffer| && size <= MAX_PAYLOAD_SIZE
      modifies nickname
      ensures Decodes(r, Value(), NICKNAME, buffer, size)
    {
      if size != NICKNAME_FIELD_SIZE {
        return Refused;
      }
      Memcpy(nickname, 0, buffer[..NICKNAME_FIELD_SIZE]);
      return Accepted;
    }

    method ToRawBytes(pad: Padding) returns (raw: array<byte>)
      requires Valid()
      ensures fresh(raw) && raw[..] == Body(Value(), pad)
    {
      raw := new byte[NICKNAME_FIELD_SIZE];
      Memcpy(raw, 0, nickname[..]);
    }
  }

  class FileTransferMessage {
    const sender: array<byte>
    const fileName: array<byte>

    ghost predicate Valid()
      reads this
    {
      sender != fileName && sender.Length == MAX_NICKNAME_SIZE && fileName.Length == MAX_PATH_SIZE
    }

    constructor (name: seq<byte>)
      ensures Valid() && fresh(sender) && fresh(fileName) && Value() == NewFileRequest([], name)
    {
      sender := new byte[MAX_NICKNAME_SIZE];
      fileName := new byte[MAX_PATH_SIZE];
      new;
      SetFileName(name);
      SetSender([]);
    }

    function Value(): (r: Message)
      reads this, sender, fileName
    {
      FileRequest(sender[..], fileName[..])
    }

    method SetFileName(name: seq<byte>)
      requires Valid()
      modifies fileName
      ensures fileName[..] == Field(name, MAX_PATH_SIZE)
    {
      Memset(fileName, MAX_PATH_SIZE);
      if |name| > 0 {
        Strncpy(fileName, name, MAX_PATH_SIZE);
      }
    }

    method SetSender(name: seq<byte>)
      requires Valid()
      modifies sender
      ensures sender[..] == Field(name, MAX_NICKNAME_SIZE)
    {
      Memset(sender, MAX_NICKNAME_SIZE);
      if |name| > 0 {
        Strncpy(sender, name, MAX_NICKNAME_SIZE);
      }
    }

    method FromRawBytes(buffer: seq<byte>, size: int) returns (r: Decoding)
      requires Valid() && size <= |buffer| && size <= MAX_PAYLOAD_SIZE
      modifies sender, fileName
      ensures Decodes(r, Value(), FILE_REQUEST, buffer, size)
    {
      if size < FILE_REQUEST_SIZE {
        return Refused;
      }
      Memcpy(sender, 0, buffer[..MAX_NICKNAME_SIZE]);
      Memcpy(fileName, 0, buffer[MAX_NICKNAME_SIZE..FILE_REQUEST_SIZE]);
      return Accepted;
    }

    method ToRawBytes(pad: Padding) returns (raw: array<byte>)
      requires Valid()
      ensures fresh(raw) && raw[..] == Body(Value(), pad)
    {
      raw := new byte[FILE_REQUEST_SIZE];
      Memset(raw, FILE_REQUEST_SIZE);
      Memcpy(raw, 0, sender[..] + fileName[..]);
    }
  }

  class ChatMessage {
    const sender: array<byte>
    var messageSize: nat
    const message: array<byte>

    ghost predicate Valid()
      reads this
    {
      && sender != message && sender.Length == MAX_NICKNAME_SIZE && message.Length == CHATMESSAGE_FIELD_SIZE
      && messageSize <= CHATMESSAGE_FIELD_SIZE
    }

    /** The empty message that `fromRawBytes` is called on. */
    constructor ()
      ensures Valid() && messageSize == 0 && fresh(sender) && fresh(message)
      ensures Value() == Chat(Zeros(MAX_NICKNAME_SIZE), [])
    {
      sender := new byte[MAX_NICKNAME_SIZE];
      message := new byte[CHATMESSAGE_FIELD_SIZE];
      messageSize := 0;
      new;
      SetSender([]);
    }

    constructor Text(text: seq<byte>)
      requires NulFree(text)
      ensures Valid() && fresh(sender) && fresh(message) && Value() == NewChat([], text)
    {
      sender := new byte[MAX_NICKNAME_SIZE];
      message := new byte[CHATMESSAGE_FIELD_SIZE];
      messageSize := 0;
      new;
      SetMessage(text);
      SetSender([]);
    }

    function Value(): (r: Message)
      requires Valid()
      reads this, sender, message
    {
      Chat(sender[..], message[..messageSize])
    }

    /** The length of the text in the array, as `strlen` finds it in the part `setMessage` zeroes. */
    method SetMessage(text: seq<byte>)
      requires Valid() && NulFree(text)
      modifies this`messageSize, message
      ensures Valid()
      ensures message[..messageSize] == Take(text, MAX_CHATMESSAGE_SIZE)
    {
      Memset(message, MAX_CHATMESSAGE_SIZE);
      Strncpy(message, text, MAX_CHATMESSAGE_SIZE);
      messageSize := 0;
      while messageSize < MAX_CHATMESSAGE_SIZE && message[messageSize] != 0
        invariant messageSize <= |Take(text, MAX_CHATMESSAGE_SIZE)|
        invariant message[..MAX_CHATMESSAGE_SIZE] == Field(text, MAX_CHATMESSAGE_SIZE)
        decreases MAX_CHATMESSAGE_SIZE - messageSize
      {
        assert message[messageSize] == Field(text, MAX_CHATMESSAGE_SIZE)[messageSize];
        messageSize := messageSize + 1;
      }
      assert message[..messageSize] == message[..MAX_CHATMESSAGE_SIZE][..messageSize];
    }

    method SetSender(name: seq<byte>)
      requires Valid()
      modifies sender
      ensures sender[..] == Field(name, MAX_NICKNAME_SIZE)
    {
      Memset(sender, MAX_NICKNAME_SIZE);
      if |name| > 0 {
        Strncpy(sender, name, MAX_NICKNAME_SIZE);
      }
    }

    method FromRawBytes(buffer: seq<byte>, bufferSize: int) returns (r: Decoding)
      requires Valid() && messageSize == 0 && bufferSize <= |buffer| && bufferSize <= MAX_PAYLOAD_SIZE
      modifies this`messageSize, sender, message
      ensures Valid()
      ensures Decodes(r, Value(), CHAT, buffer, bufferSize)
    {
      if bufferSize < CHAT_FIXED {
        return Refused;
      }
      Memcpy(sender, 0, buffer[..MAX_NICKNAME_SIZE]);
      var n := Int32(buffer[MAX_NICKNAME_SIZE..CHAT_FIXED]);
      if bufferSize != CHAT_FIXED + n {
        return Refused;
      }
      if n > CHATMESSAGE_FIELD_SIZE {
        return Overruns;
      }
      Memset(message, MAX_CHATMESSAGE_SIZE);
      Memcpy(message, 0, buffer[CHAT_FIXED..CHAT_FIXED + n]);
      messageSize := n;
      assert message[..n] == buffer[CHAT_FIXED..CHAT_FIXED + n];
      return Accepted;
    }

    method ToRawBytes(pad: Padding) returns (raw: array<byte>)
      requires Valid()
      ensures fresh(raw) && raw[..] == Body(Value(), pad)
    {
      raw := new byte[CHAT_FIXED + messageSize];
      Memset(raw, CHAT_FIXED + messageSize);
      Memcpy(raw, 0, sender[..] + Int32Bytes(messageSize));
      Memcpy(raw, CHAT_FIXED, message[..messageSize]);
      assert raw[..CHAT_FIXED] == sender[..] + Int32Bytes(messageSize);
    }
  }

  class FileDataMessage {
    var offset: int64
    var isLast: bool
    var data: array<byte>

    ghost predicate Valid()
      reads this
    {
      data.Length <= BLOCK
    }

    constructor ()
      ensures Valid() && fresh(data) && Value() == FileData(0, false, [])
    {
      offset := 0;
      isLast := false;
      data := new byte[0];
    }

    function Value(): (r: Message)
      reads this, data
    {
      FileData(offset, isLast, data[..])
    }

    method MarkLastBlock()
      modifies this`isLast
      ensures isLast
    {
      isLast := true;
    }

    method SetFileOffset(to: int64)
      modifies this`offset
      ensures offset == to
    {
      offset := to;
    }

    method SetBuffer(bytes: seq<byte>)
      requires |bytes| <= BLOCK
      modifies this`data
      ensures Valid() && fresh(data) && data[..] == bytes
    {
      data := new byte[|bytes|];
      Memset(data, |bytes|);
      Memcpy(data, 0, bytes);
    }

    method FromRawBytes(buffer: seq<byte>, bufferSize: int) returns (r: Decoding)
      requires Valid() && bufferSize <= |buffer| && bufferSize <= MAX_PAYLOAD_SIZE
      modifies this
      ensures Valid()
      ensures Decodes(r, Value(), FILE_DATA, buffer, bufferSize)
    {
      if bufferSize < FILE_DATA_FIXED {
        return Refused;
      }
      offset := Int64(buffer[..8]);
      isLast := buffer[8] != 0;
      var n := Int32(buffer[12..FILE_DATA_FIXED]);
      if n < 0 || FILE_DATA_FIXED + n > bufferSize {
        return Overruns;
      }
      SetBuffer(buffer[FILE_DATA_FIXED..FILE_DATA_FIXED + n]);
      return Accepted;
    }

    method ToRawBytes(pad: Padding) returns (raw: array<byte>)
      requires Valid()
      ensures fresh(raw) && raw[..] == Body(Value(), pad)
    {
      raw := new byte[FILE_DATA_FIXED + data.Length];
      Memset(raw, FILE_DATA_FIXED + data.Length);
      var fixedPart := FixedPart(pad);
      Memcpy(raw, 0, fixedPart);
      Memcpy(raw, FILE_DATA_FIXED, data[..]);
      assert raw[..FILE_DATA_FIXED] == fixedPart;
    }

    function FixedPart(pad: Padding): (r: seq<byte>)
      requires Valid()
      reads this, data
      ensures |r| == FILE_DATA_FIXED && Body(Value(), pad) == r + data[..]
    {
      Int64Bytes(offset) + [if isLast then 1 else 0] + pad + Int32Bytes(data.Length)
    }
  }
}
