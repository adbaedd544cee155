/** The messages of the protocol, their wire format, and the parser for the head of a receive buffer. */
module Messages {
  import opened Bytes

  const COMMAND_SIZE: nat := 4
  const MAX_PATH_SIZE: nat := 64
  const MAX_NICKNAME_SIZE: nat := 36
  const NICKNAME_FIELD_SIZE: nat := MAX_NICKNAME_SIZE + 1
  const MAX_CHATMESSAGE_SIZE: nat := 1024
  const CHATMESSAGE_FIELD_SIZE: nat := MAX_CHATMESSAGE_SIZE + 1
  const MAX_NETWORK_MESSAGE_QUEUE: nat := 40
  const HEADER_SIZE: nat := 8
  const MAX_MESSAGE_SIZE: nat := 1448
  const MAX_PAYLOAD_SIZE: nat := MAX_MESSAGE_SIZE - HEADER_SIZE

  // Sizes of the payload structures up to the address of the variable part, which is not sent.
  const CHAT_FIXED: nat := 40
  const FILE_DATA_FIXED: nat := 16
  const FILE_REQUEST_SIZE: nat := 100
  const STATUS_SIZE: nat := 4

  /** The file bytes that fit in one block. */
  const BLOCK: nat := MAX_PAYLOAD_SIZE - FILE_DATA_FIXED

  const STATUS_OK := 200
  const CHATTING_ALONE := 201
  const NICKNAME_ALREADY_REGISTERED := 202
  const ACCEPT_FILE_TRANSFER := 203
  const REJECT_FILE_TRANSFER := 204
  const FILE_TRANSFER_CANCELED := 205

  datatype Option<+T> = None | Some(value: T)

  /** The message types, in the order of the enumeration and without its two sentinels. */
  datatype Kind = STATUS | HELLO | NICKNAME | BYE | CHAT | FILE_REQUEST | FILE_DATA

  /** The character arrays are kept whole, so `nickName()` and its like are `CString` of a field. */
  datatype Message =
    | Status(code: int32)
    | Hello
    | Nickname(nickname: seq<byte>)
    | Bye
    | Chat(sender: seq<byte>, text: seq<byte>)
    | FileRequest(sender: seq<byte>, fileName: seq<byte>)
    | FileData(offset: int64, isLast: bool, data: seq<byte>)
  {
    function Kind(): (r: Kind) {
      match this
      case Status(_) => STATUS
      case Hello => HELLO
      case Nickname(_) => NICKNAME
      case Bye => BYE
      case Chat(_, _) => CHAT
      case FileRequest(_, _) => FILE_REQUEST
      case FileData(_, _, _) => FILE_DATA
    }

    /** The arrays have their declared sizes and the variable part fits its array or the largest packet. */
    predicate WellFormed() {
      match this
      case Nickname(n) => |n| == NICKNAME_FIELD_SIZE
      case Chat(s, t) => |s| == MAX_NICKNAME_SIZE && |t| <= CHATMESSAGE_FIELD_SIZE
      case FileRequest(s, f) => |s| == MAX_NICKNAME_SIZE && |f| == MAX_PATH_SIZE
      case FileData(_, _, d) => |d| <= BLOCK
      case _ => true
    }

    /** `size()`: the payload bytes. */
    function Size(): (r: nat) {
      match this
      case Status(_) => STATUS_SIZE
      case Nickname(_) => NICKNAME_FIELD_SIZE
      case Chat(_, t) => CHAT_FIXED + |t|
      case FileRequest(_, _) => FILE_REQUEST_SIZE
      case FileData(_, _, d) => FILE_DATA_FIXED + |d|
      case _ => 0
    }
  }

  predicate AllWell(ms: seq<Message>) {
    forall i :: 0 <= i < |ms| ==> ms[i].WellFormed()
  }

  // ---------- messages as the constructors and setters build them ----------

  function NewNickname(name: seq<byte>): (m: Message)
    ensures m.WellFormed()
  {
    Nickname(Field(name, MAX_NICKNAME_SIZE) + [0])
  }

  function NewChat(sender: seq<byte>, text: seq<byte>): (m: Message)
    requires NulFree(text)
    ensures m.WellFormed()
  {
    Chat(Field(sender, MAX_NICKNAME_SIZE), Take(text, MAX_CHATMESSAGE_SIZE))
  }

  function NewFileRequest(sender: seq<byte>, fileName: seq<byte>): (m: Message)
    ensures m.WellFormed()
  {
    FileRequest(Field(sender, MAX_NICKNAME_SIZE), Field(fileName, MAX_PATH_SIZE))
  }

  // ---------- writing ----------

  /** What the compiler leaves in the three bytes between `isLast` and `size`. */
  type Padding = p: seq<byte> | |p| == 3 witness [0, 0, 0]

  function Command(k: Kind): (r: seq<byte>)
    ensures 2 <= |r| < COMMAND_SIZE && NulFree(r)
  {
    match k
    case HELLO => [72, 73]
    case NICKNAME => [78, 65, 77]
    case BYE => [66, 89, 69]
    case STATUS => [83, 84]
    case CHAT => [77, 83, 71]
    case FILE_REQUEST => [82, 69, 81]
    case FILE_DATA => [68, 84, 65]
  }

  /** `toRawBytes()`. */
  function Body(m: Message, pad: Padding): (r: seq<byte>)
    requires m.WellFormed()
    ensures |r| == m.Size() <= MAX_PAYLOAD_SIZE
  {
    match m
    case Status(c) => Int32Bytes(c)
    case Nickname(n) => n
    case Chat(s, t) => s + Int32Bytes(|t|) + t
    case FileRequest(s, f) => s + f
    case FileData(o, l, d) => Int64Bytes(o) + [if l then 1 else 0] + pad + Int32Bytes(|d|) + d
    case _ => []
  }

  function Header(k: Kind, size: int32): (r: seq<byte>)
    ensures |r| == HEADER_SIZE
  {
    Field(Command(k), COMMAND_SIZE) + Int32Bytes(size)
  }

  function Frame(m: Message, pad: Padding): (r: seq<byte>)
    requires m.WellFormed()
    ensures |r| == HEADER_SIZE + m.Size() <= MAX_MESSAGE_SIZE
  {
    Header(m.Kind(), m.Size()) + Body(m, pad)
  }

  // ---------- reading ----------

  const KINDS: seq<Kind> := [STATUS, HELLO, NICKNAME, BYE, CHAT, FILE_REQUEST, FILE_DATA]

  /** `strcmp` of the four header bytes with a command finds them equal. */
  predicate Matches(command: seq<byte>, k: Kind)
    requires |command| == COMMAND_SIZE
  {
    command[..|Command(k)| + 1] == Command(k) + [0]
  }

  /** The first type from number `i` on whose command matches. */
  function KindFrom(command: seq<byte>, i: nat): (r: Option<Kind>)
    requires |command| == COMMAND_SIZE && i <= |KINDS|
    decreases |KINDS| - i
  {
    if i == |KINDS| then None
    else if Matches(command, KINDS[i]) then Some(KINDS[i])
    else KindFrom(command, i + 1)
  }

  /**
   * What `parseMessage` makes of a buffer: it waits for more payload, hits an invalid header, has the payload
   * refused by `fromRawBytes`, or takes a message of `used` bytes off the front. `Overrun` stands for length
   * fields that point outside the frame or the receiving array, where C++ defines no behaviour.
   */
  datatype Outcome = NeedMore | BadHeader | BadBody | Overrun | Parsed(msg: Message, used: nat)

  /** `fromRawBytes()` of a payload that `rest` begins with, and the bytes it uses up. */
  function DecodeBody(k: Kind, rest: seq<byte>, size: int): (r: Outcome)
    requires size <= |rest| && size <= MAX_PAYLOAD_SIZE
    ensures !r.NeedMore?
    ensures r.Parsed? ==> r.msg.WellFormed() && r.msg.Kind() == k
    ensures r.Parsed? ==> r.used == HEADER_SIZE + r.msg.Size() <= HEADER_SIZE + |rest|
  {
    match k
    case HELLO => Parsed(Hello, HEADER_SIZE)
    case BYE => Parsed(Bye, HEADER_SIZE)
    case STATUS =>
      if size != STATUS_SIZE then BadBody
      else Parsed(Status(Int32(rest[..4])), HEADER_SIZE + STATUS_SIZE)
    case NICKNAME =>
      if size != NICKNAME_FIELD_SIZE then BadBody
      else Parsed(Nickname(rest[..NICKNAME_FIELD_SIZE]), HEADER_SIZE + NICKNAME_FIELD_SIZE)
    case CHAT =>
      if size < CHAT_FIXED then BadBody
      else
        var n := Int32(rest[36..40]);
        if size != CHAT_FIXED + n then BadBody
        else if n > CHATMESSAGE_FIELD_SIZE then Overrun
        else Parsed(Chat(rest[..36], rest[40..40 + n]), HEADER_SIZE + CHAT_FIXED + n)
    case FILE_REQUEST =>
      if size < FILE_REQUEST_SIZE then BadBody
      else Parsed(FileRequest(rest[..36], rest[36..100]), HEADER_SIZE + FILE_REQUEST_SIZE)
    case FILE_DATA =>
      if size < FILE_DATA_FIXED then BadBody
      else
        var n := Int32(rest[12..16]);
        if n < 0 || FILE_DATA_FIXED + n > size then Overrun
        else Parsed(FileData(Int64(rest[..8]), rest[8] != 0, rest[16..16 + n]), HEADER_SIZE + FILE_DATA_FIXED + n)
  }

  function Parse(b: seq<byte>): (r: Outcome)
    requires |b| >= HEADER_SIZE
    ensures r.Parsed? ==> r.msg.WellFormed() && r.used == HEADER_SIZE + r.msg.Size() <= |b|
  {
    var size := Int32(b[4..8]);
    match KindFrom(b[..4], 0)
    case None => BadHeader
    case Some(k) =>
      if size > MAX_PAYLOAD_SIZE then BadHeader
      else if |b| - HEADER_SIZE < size then NeedMore
      else DecodeBody(k, b[8..], size)
  }

  // ---------- the header ----------

  lemma KindOfCommand(k: Kind)
    ensures KindFrom(Field(Command(k), COMMAND_SIZE), 0) == Some(k)
  {
    var c := Field(Command(k), COMMAND_SIZE);
    assert Matches(c, k);
    forall j: Kind | j != k ensures !Matches(c, j) {
      assert Command(j)[0] != Command(k)[0] == c[0];
    }
    FirstMatch(c, k, 0);
  }

  lemma {:induction false} FirstMatch(c: seq<byte>, k: Kind, i: nat)
    requires |c| == COMMAND_SIZE && i <= |KINDS|
    requires Matches(c, k) && forall j: Kind :: j != k ==> !Matches(c, j)
    requires k in KINDS[i..]
    ensures KindFrom(c, i) == Some(k)
    decreases |KINDS| - i
  {
    if KINDS[i] != k {
      FirstMatch(c, k, i + 1);
    }
  }

  lemma {:induction false} MatchesExactly(c: seq<byte>, k: Kind)
    requires |c| == COMMAND_SIZE
    ensures Matches(c, k) <==> CString(c) == Command(k)
  {
    var n := |Command(k)|;
    if Matches(c, k) {
      assert c[..n + 1][n] == 0 && c[..n] == c[..n + 1][..n] == Command(k);
      assert c == Command(k) + c[n..];
      CStringOfPadded(Command(k), c[n..]);
    }
    if CString(c) == Command(k) {
      assert c[..n + 1] == c[..n] + [c[n]];
    }
  }

  lemma {:induction false} FoundMatches(c: seq<byte>, i: nat)
    requires |c| == COMMAND_SIZE && i <= |KINDS|
    ensures KindFrom(c, i).Some? ==> Matches(c, KindFrom(c, i).value)
    decreases |KINDS| - i
  {
    if i < |KINDS| && !Matches(c, KINDS[i]) {
      FoundMatches(c, i + 1);
    }
  }

  /** A command is found if and only if the four bytes of the header, up to the first NUL, are that command. */
  lemma {:induction false} KindExactly(c: seq<byte>, k: Kind)
    requires |c| == COMMAND_SIZE
    ensures KindFrom(c, 0) == Some(k) <==> CString(c) == Command(k)
  {
    MatchesExactly(c, k);
    FoundMatches(c, 0);
    if CString(c) == Command(k) {
      forall j: Kind | j != k ensures !Matches(c, j) {
        MatchesExactly(c, j);
        assert Command(j)[0] != Command(k)[0];
      }
      FirstMatch(c, k, 0);
    }
  }

  lemma HeaderIsRead(k: Kind, size: int32, t: seq<byte>)
    ensures var b := Header(k, size) + t;
            KindFrom(b[..4], 0) == Some(k) && Int32(b[4..8]) == size && b[8..] == t
  {
    var b := Header(k, size) + t;
    KindOfCommand(k);
    Int32RoundTrip(size);
    assert b[..4] == Field(Command(k), COMMAND_SIZE);
    assert b[4..8] == Int32Bytes(size);
  }

  // ---------- the payload ----------

  lemma BodyRoundTrip(m: Message, pad: Padding, t: seq<byte>)
    requires m.WellFormed()
    ensures DecodeBody(m.Kind(), Body(m, pad) + t, m.Size()) == Parsed(m, HEADER_SIZE + m.Size())
  {
    var rest := Body(m, pad) + t;
    match m {
      case Status(c) =>
        Int32RoundTrip(c);
        assert rest[..4] == Int32Bytes(c);
      case Nickname(n) =>
        assert rest[..NICKNAME_FIELD_SIZE] == n;
      case Chat(s, x) =>
        Int32RoundTrip(|x|);
        assert rest[..36] == s && rest[36..40] == Int32Bytes(|x|) && rest[40..40 + |x|] == x;
      case FileRequest(s, f) =>
        assert rest[..36] == s && rest[36..100] == f;
      case FileData(o, l, d) =>
        Int32RoundTrip(|d|);
        Int64RoundTrip(o);
        assert rest[..8] == Int64Bytes(o);
        assert rest[8] == if l then 1 else 0;
        assert rest[12..16] == Int32Bytes(|d|) && rest[16..16 + |d|] == d;
      case _ =>
    }
  }

  /**
   * Every written frame parses back to the message, whatever the padding and whatever follows it,
   * and the parser uses up exactly the frame.
   */
  lemma RoundTrip(m: Message, pad: Padding, t: seq<byte>)
    requires m.WellFormed()
    ensures Parse(Frame(m, pad) + t) == Parsed(m, |Frame(m, pad)|)
  {
    var rest := Body(m, pad) + t;
    assert Frame(m, pad) + t == Header(m.Kind(), m.Size()) + rest;
    HeaderIsRead(m.Kind(), m.Size(), rest);
    BodyRoundTrip(m, pad, t);
  }

  /** A frame cut short is never taken for an error nor for a message. */
  lemma CutFrameWaits(m: Message, pad: Padding, n: nat)
    requires m.WellFormed()
    requires HEADER_SIZE <= n < |Frame(m, pad)|
    ensures Parse(Frame(m, pad)[..n]) == NeedMore
  {
    var t := Body(m, pad)[..n - HEADER_SIZE];
    assert Frame(m, pad)[..n] == Header(m.Kind(), m.Size()) + t;
    HeaderIsRead(m.Kind(), m.Size(), t);
  }

  /** No verdict on the head of a buffer is ever revised by bytes that arrive later. */
  lemma VerdictIsFinal(b: seq<byte>, t: seq<byte>)
    requires |b| >= HEADER_SIZE
    requires !Parse(b).NeedMore?
    ensures Parse(b + t) == Parse(b)
  {
    var c := b + t;
    assert c[..4] == b[..4] && c[4..8] == b[4..8];
    var size := Int32(b[4..8]);
    var k := KindFrom(b[..4], 0);
    if k.Some? && size <= MAX_PAYLOAD_SIZE {
      PayloadIsFinal(k.value, b[8..], size, t);
      assert c[8..] == b[8..] + t;
    }
  }

  lemma PayloadIsFinal(k: Kind, rest: seq<byte>, size: int, t: seq<byte>)
    requires size <= |rest| && size <= MAX_PAYLOAD_SIZE
    ensures DecodeBody(k, rest + t, size) == DecodeBody(k, rest, size)
  {
    var c := rest + t;
    match k {
      case STATUS => assert size == 4 ==> c[..4] == rest[..4];
      case NICKNAME => assert size == NICKNAME_FIELD_SIZE ==> c[..NICKNAME_FIELD_SIZE] == rest[..NICKNAME_FIELD_SIZE];
      case CHAT =>
        if size >= CHAT_FIXED {
          assert c[36..40] == rest[36..40] && c[..36] == rest[..36];
          assert c[40..size] == rest[40..size];
        }
      case FILE_REQUEST =>
        if size >= FILE_REQUEST_SIZE {
          assert c[..36] == rest[..36] && c[36..100] == rest[36..100];
        }
      case FILE_DATA =>
        if size >= FILE_DATA_FIXED {
          assert c[12..16] == rest[12..16] && c[..8] == rest[..8] && c[8] == rest[8];
          var n := Int32(rest[12..16]);
          if 0 <= n && FILE_DATA_FIXED + n <= size {
            assert c[16..16 + n] == rest[16..16 + n];
          }
        }
      case _ =>
    }
  }

  // ---------- what the accessors return on the other side ----------

  /** A name that fits its field arrives as it was given. */
  lemma NicknameSurvives(name: seq<byte>, pad: Padding, t: seq<byte>)
    requires NulFree(name) && |name| <= MAX_NICKNAME_SIZE
    ensures var r := Parse(Frame(NewNickname(name), pad) + t);
            r.Parsed? && r.msg.Nickname? && CString(r.msg.nickname) == name
  {
    RoundTrip(NewNickname(name), pad, t);
    TerminatedField(name);
  }

  lemma TerminatedField(name: seq<byte>)
    requires NulFree(name)
    ensures CString(Field(name, MAX_NICKNAME_SIZE) + [0]) == Take(name, MAX_NICKNAME_SIZE)
  {
    var kept := Take(name, MAX_NICKNAME_SIZE);
    var zeros := Zeros(MAX_NICKNAME_SIZE - |kept|);
    assert Field(name, MAX_NICKNAME_SIZE) + [0] == kept + (zeros + [0]);
    CStringOfPadded(kept, zeros + [0]);
  }

  /** So does a text shorter than 1024 bytes. */
  lemma ChatSurvives(name: seq<byte>, text: seq<byte>, pad: Padding, t: seq<byte>)
    requires NulFree(name) && NulFree(text) && |name| <= MAX_NICKNAME_SIZE && |text| < MAX_CHATMESSAGE_SIZE
    ensures var r := Parse(Frame(NewChat(name, text), pad) + t);
            r.Parsed? && r.msg.Chat? && CString(r.msg.sender) == name && CString(r.msg.text) == text
  {
    RoundTrip(NewChat(name, text), pad, t);
    FieldKeepsString(name, MAX_NICKNAME_SIZE);
    CStringOfPadded(text, []);
    assert text + [] == text;
  }

  /** So does a path of a file request. */
  lemma FileRequestSurvives(name: seq<byte>, path: seq<byte>, pad: Padding, t: seq<byte>)
    requires NulFree(name) && NulFree(path) && |name| <= MAX_NICKNAME_SIZE && |path| <= MAX_PATH_SIZE
    ensures var r := Parse(Frame(NewFileRequest(name, path), pad) + t);
            r.Parsed? && r.msg.FileRequest? && CString(r.msg.sender) == name && CString(r.msg.fileName) == path
  {
    RoundTrip(NewFileRequest(name, path), pad, t);
    FieldKeepsString(name, MAX_NICKNAME_SIZE);
    FieldKeepsString(path, MAX_PATH_SIZE);
  }

  // ---------- the bytes themselves ----------

  lemma {:induction false} Int32Is(v: int32, a: byte, b: byte, c: byte, d: byte)
    requires v == a + 256 * b + 0x1_0000 * c + 0x100_0000 * d && v >= 0
    ensures Int32Bytes(v) == [a, b, c, d]
  {
    var s: seq<byte> := [a, b, c, d];
    assert s[1..] == [b, c, d] && s[2..] == [c, d] && s[1..][1..] == [c, d];
    assert Big([c, d][1..]) == d && Big([c, d]) == c + 256 * d;
    assert Big([b, c, d]) == b + 256 * Big([c, d]) && Big(s) == a + 256 * Big([b, c, d]);
    DigitsRoundTrip(s);
  }

  /** Eight bytes of a number that fits the lower four. */
  lemma {:induction false} Int64Is(v: int64, low: seq<byte>)
    requires 0 <= v < 0x1_0000_0000 && |low| == 4 && Big(low) == v
    ensures Int64Bytes(v) == low + [0, 0, 0, 0]
  {
    ZerosBehind(low);
    DigitsRoundTrip(low + [0, 0, 0, 0]);
  }

  lemma {:induction false} ZerosBehind(s: seq<byte>)
    ensures Big(s + [0, 0, 0, 0]) == Big(s)
  {
    if s == [] {
      var z: seq<byte> := [0, 0, 0, 0];
      assert s + z == z && z[1..] == [0, 0, 0] && [0, 0, 0][1..] == [0, 0] && [0, 0][1..] == [0];
      assert Big([0]) == 0 && Big([0, 0]) == 0 && Big([0, 0, 0]) == 0;
    } else {
      assert (s + [0, 0, 0, 0])[1..] == s[1..] + [0, 0, 0, 0];
      ZerosBehind(s[1..]);
    }
  }

  /** The frames that carry no data: "HI" and "BYE", padded, and a size of zero. */
  lemma WireOfGreetings(pad: Padding)
    ensures Frame(Hello, pad) == [72, 73, 0, 0, 0, 0, 0, 0]
    ensures Frame(Bye, pad) == [66, 89, 69, 0, 0, 0, 0, 0]
  {
    Int32Is(0, 0, 0, 0, 0);
  }

  /** "ST", four bytes of payload, and the code: 203 for Accept, 204 for Reject, 205 for Canceled. */
  lemma WireOfStatus(pad: Padding)
    ensures Frame(Status(ACCEPT_FILE_TRANSFER), pad) == [83, 84, 0, 0, 4, 0, 0, 0, 203, 0, 0, 0]
    ensures Frame(Status(REJECT_FILE_TRANSFER), pad) == [83, 84, 0, 0, 4, 0, 0, 0, 204, 0, 0, 0]
    ensures Frame(Status(FILE_TRANSFER_CANCELED), pad) == [83, 84, 0, 0, 4, 0, 0, 0, 205, 0, 0, 0]
    ensures Frame(Status(CHATTING_ALONE), pad) == [83, 84, 0, 0, 4, 0, 0, 0, 201, 0, 0, 0]
    ensures Frame(Status(NICKNAME_ALREADY_REGISTERED), pad) == [83, 84, 0, 0, 4, 0, 0, 0, 202, 0, 0, 0]
  {
    StatusFrame(201, pad);
    StatusFrame(202, pad);
    StatusFrame(203, pad);
    StatusFrame(204, pad);
    StatusFrame(205, pad);
  }

  lemma StatusFrame(code: byte, pad: Padding)
    ensures Frame(Status(code), pad) == [83, 84, 0, 0, 4, 0, 0, 0, code, 0, 0, 0]
  {
    Int32Is(4, 4, 0, 0, 0);
    Int32Is(code, code, 0, 0, 0);
  }

  /** "NAM", 37 bytes: the name and zeros; here for the name "ab". */
  lemma WireOfName(pad: Padding)
    ensures Frame(NewNickname([97, 98]), pad) == [78, 65, 77, 0, 37, 0, 0, 0, 97, 98] + Zeros(35)
  {
    Int32Is(37, 37, 0, 0, 0);
  }

  /** "MSG", 40 bytes and the text: the sender in 36 bytes, the length of the text, the text; here 300 times "x". */
  lemma WireOfChat(text: seq<byte>, pad: Padding)
    requires |text| == 300 && NulFree(text)
    ensures Frame(NewChat([97], text), pad) ==
            [77, 83, 71, 0, 84, 1, 0, 0] + ([97] + Zeros(35) + [44, 1, 0, 0] + text)
  {
    var m := NewChat([97], text);
    Int32Is(340, 84, 1, 0, 0);
    assert Header(CHAT, 340) == [77, 83, 71, 0, 84, 1, 0, 0];
    ChatBody(text, pad);
    assert m.Size() == 340;
  }

  lemma ChatBody(text: seq<byte>, pad: Padding)
    requires |text| == 300 && NulFree(text)
    ensures Body(NewChat([97], text), pad) == [97] + Zeros(35) + [44, 1, 0, 0] + text
  {
    Int32Is(300, 44, 1, 0, 0);
  }

  /** "REQ", 100 bytes: the sender in 36, the path in 64. */
  lemma WireOfRequest(pad: Padding)
    ensures Frame(NewFileRequest([97], [47, 98]), pad) ==
            [82, 69, 81, 0, 100, 0, 0, 0, 97] + Zeros(35) + [47, 98] + Zeros(62)
  {
    Int32Is(100, 100, 0, 0, 0);
  }

  /** "DTA", 16 bytes and the data: the offset in eight bytes, the mark, three of padding, the length, the data. */
  lemma WireOfBlock(data: seq<byte>, pad: Padding)
    requires |data| == 1000
    ensures Frame(FileData(1424, true, data), pad) ==
            [68, 84, 65, 0, 248, 3, 0, 0] + ([144, 5, 0, 0, 0, 0, 0, 0, 1] + pad + [232, 3, 0, 0] + data)
  {
    var m := FileData(1424, true, data);
    Int32Is(1016, 248, 3, 0, 0);
    assert Header(FILE_DATA, 1016) == [68, 84, 65, 0, 248, 3, 0, 0];
    BlockBody(data, pad);
    assert m.Size() == 1016;
  }

  lemma BlockBody(data: seq<byte>, pad: Padding)
    requires |data| == 1000
    ensures Body(FileData(1424, true, data), pad) == [144, 5, 0, 0, 0, 0, 0, 0, 1] + pad + [232, 3, 0, 0] + data
  {
    Int32Is(1000, 232, 3, 0, 0);
    BigOfFour(144, 5, 0, 0);
    Int64Is(1424, [144, 5, 0, 0]);
    assert Int64Bytes(1424) + [1] == [144, 5, 0, 0, 0, 0, 0, 0, 1];
  }

  lemma {:induction false} BigOfFour(a: byte, b: byte, c: byte, d: byte)
    ensures Big([a, b, c, d]) == a + 256 * b + 0x1_0000 * c + 0x100_0000 * d
  {
    var s: seq<byte> := [a, b, c, d];
    assert s[1..] == [b, c, d] && [b, c, d][1..] == [c, d] && [c, d][1..] == [d] && [d][1..] == [];
    assert Big([d]) == d && Big([c, d]) == c + 256 * d;
    assert Big([b, c, d]) == b + 256 * Big([c, d]) && Big(s) == a + 256 * Big([b, c, d]);
  }

  // ---------- what is accepted ----------

  /** The sizes that a payload of this type may announce, given the length field at its position in the buffer. */
  predicate SizeFits(k: Kind, size: int, b: seq<byte>)
    requires |b| >= HEADER_SIZE && size <= |b| - HEADER_SIZE
  {
    match k
    case HELLO => true
    case BYE => true
    case STATUS => size == 4
    case NICKNAME => size == 37
    case CHAT => 40 <= size == 40 + Int32(b[44..48]) && Int32(b[44..48]) <= 1025
    case FILE_REQUEST => size >= 100
    case FILE_DATA => size >= 16 && 0 <= Int32(b[20..24]) <= size - 16
  }

  /** A length field that points outside the array it is copied to, or outside the frame. */
  predicate PointsOutside(k: Kind, size: int, b: seq<byte>)
    requires |b| >= HEADER_SIZE && size <= |b| - HEADER_SIZE
  {
    match k
    case CHAT => 40 <= size == 40 + Int32(b[44..48]) && Int32(b[44..48]) > 1025
    case FILE_DATA => size >= 16 && (Int32(b[20..24]) < 0 || Int32(b[20..24]) > size - 16)
    case _ => false
  }

  /**
   * Which bytes are a message: those with a known command, a size of at most 1440 that has arrived, and a size that
   * fits the type. A greeting may announce anything, a negative size even; it takes up eight bytes all the same.
   */
  lemma ExactlyTheseParse(b: seq<byte>)
    requires |b| >= HEADER_SIZE
    ensures var (kind, size) := (KindFrom(b[..4], 0), Int32(b[4..8]));
            Parse(b).Parsed? <==>
              kind.Some? && size <= 1440 && size <= |b| - HEADER_SIZE && SizeFits(kind.value, size, b)
    ensures Parse(b).NeedMore? <==>
              KindFrom(b[..4], 0).Some? && |b| - HEADER_SIZE < Int32(b[4..8]) <= 1440
    ensures Parse(b).BadHeader? <==> KindFrom(b[..4], 0).None? || Int32(b[4..8]) > 1440
    ensures var (kind, size) := (KindFrom(b[..4], 0), Int32(b[4..8]));
            Parse(b).Overrun? <==>
              kind.Some? && size <= 1440 && size <= |b| - HEADER_SIZE && PointsOutside(kind.value, size, b)
  {
    var rest := b[8..];
    if KindFrom(b[..4], 0).Some? && Int32(b[4..8]) <= |rest| {
      if Int32(b[4..8]) >= 40 {
        assert rest[36..40] == b[44..48];
      }
      if Int32(b[4..8]) >= 16 {
        assert rest[12..16] == b[20..24];
      }
    }
  }

  lemma MarkIsSet(rest: seq<byte>, n: nat, mark: byte)
    requires 16 + n <= |rest|
    ensures rest[..16 + n][8 := mark] ==
            rest[..8] + [mark] + rest[9..12] + rest[12..16] + rest[16..16 + n]
  {
  }

  lemma DataIsRead(rest: seq<byte>, n: nat)
    requires 16 + n <= |rest| && 16 + n <= MAX_PAYLOAD_SIZE && n == Int32(rest[12..16])
    ensures Body(FileData(Int64(rest[..8]), rest[8] != 0, rest[16..16 + n]), rest[9..12]) ==
            rest[..16 + n][8 := if rest[8] == 0 then 0 else 1]
  {
    Int64BytesRoundTrip(rest[..8]);
    Int32BytesRoundTrip(rest[12..16]);
    MarkIsSet(rest, n, if rest[8] == 0 then 0 else 1);
  }

  lemma TextIsRead(rest: seq<byte>, n: nat, pad: Padding)
    requires 40 + n <= |rest| && n <= CHATMESSAGE_FIELD_SIZE && n == Int32(rest[36..40])
    ensures Body(Chat(rest[..36], rest[40..40 + n]), pad) == rest[..40 + n]
  {
    Int32BytesRoundTrip(rest[36..40]);
    assert rest[..40 + n] == rest[..36] + rest[36..40] + rest[40..40 + n];
  }

  /** The payload is that of the message, byte for byte, but that any mark other than zero reads as one. */
  predicate ReadsAs(payload: seq<byte>, m: Message) {
    && m.WellFormed() && |payload| == m.Size()
    && if m.FileData? then Body(m, payload[9..12]) == payload[8 := if payload[8] == 0 then 0 else 1]
       else Body(m, [0, 0, 0]) == payload
  }

  lemma {:induction false} PayloadRoundTrip(k: Kind, rest: seq<byte>, size: int)
    requires size <= |rest| && size <= MAX_PAYLOAD_SIZE && DecodeBody(k, rest, size).Parsed?
    ensures var r := DecodeBody(k, rest, size); ReadsAs(rest[..r.used - HEADER_SIZE], r.msg)
  {
    match DecodeBody(k, rest, size).msg {
      case Status(_) => Int32BytesRoundTrip(rest[..4]);
      case Chat(_, text) => TextIsRead(rest, |text|, [0, 0, 0]);
      case FileData(_, _, data) =>
        DataIsRead(rest, |data|);
        assert rest[..16 + |data|][9..12] == rest[9..12];
      case _ =>
    }
  }

  /** And what they say: the payload of the message that was read is the bytes it was read from. */
  lemma {:induction false} BytesRoundTrip(b: seq<byte>)
    requires |b| >= HEADER_SIZE && Parse(b).Parsed?
    ensures KindFrom(b[..4], 0) == Some(Parse(b).msg.Kind())
    ensures ReadsAs(b[8..Parse(b).used], Parse(b).msg)
  {
    var k, rest, size := KindFrom(b[..4], 0).value, b[8..], Int32(b[4..8]);
    assert Parse(b) == DecodeBody(k, rest, size);
    PayloadRoundTrip(k, rest, size);
    assert b[8..Parse(b).used] == rest[..Parse(b).used - HEADER_SIZE];
  }
}
