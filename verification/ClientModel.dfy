/** The client side of a connection on values: cutting a file into blocks and rebuilding it from them. */
module ClientModel {
  import opened Bytes
  import opened Messages
  import opened ServerModel

  type Path = seq<byte>

  /** The one file handle of a client: opened "r" when sending, "w" when receiving. */
  datatype Handle = Closed | Reading(path: Path, pos: nat) | Writing(path: Path, pos: nat)

  /** `disk` is the client's file system; `block` is `fileTransferBuffer_`. */
  datatype Client = Client(
    disk: map<Path, seq<byte>>,
    handle: Handle,
    offset: nat,
    block: seq<byte>,
    isReceiving: bool,
    isSending: bool,
    hasStarted: bool,
    fileName: Path,
    nickName: seq<byte>,
    queue: seq<Message>)
  {
    predicate Valid() {
      && |block| == MAX_MESSAGE_SIZE
      && (handle.Reading? ==> handle.path in disk)
      && (handle.Writing? ==> handle.path in disk)
    }
  }

  function Min(a: int, b: int): (r: int) {
    if a <= b then a else b
  }

  /** `disableFileTransferMode()`. */
  function Disabled(c: Client): (r: Client) {
    c.(handle := Closed, offset := 0, isReceiving := false, isSending := false, hasStarted := false, fileName := [])
  }

  function Queued(c: Client, m: Message): (r: Client) {
    c.(queue := Enqueue(c.queue, m))
  }

  // ---------- sending ----------

  /** The conversion of the `unsigned long long` offset to the `long` of `setFileOffset`. */
  function ToLong(n: nat): (r: int64) {
    var r := n % 0x1_0000_0000_0000_0000;
    if r >= 0x8000_0000_0000_0000 then r - 0x1_0000_0000_0000_0000 else r
  }

  /** The bytes from a position on, none behind the end of the file. */
  function From(content: seq<byte>, pos: nat): (r: seq<byte>) {
    if pos <= |content| then content[pos..] else []
  }

  /** One block is read and queued; reading less than a block means that the end of the file was met. */
  function ReadBlock(c: Client): (r: Client)
    requires c.Valid() && !c.handle.Closed?
    ensures ReadBlock(c).Valid()
  {
    match c.handle
    case Reading(path, pos) =>
      var data := Take(From(c.disk[path], pos), BLOCK);
      var d := c.(handle := Reading(path, pos + |data|), block := data + c.block[|data|..],
                  offset := c.offset + |data|);
      var last := |data| < BLOCK;
      Queued(if last then Disabled(d) else d, FileData(ToLong(c.offset), last, data))
    case Writing(_, _) =>
      // Reading from a file opened for writing yields nothing and no end of file either.
      Queued(c.(offset := c.offset + BLOCK), FileData(ToLong(c.offset), false, c.block[..BLOCK]))
  }

  /** `cycle()`; `canOpen` is what the operating system makes of opening the file. */
  function Cycle(c: Client, canOpen: bool): (r: Client)
    requires c.Valid()
    ensures Cycle(c, canOpen).Valid()
  {
    if !c.isSending || !c.hasStarted then c
    else if c.handle.Closed? && !(canOpen && c.fileName in c.disk) then Disabled(c)
    else
      var d := if c.handle.Closed? then c.(handle := Reading(c.fileName, 0)) else c;
      if CanSend(d.queue) then ReadBlock(d) else d
  }

  /** `sendFile()`. */
  function SendFile(c: Client, fileName: seq<byte>): (r: Client) {
    Queued(c.(isSending := true, fileName := Take(fileName, MAX_PATH_SIZE)), NewFileRequest([], fileName))
  }

  // ---------- receiving ----------

  /** Writing at a position, with the zeros that fill a gap behind the end of the file. */
  function Overwrite(content: seq<byte>, pos: nat, data: seq<byte>): (r: seq<byte>)
    ensures data != [] ==> |r| == if pos + |data| > |content| then pos + |data| else |content|
    ensures data != [] ==> forall j :: 0 <= j < |r| ==>
              r[j] == if pos <= j < pos + |data| then data[j - pos] else if j < |content| then content[j] else 0
    ensures data == [] ==> r == content
  {
    if data == [] then content
    else
      var head := if pos <= |content| then content[..pos] else content + Zeros(pos - |content|);
      head + data + From(content, pos + |data|)
  }

  /** `saveData()`; a negative offset makes `fseek` fail and leave the position alone. */
  function SaveData(c: Client, data: seq<byte>, offset: int64, canOpen: bool): (r: Client)
    requires c.Valid()
    ensures SaveData(c, data, offset, canOpen).Valid()
  {
    if !c.isReceiving then c
    else if c.handle.Closed? && !canOpen then Disabled(c)
    else
      var d := if c.handle.Closed? then c.(handle := Writing(c.fileName, 0), disk := c.disk[c.fileName := []]) else c;
      match d.handle
      case Reading(path, pos) => if offset < 0 then d else d.(handle := Reading(path, offset))
      case Writing(path, pos) =>
        var at := if offset < 0 then pos else offset;
        d.(handle := Writing(path, at + |data|), disk := d.disk[path := Overwrite(d.disk[path], at, data)])
  }

  /** The user's answer to a file request, and what the file name is afterwards. */
  datatype Answer = Answer(accept: bool, fileName: Path)

  datatype Result = Continues(client: Client) | Aborts

  /** `SessionServer::availableMessages` for one message. */
  function Receives(c: Client, m: Message, answer: Answer, canOpen: bool): (r: Result)
    requires c.Valid()
    ensures r.Continues? ==> r.client.Valid()
  {
    match m
    case Status(code) =>
      if code == ACCEPT_FILE_TRANSFER then
        if !c.isSending || c.fileName == [] then Aborts else Continues(c.(hasStarted := true))
      else if code == REJECT_FILE_TRANSFER then
        if !c.isSending || c.fileName == [] then Aborts else Continues(Disabled(c))
      else if code == FILE_TRANSFER_CANCELED then
        if !c.isSending then Aborts else Continues(Disabled(c))
      else Continues(c)
    case Nickname(field) => Continues(c.(nickName := Take(CString(field), MAX_NICKNAME_SIZE - 1)))
    case FileRequest(_, _) =>
      Continues(Queued(c.(isReceiving := answer.accept, fileName := answer.fileName),
                       Status(if answer.accept then ACCEPT_FILE_TRANSFER else REJECT_FILE_TRANSFER)))
    case FileData(offset, isLast, data) =>
      if !c.isReceiving then Continues(c)
      else
        var d := SaveData(c, data, offset, canOpen);
        Continues(if isLast then Disabled(d) else d)
    case _ => Continues(c)
  }

  // ---------- the blocks of a file ----------

  /** The number of the final block. */
  function Final(file: seq<byte>): (r: nat) {
    |file| / BLOCK
  }

  function End(file: seq<byte>, k: nat): (r: nat) {
    Min(BLOCK * (k + 1), |file|)
  }

  lemma BlockBounds(file: seq<byte>, k: nat)
    requires k <= Final(file)
    ensures 0 <= BLOCK * k <= End(file, k) <= |file|
    ensures k < Final(file) <==> End(file, k) == BLOCK * (k + 1)
    ensures k == Final(file) <==> End(file, k) - BLOCK * k < BLOCK
  {
  }

  function BlockData(file: seq<byte>, k: nat): (r: seq<byte>)
    requires k <= Final(file)
    ensures |r| == End(file, k) - BLOCK * k
  {
    BlockBounds(file, k);
    file[BLOCK * k..End(file, k)]
  }

  /** File sizes are `off_t` values. */
  predicate Storable(file: seq<byte>) {
    |file| < 0x8000_0000_0000_0000
  }

  function BlockAt(file: seq<byte>, k: nat): (r: Message)
    requires k <= Final(file) && Storable(file)
    ensures r.FileData? && r.WellFormed()
  {
    BlockBounds(file, k);
    FileData(BLOCK * k, k == Final(file), BlockData(file, k))
  }

  /** The first `n` blocks. */
  function BlocksOf(file: seq<byte>, n: nat): (r: seq<Message>)
    requires n <= Final(file) + 1 && Storable(file)
    ensures |r| == n && forall k :: 0 <= k < n ==> r[k] == BlockAt(file, k)
  {
    seq(n, k requires 0 <= k < n => BlockAt(file, k))
  }

  function Payloads(ms: seq<Message>): (r: seq<byte>)
    requires forall m :: m in ms ==> m.FileData?
  {
    if ms == [] then [] else Payloads(ms[..|ms| - 1]) + ms[|ms| - 1].data
  }

  /** The blocks tile the file: their payloads put together are the file up to where the last of them ends. */
  lemma {:induction false} BlocksTile(file: seq<byte>, n: nat)
    requires n <= Final(file) + 1 && Storable(file)
    ensures Payloads(BlocksOf(file, n)) == file[..Min(BLOCK * n, |file|)]
  {
    if n > 0 {
      BlocksTile(file, n - 1);
      NextTile(file, n - 1, n);
    }
  }

  lemma NextTile(file: seq<byte>, k: nat, n: nat)
    requires n == k + 1 && k <= Final(file) && Storable(file)
    requires Payloads(BlocksOf(file, k)) == file[..Min(BLOCK * k, |file|)]
    ensures Payloads(BlocksOf(file, n)) == file[..Min(BLOCK * n, |file|)]
  {
    BlockBounds(file, k);
    LastPayload(file, k);
    assert file[..BLOCK * k] + BlockData(file, k) == file[..End(file, k)];
  }

  lemma LastPayload(file: seq<byte>, k: nat)
    requires k <= Final(file) && Storable(file)
    ensures Payloads(BlocksOf(file, k + 1)) == Payloads(BlocksOf(file, k)) + BlockData(file, k)
  {
    var all := BlocksOf(file, k + 1);
    assert all[..|all| - 1] == BlocksOf(file, k);
  }

  /** All of them give the whole file, and only the final one is marked last. */
  lemma AllBlocks(file: seq<byte>)
    requires Storable(file)
    ensures var all := BlocksOf(file, Final(file) + 1);
            Payloads(all) == file && forall k :: 0 <= k < |all| ==> (all[k].isLast <==> k == |all| - 1)
  {
    BlocksTile(file, Final(file) + 1);
    assert file[..|file|] == file;
  }

  /**
   * Each block begins where the one before it ends; the final one alone is shorter, and empty if blocks fill the file.
   */
  lemma BlockSizes(file: seq<byte>, k: nat)
    requires Storable(file) && k <= Final(file)
    ensures |BlockAt(file, k).data| < BLOCK <==> BlockAt(file, k).isLast
    ensures BlockAt(file, Final(file)).data == [] <==> |file| % BLOCK == 0
    ensures k < Final(file) ==> BlockAt(file, k + 1).offset == BlockAt(file, k).offset + |BlockAt(file, k).data|
  {
    BlockBounds(file, k);
  }
}
