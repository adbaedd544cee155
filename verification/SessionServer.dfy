/** The client's session with the server, with its file handle, its block buffer and its mode flags. */
module SessionServer {
  import opened Bytes
  import opened Messages
  import opened MessageObjects
  import opened Framing
  import ServerModel
  import SB = SessionBase
  import C = ClientModel
  import P = Polling

  class SessionServer {
    const base: SB.SessionBase
    const fileTransferBuffer: array<byte>
    var disk: map<C.Path, seq<byte>>
    var fileTransferHandle: C.Handle
    var fileTransferOffset: nat
    var isReceivingFile: bool
    var isSendingFile: bool
    var hasFileTransferStarted: bool
    var fileName: C.Path
    var nickName: seq<byte>

    ghost function View(): (r: C.Client)
      reads this, base, fileTransferBuffer
    {
      C.Client(disk, fileTransferHandle, fileTransferOffset, fileTransferBuffer[..], isReceivingFile, isSendingFile,
               hasFileTransferStarted, fileName, nickName, base.sendingQueue)
    }

    ghost predicate Valid()
      reads this, base, fileTransferBuffer
    {
      base.Valid() && fileTransferBuffer != base.buffer && View().Valid()
    }

    constructor (disk: map<C.Path, seq<byte>>)
      ensures Valid() && fresh(base) && fresh(base.buffer) && fresh(fileTransferBuffer)
      ensures base.sendingQueue == [Hello] && base.receivingQueue == [] && !base.disconnectionFlag
      ensures base.CurrentInput() == EMPTY
      ensures View() == C.Client(disk, C.Closed, 0, fileTransferBuffer[..], false, false, false, [], [], [Hello])
    {
      base := new SB.SessionBase(0);
      fileTransferBuffer := new byte[MAX_MESSAGE_SIZE];
      this.disk := disk;
      fileTransferHandle := C.Closed;
      fileTransferOffset := 0;
      isReceivingFile, isSendingFile, hasFileTransferStarted := false, false, false;
      fileName, nickName := [], [];
      new;
      var _ := base.SendMessage(Hello);
    }

    method DisableFileTransferMode()
      requires Valid()
      modifies this
      ensures Valid() && View() == C.Disabled(old(View()))
    {
      fileTransferHandle := C.Closed;
      fileTransferOffset := 0;
      isReceivingFile, isSendingFile, hasFileTransferStarted := false, false, false;
      fileName := [];
    }

    method SendFile(name: seq<byte>)
      requires Valid()
      modifies this, base`sendingQueue
      ensures Valid() && View() == C.SendFile(old(View()), name)
    {
      isSendingFile := true;
      fileName := Take(name, MAX_PATH_SIZE);
      var _ := base.SendMessage(NewFileRequest([], name));
    }

    /** `fread` of one byte: a file opened for writing yields none, and no end of file either. */
    method ReadByte(at: nat) returns (endOfFile: bool)
      requires Valid() && !fileTransferHandle.Closed? && at < fileTransferBuffer.Length
      modifies this`fileTransferHandle, fileTransferBuffer
      ensures Valid()
      ensures match old(fileTransferHandle)
              case Writing(_, _) => !endOfFile && fileTransferHandle == old(fileTransferHandle)
                  && fileTransferBuffer[..] == old(fileTransferBuffer[..])
              case Reading(path, pos) =>
                && endOfFile == (pos >= |disk[path]|)
                && fileTransferHandle == C.Reading(path, if endOfFile then pos else pos + 1)
                && fileTransferBuffer[..] == if endOfFile then old(fileTransferBuffer[..])
                    else old(fileTransferBuffer[..])[at := disk[path][pos]]
    {
      match fileTransferHandle {
        case Writing(_, _) => endOfFile := false;
        case Reading(path, pos) =>
          endOfFile := pos >= |disk[path]|;
          if !endOfFile {
            fileTransferBuffer[at] := disk[path][pos];
            fileTransferHandle := C.Reading(path, pos + 1);
          }
      }
    }

    /** The loop of `cycle` that fills the block buffer byte by byte until it is full or the file ends. */
    method FillBlock() returns (offset: nat, endOfFile: bool)
      requires Valid() && !fileTransferHandle.Closed?
      modifies this`fileTransferHandle, fileTransferBuffer
      ensures Valid() && offset <= BLOCK
      ensures match old(fileTransferHandle)
              case Writing(_, _) =>
                !endOfFile && offset == BLOCK && fileTransferHandle == old(fileTransferHandle)
                    && fileTransferBuffer[..] == old(fileTransferBuffer[..])
              case Reading(path, pos) =>
                var data := Take(C.From(disk[path], pos), BLOCK);
                && offset == |data| && endOfFile == (|data| < BLOCK)
                && fileTransferHandle == C.Reading(path, pos + |data|)
                && fileTransferBuffer[..] == data + old(fileTransferBuffer[..])[|data|..]
    {
      offset, endOfFile := 0, false;
      ghost var before, h := fileTransferBuffer[..], fileTransferHandle;
      while offset < BLOCK
        invariant Valid() && offset <= BLOCK && !endOfFile && !h.Closed? && |before| == MAX_MESSAGE_SIZE
        invariant Filled(h, before, offset)
      {
        endOfFile := FillByte(offset, h, before);
        if endOfFile {
          break;
        }
        offset := offset + 1;
      }
      if h.Reading? {
        assert C.From(disk[h.path], h.pos)[..offset] == Take(C.From(disk[h.path], h.pos), BLOCK);
      }
    }

    /** The first `offset` bytes from where the handle stood are in the buffer. */
    ghost predicate Filled(h: C.Handle, before: seq<byte>, offset: nat)
      requires offset <= |before|
      reads this, fileTransferBuffer
    {
      match h
      case Closed => false
      case Writing(_, _) => fileTransferHandle == h && fileTransferBuffer[..] == before
      case Reading(path, pos) =>
        && path in disk && offset <= |C.From(disk[path], pos)| && fileTransferHandle == C.Reading(path, pos + offset)
        && fileTransferBuffer[..] == C.From(disk[path], pos)[..offset] + before[offset..]
    }

    method FillByte(at: nat, ghost h: C.Handle, ghost before: seq<byte>) returns (endOfFile: bool)
      requires Valid() && at < BLOCK && |before| == MAX_MESSAGE_SIZE && Filled(h, before, at)
      modifies this`fileTransferHandle, fileTransferBuffer
      ensures Valid()
      ensures if endOfFile then h.Reading? && at == |C.From(disk[h.path], h.pos)| && Filled(h, before, at)
              else Filled(h, before, at + 1)
    {
      if h.Reading? && at < |C.From(disk[h.path], h.pos)| {
        assert C.From(disk[h.path], h.pos)[at] == disk[h.path][h.pos + at];
        OneByteMore(C.From(disk[h.path], h.pos), before, at);
      }
      endOfFile := ReadByte(at);
    }

    static lemma OneByteMore(content: seq<byte>, before: seq<byte>, i: nat)
      requires i < |content| && i < |before|
      ensures (content[..i] + before[i..])[i := content[i]] == content[..i + 1] + before[i + 1..]
    {
    }

    /** `cycle()`. */
    method Cycle(canOpen: bool)
      requires Valid()
      modifies this, fileTransferBuffer, base`sendingQueue
      ensures Valid() && View() == C.Cycle(old(View()), canOpen)
    {
      if !isSendingFile || !hasFileTransferStarted {
        return;
      }
      if fileTransferHandle.Closed? {
        if !(canOpen && fileName in disk) {
          DisableFileTransferMode();
          return;
        }
        fileTransferHandle := C.Reading(fileName, 0);
      }
      if !base.CanSendMessages() {
        return;
      }
      SendBlock();
    }

    method SendBlock()
      requires Valid() && !fileTransferHandle.Closed? && base.CanSendMessages()
      modifies this, fileTransferBuffer, base`sendingQueue
      ensures Valid() && View() == C.ReadBlock(old(View()))
    {
      var offset, endOfFile := FillBlock();
      var message := MakeBlock(fileTransferBuffer[..offset], C.ToLong(fileTransferOffset), endOfFile);
      fileTransferOffset := fileTransferOffset + offset;
      if endOfFile {
        DisableFileTransferMode();
      }
      var _ := base.SendMessage(message);
    }

    static method MakeBlock(data: seq<byte>, offset: int64, endOfFile: bool) returns (m: Message)
      requires |data| <= BLOCK
      ensures m == FileData(offset, endOfFile, data)
    {
      var message := new FileDataMessage();
      message.SetBuffer(data);
      message.SetFileOffset(offset);
      if endOfFile {
        message.MarkLastBlock();
      }
      m := message.Value();
    }

    /** `saveData()`. */
    method SaveData(data: seq<byte>, offset: int64, canOpen: bool)
      requires Valid()
      modifies this
      ensures Valid() && View() == C.SaveData(old(View()), data, offset, canOpen)
    {
      if !isReceivingFile {
        return;
      }
      if fileTransferHandle.Closed? {
        if !canOpen {
          DisableFileTransferMode();
          return;
        }
        fileTransferHandle := C.Writing(fileName, 0);
        disk := disk[fileName := []];
      }
      match fileTransferHandle {
        case Reading(path, pos) =>
          if offset >= 0 {
            fileTransferHandle := C.Reading(path, offset);
          }
        case Writing(path, pos) =>
          var at := if offset < 0 then pos else offset;
          disk := disk[path := C.Overwrite(disk[path], at, data)];
          fileTransferHandle := C.Writing(path, at + |data|);
      }
    }

    /** The statuses of a transfer; `aborted` is the call of `fatal`. */
    method HandleStatus(code: int32, ghost answer: C.Answer, ghost canOpen: bool) returns (aborted: bool)
      requires Valid()
      modifies this
      ensures Valid()
      ensures match C.Receives(old(View()), Status(code), answer, canOpen)
              case Continues(c) => !aborted && View() == c
              case Aborts => aborted && View() == old(View())
    {
      if code == ACCEPT_FILE_TRANSFER {
        if !isSendingFile || |fileName| == 0 {
          return true;
        }
        hasFileTransferStarted := true;
      } else if code == REJECT_FILE_TRANSFER {
        if !isSendingFile || |fileName| == 0 {
          return true;
        }
        DisableFileTransferMode();
      } else if code == FILE_TRANSFER_CANCELED {
        if !isSendingFile {
          return true;
        }
        DisableFileTransferMode();
      }
      return false;
    }

    method HandleFileData(m: Message, ghost answer: C.Answer, canOpen: bool)
      requires Valid() && m.FileData?
      modifies this
      ensures Valid() && C.Receives(old(View()), m, answer, canOpen) == C.Continues(View())
    {
      if isReceivingFile {
        SaveData(m.data, m.offset, canOpen);
        if m.isLast {
          DisableFileTransferMode();
        }
      }
    }

    /** One message; `aborted` is the call of `fatal`. */
    method Handle(m: Message, answer: C.Answer, canOpen: bool) returns (aborted: bool)
      requires Valid()
      modifies this, base`sendingQueue
      ensures Valid()
      ensures match C.Receives(old(View()), m, answer, canOpen)
              case Continues(c) => !aborted && View() == c
              case Aborts => aborted && View() == old(View())
    {
      match m {
        case Status(code) =>
          aborted := HandleStatus(code, answer, canOpen);
          return;
        case Nickname(field) =>
          nickName := Take(CString(field), MAX_NICKNAME_SIZE - 1);
        case FileRequest(_, _) =>
          fileName := answer.fileName;
          var _ := base.SendMessage(Status(if answer.accept then ACCEPT_FILE_TRANSFER else REJECT_FILE_TRANSFER));
          isReceivingFile := answer.accept;
        case FileData(_, _, _) =>
          HandleFileData(m, answer, canOpen);
        case Chat(_, _) =>
        case Hello =>
        case Bye =>
      }
      return false;
    }

    /**
     * The loop over the received messages. The queue is a stack, but right after a read it holds at most one message,
     * so that one is handled and the queue is empty again.
     */
    method AvailableMessages(answer: C.Answer, canOpen: bool) returns (aborted: bool)
      requires Valid() && |base.receivingQueue| <= 1
      modifies this, base`receivingQueue, base`sendingQueue
      ensures Valid() && base.receivingQueue == []
      ensures if old(base.receivingQueue) == [] then !aborted && View() == old(View())
              else match C.Receives(old(View()), old(base.receivingQueue)[0], answer, canOpen)
                   case Continues(c) => !aborted && View() == c
                   case Aborts => aborted && View() == old(View())
    {
      aborted := false;
      var message := base.ReceiveMessage();
      ghost var first := message;
      while message.Some?
        invariant Valid() && |base.receivingQueue| == 0
        invariant message.Some? ==> !aborted && View() == old(View()) && message == first
        invariant message.None? ==>
                    if first.None? then !aborted && View() == old(View())
                    else match C.Receives(old(View()), first.value, answer, canOpen)
                         case Continues(c) => !aborted && View() == c
                         case Aborts => aborted && View() == old(View())
        decreases message.Some?
      {
        aborted := Handle(message.value, answer, canOpen);
        if aborted {
          return;
        }
        message := base.ReceiveMessage();
      }
    }

    method Disconnect()
      requires Valid()
      modifies base`sendingQueue, base`disconnectionFlag
      ensures Valid() && base.disconnectionFlag
      ensures base.sendingQueue == if old(base.disconnectionFlag) then old(base.sendingQueue)
              else ServerModel.Enqueue(old(base.sendingQueue), Bye)
    {
      if base.IsConnected() {
        var _ := base.SendMessage(Bye);
        base.Disconnect();
      }
    }

    // ---------- the polling loop ----------

    ghost function State(sent: seq<byte>, aborted: bool): (r: P.Session)
      requires Valid()
      reads this, base, base.buffer, fileTransferBuffer
    {
      P.Session(View(), base.CurrentInput(), base.disconnectionFlag, sent, aborted)
    }

    /** `readData` with the call of `availableMessages` it makes; `offered` is what has arrived at the socket. */
    method Reads(offered: seq<byte>, answer: C.Answer, canOpen: bool, ghost sent: seq<byte>)
      returns (hasError: bool, aborted: bool)
      requires Valid() && base.receivingQueue == []
      modifies this, base, base.buffer
      ensures Valid() && base.receivingQueue == []
      ensures P.Reads(old(State(sent, false)), offered, answer, canOpen) == (State(sent, aborted), hasError)
    {
      ghost var before := State(sent, false);
      var piece := Take(offered, MAX_MESSAGE_SIZE - base.bufferOffset);
      ghost var after := Receive(before.input, piece);
      assert P.Reads(before, offered, answer, canOpen) == P.Handles(before, after, answer, canOpen);
      hasError := TakeIn(piece, before, after);
      assert Took(before, after);
      aborted := Dispatch(before, after, answer, canOpen);
    }

    /** The part of `readData` that leaves everything but the buffer and the receive queue alone. */
    method TakeIn(piece: seq<byte>, ghost before: P.Session, ghost after: Input) returns (hasError: bool)
      requires Valid() && base.receivingQueue == [] && |piece| <= MAX_MESSAGE_SIZE - base.bufferOffset
      requires before == State(before.sent, false) && after == Receive(before.input, piece)
      modifies base`bufferOffset, base`delivered, base`receivingQueue, base.buffer
      ensures Took(before, after) && hasError == after.failed
    {
      hasError := base.ReadData(piece);
    }

    /** The session after a read: the new message, if any, is in the receive queue, and nothing else has changed. */
    ghost predicate Took(before: P.Session, after: Input)
      reads this, base, base.buffer, fileTransferBuffer
    {
      && Valid() && before.Valid() && !before.aborted && |base.receivingQueue| <= 1
      && before.client == View() && before.closing == base.disconnectionFlag
      && base.CurrentInput() == after.(failed := false)
      && before.input.delivered <= after.delivered
      && base.receivingQueue == after.delivered[|before.input.delivered|..]
    }

    /** The message the read left in the receive queue is handled. */
    method Dispatch(ghost before: P.Session, ghost after: Input, answer: C.Answer, canOpen: bool)
      returns (aborted: bool)
      requires Took(before, after)
      modifies this, base`receivingQueue, base`sendingQueue
      ensures Valid() && base.receivingQueue == []
      ensures P.Handles(before, after, answer, canOpen) == (State(before.sent, aborted), after.failed)
    {
      aborted := AvailableMessages(answer, canOpen);
    }

    /** What follows the socket calls of an iteration. */
    method Ends(hasError: bool, canOpen: bool, ghost sent: seq<byte>)
      requires Valid()
      modifies this, base`disconnectionFlag, base`sendingQueue, fileTransferBuffer
      ensures Valid() && base.receivingQueue == old(base.receivingQueue)
      ensures State(sent, false) == P.Ends(old(State(sent, false)), hasError, canOpen)
    {
      if hasError {
        base.Disconnect();
      } else if base.IsConnected() {
        Cycle(canOpen);
      }
    }

    method Writes(pad: Padding, sentBefore: seq<byte>) returns (hasError: bool, sent: seq<byte>)
      requires Valid() && base.sendingQueue != []
      modifies base`sendingQueue, base`written
      ensures Valid() && !hasError
      ensures State(sent, false) == P.Writes(old(State(sentBefore, false)), pad)
    {
      var bytes;
      hasError, bytes := base.WriteData(pad);
      sent := sentBefore + bytes;
    }

    /** One iteration after `ppoll` returned; `sent` collects the bytes given to `send`. */
    method PollOnce(p: P.Poll, sentBefore: seq<byte>) returns (hasError: bool, sent: seq<byte>, aborted: bool)
      requires Valid() && base.receivingQueue == []
      modifies this, base, base.buffer, fileTransferBuffer
      ensures Valid() && base.receivingQueue == []
      ensures P.PollOnce(old(State(sentBefore, false)), p) == (State(sent, aborted), hasError)
    {
      hasError, sent, aborted := false, sentBefore, false;
      if p.Timeout? {
        return;
      }
      var watchesOutput := |base.sendingQueue| > 0;
      hasError := p.broken;
      if p.input.Some? {
        hasError, aborted := Reads(p.input.value, p.answer, p.canOpen, sentBefore);
        if aborted {
          return;
        }
      }
      if p.writable.Some? && watchesOutput {
        hasError, sent := Writes(p.writable.value, sentBefore);
      }
      Ends(hasError, p.canOpen, sent);
    }

    /** `pollForData()` over the results of successive calls of `ppoll`. */
    method PollForData(polls: seq<P.Poll>) returns (hasError: bool, sent: seq<byte>, aborted: bool)
      requires Valid() && base.receivingQueue == []
      modifies this, base, base.buffer, fileTransferBuffer
      ensures Valid() && base.receivingQueue == []
      ensures P.Polled(old(State([], false)), false, polls) == (State(sent, aborted), hasError)
    {
      hasError, sent, aborted := false, [], false;
      var i := 0;
      while i < |polls| && !aborted && !hasError && (base.IsConnected() || |base.sendingQueue| > 0)
        invariant Valid() && base.receivingQueue == [] && i <= |polls|
        invariant P.Polled(old(State([], false)), false, polls) == P.Polled(State(sent, aborted), hasError, polls[i..])
      {
        assert polls[i..][0] == polls[i] && polls[i..][1..] == polls[i + 1..];
        hasError, sent, aborted := PollOnce(polls[i], sent);
        i := i + 1;
      }
      assert i == |polls| ==> polls[i..] == [];
    }
  }
}
