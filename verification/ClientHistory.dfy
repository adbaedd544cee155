/** The client over whole runs: what makes it cut blocks, what ends an offer, and what it is called. */
module ClientHistory {
  import opened Bytes
  import opened Messages
  import opened ServerModel
  import opened ClientModel
  import opened Splitting
  import H = History

  /** What happens to a client's session: its loop, its user and the server. */
  datatype Happening =
    | Cycles(canOpen: bool)
    | Writes
    | Says(m: Message)
    | Offers(path: Path)
    | Hears(m: Message, answer: Answer, canOpen: bool)

  /** Its program ends if it hears a verdict that it has not asked for. */
  function After(c: Client, h: Happening): (r: Result)
    requires c.Valid()
    ensures r.Continues? ==> r.client.Valid()
  {
    match h
    case Cycles(canOpen) => Continues(Cycle(c, canOpen))
    case Writes => Continues(if c.queue == [] then c else c.(queue := c.queue[1..]))
    case Says(m) => Continues(Queued(c, m))
    case Offers(path) => Continues(SendFile(c, path))
    case Hears(m, answer, canOpen) => Receives(c, m, answer, canOpen)
  }

  function AfterAll(c: Client, hs: seq<Happening>): (r: Result)
    requires c.Valid()
    ensures r.Continues? ==> r.client.Valid()
    decreases |hs|
  {
    if hs == [] then Continues(c)
    else
      match After(c, hs[0])
      case Continues(d) => AfterAll(d, hs[1..])
      case Aborts => Aborts
  }

  /** The messages that the cycles of a run queue. */
  function Cut(c: Client, hs: seq<Happening>): (r: seq<Message>)
    requires c.Valid()
    decreases |hs|
  {
    if hs == [] then []
    else
      match After(c, hs[0])
      case Continues(d) =>
        (if hs[0].Cycles? && |d.queue| > |c.queue| then d.queue[|c.queue|..] else []) + Cut(d, hs[1..])
      case Aborts => []
  }

  // ---------- when blocks are cut ----------

  predicate HearsGoAhead(h: Happening) {
    h.Hears? && h.m == Status(ACCEPT_FILE_TRANSFER)
  }

  predicate NoGoAhead(hs: seq<Happening>) {
    forall i :: 0 <= i < |hs| ==> !HearsGoAhead(hs[i])
  }

  predicate NoOffers(hs: seq<Happening>) {
    forall i :: 0 <= i < |hs| ==> !hs[i].Offers?
  }

  lemma {:induction false} TailOf(hs: seq<Happening>)
    requires hs != []
    ensures NoGoAhead(hs) ==> !HearsGoAhead(hs[0]) && NoGoAhead(hs[1..])
    ensures NoOffers(hs) ==> !hs[0].Offers? && NoOffers(hs[1..])
  {
    assert forall i :: 0 <= i < |hs[1..]| ==> hs[1..][i] == hs[i + 1];
  }

  /**
   * Nothing is cut before the go-ahead: whatever a client that has not been told to start offers, says, hears and does,
   * its cycles queue nothing until it is told.
   */
  lemma {:induction false} NothingBeforeGoAhead(c: Client, hs: seq<Happening>)
    requires c.Valid() && !c.hasStarted && NoGoAhead(hs)
    ensures Cut(c, hs) == []
    ensures AfterAll(c, hs).Continues? ==> !AfterAll(c, hs).client.hasStarted
    decreases |hs|
  {
    if hs != [] {
      TailOf(hs);
      if After(c, hs[0]).Continues? {
        NothingBeforeGoAhead(After(c, hs[0]).client, hs[1..]);
      }
    }
  }

  lemma {:induction false} NothingWithoutOffer(c: Client, hs: seq<Happening>)
    requires c.Valid() && !c.isSending && NoOffers(hs)
    ensures Cut(c, hs) == []
    decreases |hs|
  {
    if hs != [] {
      TailOf(hs);
      if After(c, hs[0]).Continues? {
        NothingWithoutOffer(After(c, hs[0]).client, hs[1..]);
      }
    }
  }

  /**
   * A refused or canceled offer is over: a client that hears so while it offers or sends a file goes on, and cuts no
   * block any more until its user offers a file again. It needs a new go-ahead then.
   */
  lemma {:induction false} RefusalEndsOffer(c: Client, code: int32, answer: Answer, canOpen: bool, hs: seq<Happening>)
    requires c.Valid() && c.isSending && c.fileName != []
    requires code == REJECT_FILE_TRANSFER || code == FILE_TRANSFER_CANCELED
    ensures var r := Receives(c, Status(code), answer, canOpen);
            && r.Continues? && !r.client.isSending && !r.client.hasStarted && !r.client.isReceiving
            && r.client.handle.Closed? && r.client.offset == 0 && r.client.fileName == [] && r.client.queue == c.queue
            && (NoOffers(hs) || NoGoAhead(hs) ==> Cut(r.client, hs) == [])
  {
    var d := Receives(c, Status(code), answer, canOpen).client;
    if NoOffers(hs) {
      NothingWithoutOffer(d, hs);
    }
    if NoGoAhead(hs) {
      NothingBeforeGoAhead(d, hs);
    }
  }

  /** A verdict ends the program of a client that offers nothing, and so does any verdict on a file without a name. */
  lemma UnaskedVerdictEndsProgram(c: Client, code: int32, answer: Answer, canOpen: bool)
    requires c.Valid() && code in {ACCEPT_FILE_TRANSFER, REJECT_FILE_TRANSFER}
    ensures !c.isSending ==> Receives(c, Status(code), answer, canOpen).Aborts?
    ensures !c.isSending ==> Receives(c, Status(FILE_TRANSFER_CANCELED), answer, canOpen).Aborts?
    ensures Receives(SendFile(c, []), Status(code), answer, canOpen).Aborts?
    ensures Receives(SendFile(c, []), Status(FILE_TRANSFER_CANCELED), answer, canOpen).Continues?
  {
  }

  /** No other message ever does. */
  lemma OnlyVerdictsEndProgram(c: Client, m: Message, answer: Answer, canOpen: bool)
    requires c.Valid() && Receives(c, m, answer, canOpen).Aborts?
    ensures m.Status? && m.code in {ACCEPT_FILE_TRANSFER, REJECT_FILE_TRANSFER, FILE_TRANSFER_CANCELED}
    ensures !c.isSending || (c.fileName == [] && m.code != FILE_TRANSFER_CANCELED)
  {
  }

  /** The path that is offered is the path that is opened, cut at 64 bytes in both places. */
  lemma OfferNamesItsFile(c: Client, path: Path)
    requires NulFree(path) && CanSend(c.queue)
    ensures var d := SendFile(c, path);
            && |d.queue| == |c.queue| + 1 && d.queue[|c.queue|].FileRequest?
            && CString(d.queue[|c.queue|].fileName) == d.fileName == path[..if |path| <= 64 then |path| else 64]
  {
    FieldKeepsString(path, MAX_PATH_SIZE);
  }

  /**
   * There is one name for the file it offers and the file it is offered: a client that answers a request, with yes or
   * no, while its own offer is open sends the file its user named in the answer, once it is told to start.
   */
  lemma {:induction false} AnswerRetargetsOffer(c: Client, request: Message, answer: Answer, canOpen: bool)
    requires c.Valid() && c.isSending && c.handle.Closed? && c.offset == 0 && request.FileRequest?
    requires answer.fileName != [] && answer.fileName in c.disk && Storable(c.disk[answer.fileName])
    ensures var told := Hears(Status(ACCEPT_FILE_TRANSFER), answer, canOpen);
            var r := AfterAll(c, [Hears(request, answer, canOpen), told]);
            r.Continues? && Sending(r.client, c.disk[answer.fileName], 0)
  {
    var d := Receives(c, request, answer, canOpen).client;
    var told := Hears(Status(ACCEPT_FILE_TRANSFER), answer, canOpen);
    assert [Hears(request, answer, canOpen), told][1..] == [told] && [told][1..] == [];
    assert AfterAll(d, [told]) == Receives(d, Status(ACCEPT_FILE_TRANSFER), answer, canOpen);
  }

  // ---------- opening ----------

  /** The same run, had the file to be sent always been there to open. */
  function AllOpen(hs: seq<Happening>): (r: seq<Happening>)
    decreases |hs|
  {
    if hs == [] then [] else [if hs[0].Cycles? then Cycles(true) else hs[0]] + AllOpen(hs[1..])
  }

  lemma {:induction false} OpenedStays(c: Client, hs: seq<Happening>)
    requires c.Valid() && (c.hasStarted ==> !c.handle.Closed?) && NoGoAhead(hs)
    ensures AfterAll(c, hs) == AfterAll(c, AllOpen(hs))
    decreases |hs|
  {
    if hs != [] {
      TailOf(hs);
      assert AllOpen(hs)[1..] == AllOpen(hs[1..]);
      assert After(c, hs[0]) == After(c, AllOpen(hs)[0]);
      if After(c, hs[0]).Continues? {
        OpenedStays(After(c, hs[0]).client, hs[1..]);
      }
    }
  }

  /**
   * The file is opened at the first cycle after the go-ahead, with room or without, and once only: whatever happens,
   * whether it could still be opened makes no difference until the client is told to start again.
   */
  lemma {:induction false} OpensOnce(c: Client, hs: seq<Happening>)
    requires c.Valid() && (c.hasStarted ==> c.isSending) && NoGoAhead(hs)
    ensures AfterAll(Cycle(c, true), hs) == AfterAll(Cycle(c, true), AllOpen(hs))
  {
    OpenedStays(Cycle(c, true), hs);
  }

  // ---------- reading and writing with one handle ----------

  /** A byte of the block buffer after `k` blocks: that of the last block that reached so far, else what was there. */
  function HeldByte(file: seq<byte>, start: seq<byte>, k: nat, j: nat): (r: byte)
    requires k <= Final(file) + 1 && j < |start|
  {
    if k == 0 || j >= BLOCK then start[j]
    else if BLOCK * (k - 1) + j < |file| then file[BLOCK * (k - 1) + j]
    else if k > 1 then file[BLOCK * (k - 2) + j]
    else start[j]
  }

  predicate Holds(block: seq<byte>, file: seq<byte>, start: seq<byte>, k: nat)
    requires k <= Final(file) + 1
  {
    |block| == |start| && forall j :: 0 <= j < |block| ==> block[j] == HeldByte(file, start, k, j)
  }

  /** A cycle with room reads over the beginning of the buffer, nothing else touches it. */
  lemma TickReads(c: Client, file: seq<byte>, k: nat, t: Tick)
    requires Progress(c, file, k) && Storable(file)
    ensures Ticked(c, t).block ==
            if t.Cycled? && k <= Final(file) && CanSend(c.queue)
            then BlockData(file, k) + c.block[|BlockData(file, k)|..] else c.block
  {
    if k <= Final(file) {
      NextBlockIsRead(file, k);
    }
  }

  lemma HoldsOneMore(block: seq<byte>, file: seq<byte>, start: seq<byte>, k: nat)
    requires k <= Final(file) && |block| == MAX_MESSAGE_SIZE && Holds(block, file, start, k)
    ensures Holds(BlockData(file, k) + block[|BlockData(file, k)|..], file, start, k + 1)
  {
    var data := BlockData(file, k);
    BlockBounds(file, k);
    forall j | 0 <= j < |block|
      ensures (data + block[|data|..])[j] == HeldByte(file, start, k + 1, j)
    {
      assert j >= |data| ==> block[|data|..][j - |data|] == block[j];
    }
  }

  /**
   * The buffer is not cleared between blocks: while a file is cut, and when its last block is out, it holds the bytes
   * of that block and behind them those of the block before.
   */
  lemma {:induction false} BufferHolds(c: Client, file: seq<byte>, start: seq<byte>, k: nat, ts: seq<Tick>)
    returns (n: nat)
    requires Progress(c, file, k) && Storable(file) && k <= Final(file) + 1 && Holds(c.block, file, start, k)
    ensures k <= n <= Final(file) + 1 && Progress(Splitting.After(c, ts), file, n)
    ensures Holds(Splitting.After(c, ts).block, file, start, n)
    decreases |ts|
  {
    n := k;
    if ts != [] {
      var m := TickProgress(c, file, k, ts[0]);
      TickReads(c, file, k, ts[0]);
      if m != k {
        HoldsOneMore(c.block, file, start, k);
      }
      n := BufferHolds(Ticked(c, ts[0]), file, start, m, ts[1..]);
    }
  }

  /** Full blocks of what the buffer holds, from an offset on. */
  predicate StaleBlocks(ms: seq<Message>, offset: nat, block: seq<byte>) {
    forall i :: 0 <= i < |ms| ==> ms[i] == FileData(ToLong(offset + BLOCK * i), false, block)
  }

  predicate TellsStale(c: Client) {
    c.Valid() && c.isSending && c.hasStarted && c.handle.Writing?
  }

  lemma StaleTick(c: Client, t: Tick)
    requires TellsStale(c)
    ensures var d := Ticked(c, t);
            && TellsStale(d) && d.handle == c.handle && d.block == c.block
            && if t.Cycled? && |d.queue| > |c.queue| then
                 d.offset == c.offset + BLOCK
                 && d.queue[|c.queue|..] == [FileData(ToLong(c.offset), false, c.block[..BLOCK])]
               else d.offset == c.offset
  {
  }

  lemma StaleBlocksFollow(first: Message, rest: seq<Message>, offset: nat, block: seq<byte>)
    requires first == FileData(ToLong(offset), false, block) && StaleBlocks(rest, offset + BLOCK, block)
    ensures StaleBlocks([first] + rest, offset, block)
  {
    forall i | 0 <= i < |[first] + rest|
      ensures ([first] + rest)[i] == FileData(ToLong(offset + BLOCK * i), false, block)
    {
      if i > 0 {
        assert rest[i - 1] == FileData(ToLong((offset + BLOCK) + BLOCK * (i - 1)), false, block);
        assert (offset + BLOCK) + BLOCK * (i - 1) == offset + BLOCK * i;
      }
    }
  }

  /**
   * The one handle is shared: a client that is told to start while it has a file open for writing reads nothing from
   * it, and sends full blocks of what its buffer happens to hold, none of them the last, as long as it runs.
   */
  lemma {:induction false} SharedHandleNeverEnds(c: Client, ts: seq<Tick>)
    requires TellsStale(c)
    ensures StaleBlocks(Emitted(c, ts), c.offset, c.block[..BLOCK])
    ensures TellsStale(Splitting.After(c, ts))
    decreases |ts|
  {
    if ts != [] {
      var d := Ticked(c, ts[0]);
      StaleTick(c, ts[0]);
      SharedHandleNeverEnds(d, ts[1..]);
      var later := Emitted(d, ts[1..]);
      if ts[0].Cycled? && |d.queue| > |c.queue| {
        StaleBlocksFollow(FileData(ToLong(c.offset), false, c.block[..BLOCK]), later, c.offset, c.block[..BLOCK]);
      } else {
        assert Emitted(c, ts) == [] + later == later;
      }
    }
  }

  /** And a client that receives while it has its file open for reading saves nothing; the blocks move its position. */
  lemma SharedHandleSavesNothing(c: Client, offset: int64, data: seq<byte>, answer: Answer, canOpen: bool)
    requires c.Valid() && c.isReceiving && c.handle.Reading? && offset >= 0
    ensures Receives(c, FileData(offset, false, data), answer, canOpen) ==
            Continues(c.(handle := Reading(c.handle.path, offset)))
  {
  }

  /** Where seeking fails, a block is saved behind the one before it. */
  lemma BadOffsetAppends(c: Client, offset: int64, a: seq<byte>, bad: int64, b: seq<byte>)
    requires c.Valid() && c.isReceiving && c.handle.Writing? && offset >= 0 && bad < 0
    ensures SaveData(SaveData(c, a, offset, true), b, bad, true) == SaveData(c, a + b, offset, true)
  {
    var content := c.disk[c.handle.path];
    OverwriteTwice(content, offset, a, b);
    var path := c.handle.path;
    var x, y := Overwrite(content, offset, a), Overwrite(content, offset, a + b);
    assert c.disk[path := x][path := y] == c.disk[path := y];
  }

  lemma OverwriteTwice(content: seq<byte>, pos: nat, a: seq<byte>, b: seq<byte>)
    ensures Overwrite(Overwrite(content, pos, a), pos + |a|, b) == Overwrite(content, pos, a + b)
  {
    if a == [] {
      assert a + b == b;
    } else if b == [] {
      assert a + b == a;
    } else {
      var x, y := Overwrite(Overwrite(content, pos, a), pos + |a|, b), Overwrite(content, pos, a + b);
      assert |x| == |y|;
      forall j | 0 <= j < |x|
        ensures x[j] == y[j]
      {
        ByteWrittenTwice(content, pos, a, b, j);
      }
    }
  }

  lemma ByteWrittenTwice(content: seq<byte>, pos: nat, a: seq<byte>, b: seq<byte>, j: nat)
    requires a != [] && b != []
    requires j < |Overwrite(Overwrite(content, pos, a), pos + |a|, b)| && j < |Overwrite(content, pos, a + b)|
    ensures Overwrite(Overwrite(content, pos, a), pos + |a|, b)[j] == Overwrite(content, pos, a + b)[j]
  {
    var once := Overwrite(content, pos, a);
    if pos + |a| <= j < pos + |a| + |b| {
      assert (a + b)[j - pos] == b[j - pos - |a|];
    } else if pos <= j < pos + |a| {
      assert once[j] == (a + b)[j - pos];
    } else if j < |once| {
      assert once[j] == if j < |content| then content[j] else 0;
    }
  }

  /** The offset of a block is the C conversion of the offset in the file: equal modulo 2^64. */
  lemma OffsetsWrap(n: nat)
    ensures (ToLong(n) - n) % 0x1_0000_0000_0000_0000 == 0
  {
    var r := n % 0x1_0000_0000_0000_0000;
    assert n == 0x1_0000_0000_0000_0000 * (n / 0x1_0000_0000_0000_0000) + r;
    Multiples(-(n / 0x1_0000_0000_0000_0000));
    Multiples(-(n / 0x1_0000_0000_0000_0000) - 1);
  }

  lemma Multiples(k: int)
    ensures (k * 0x1_0000_0000_0000_0000) % 0x1_0000_0000_0000_0000 == 0
  {
  }

  // ---------- names ----------

  /** The last name among some messages, as an accessor returns it; `name` if there is none. */
  function LastName(name: seq<byte>, ms: seq<Message>): (r: seq<byte>)
    decreases |ms|
  {
    if ms == [] then name
    else
      var m := ms[|ms| - 1];
      if m.Nickname? then Take(CString(m.nickname), 35) else LastName(name, ms[..|ms| - 1])
  }

  /** What a client hears, in order. */
  function Heard(hs: seq<Happening>): (r: seq<Message>)
    decreases |hs|
  {
    if hs == [] then [] else (if hs[0].Hears? then [hs[0].m] else []) + Heard(hs[1..])
  }

  lemma {:induction false} LastNameOfConcat(name: seq<byte>, a: seq<Message>, b: seq<Message>)
    ensures LastName(name, a + b) == LastName(LastName(name, a), b)
    decreases |b|
  {
    if b == [] {
      assert a + b == a;
    } else {
      var all := a + b;
      assert all[|all| - 1] == b[|b| - 1] && all[..|all| - 1] == a + b[..|b| - 1];
      LastNameOfConcat(name, a, b[..|b| - 1]);
    }
  }

  lemma {:induction false} LastNameOfOne(name: seq<byte>, m: Message)
    ensures LastName(name, [m]) == if m.Nickname? then Take(CString(m.nickname), 35) else name
  {
    assert [m][..0] == [];
  }

  lemma OneHappening(c: Client, h: Happening)
    requires c.Valid() && After(c, h).Continues?
    ensures After(c, h).client.nickName ==
            if h.Hears? && h.m.Nickname? then Take(CString(h.m.nickname), 35) else c.nickName
  {
  }

  /** A client is called what the server has told it last, and nothing else changes its name. */
  lemma {:induction false} NameIsLastHeard(c: Client, hs: seq<Happening>)
    requires c.Valid() && AfterAll(c, hs).Continues?
    ensures AfterAll(c, hs).client.nickName == LastName(c.nickName, Heard(hs))
    decreases |hs|
  {
    if hs != [] {
      OneHappening(c, hs[0]);
      NameIsLastHeard(After(c, hs[0]).client, hs[1..]);
      FirstHeard(c.nickName, hs);
    }
  }

  lemma {:induction false} FirstHeard(name: seq<byte>, hs: seq<Happening>)
    requires hs != []
    ensures LastName(name, Heard(hs)) ==
            LastName(if hs[0].Hears? && hs[0].m.Nickname? then Take(CString(hs[0].m.nickname), 35) else name,
                     Heard(hs[1..]))
  {
    if hs[0].Hears? {
      LastNameOfOne(name, hs[0].m);
      LastNameOfConcat(name, [hs[0].m], Heard(hs[1..]));
    } else {
      assert Heard(hs) == [] + Heard(hs[1..]) == Heard(hs[1..]);
    }
  }

  // What the server sends a session, since its join and if there is always room.

  function Told(es: seq<Event>, c: Id): (r: seq<Message>)
    decreases |es|
  {
    if es == [] || H.Latest(es) == Join(c) then []
    else Told(H.Before(es), c) + H.Sent(H.Before(es), H.Latest(es), c)
  }

  /** Since its join the session has said hello or has had a name accepted. */
  predicate Greeted(es: seq<Event>, c: Id)
    decreases |es|
  {
    es != [] && H.Latest(es) != Join(c) && (
      (H.Latest(es).Deliver? && H.Latest(es).id == c
        && (H.Latest(es).msg.Hello? || (H.Latest(es).msg.Nickname? && H.Latest(es).nameFree)))
      || Greeted(H.Before(es), c))
  }

  predicate IsName(name: seq<byte>) {
    NulFree(name) && |name| <= 35
  }

  lemma {:induction false} NamesAreNames(es: seq<Event>, c: Id)
    requires H.Joins(es) <= MAX_CONNECTIONS
    ensures IsName(H.NameOf(es, c))
    decreases |es|
  {
    if es != [] {
      NamesAreNames(H.Before(es), c);
      if H.Latest(es) == Join(c) {
        DefaultIsName(H.Joins(es));
      }
    }
  }

  lemma DefaultIsName(n: nat)
    requires n <= MAX_CONNECTIONS
    ensures IsName(DefaultName(n))
  {
    H.DefaultNameFits(n);
    DigitsAreNulFree(n);
  }

  lemma {:induction false} DigitsAreNulFree(n: nat)
    ensures NulFree(Decimal(n))
    decreases n
  {
    if n >= 10 {
      DigitsAreNulFree(n / 10);
    }
  }

  lemma NameIsKept(name: seq<byte>)
    requires IsName(name)
    ensures Take(CString(NewNickname(name).nickname), 35) == name
  {
    TerminatedField(name);
  }

  lemma {:induction false} AnswerTells(m: Message, nameFree: bool, own: seq<byte>, held: bool, alone: bool,
                                       name: seq<byte>)
    requires IsName(own)
    ensures LastName(name, H.Answer(m, nameFree, own, held, alone)) ==
            if m.Hello? then own
            else if m.Nickname? && nameFree then Take(CString(m.nickname), 35)
            else name
  {
    var answer := H.Answer(m, nameFree, own, held, alone);
    NameIsKept(own);
    if m.Nickname? {
      NameIsKept(Take(CString(m.nickname), 35));
    }
    if answer != [] {
      LastNameOfOne(name, answer[0]);
    }
  }

  lemma {:induction false} TellsName(es: seq<Event>, e: Event, c: Id, name: seq<byte>)
    requires IsName(H.NameOf(es, c))
    ensures LastName(name, H.Sent(es, e, c)) ==
            if e.Deliver? && e.id == c && e.msg.Hello? then H.NameOf(es, c)
            else if e.Deliver? && e.id == c && e.msg.Nickname? && e.nameFree then Take(CString(e.msg.nickname), 35)
            else name
  {
    if e.Deliver? && e.id == c {
      var own, held, alone := H.NameOf(es, c), H.Held(es), |H.Members(es)| <= 1;
      LastNameOfConcat(name, H.Goodbye(es, e), H.Answer(e.msg, e.nameFree, own, held, alone));
      LastNameOfOne(name, Bye);
      AnswerTells(e.msg, e.nameFree, own, held, alone, name);
    } else if e.Deliver? {
      var copied := H.Copied(es, e, c);
      if copied != [] {
        LastNameOfOne(name, copied[0]);
      }
    }
  }

  /**
   * Both ends agree on the name: after every run of the server, the last name it has sent a session that has said hello
   * is the name under which it relays that session's chats and requests.
   */
  lemma {:induction false} NameIsTold(es: seq<Event>, c: Id, name: seq<byte>)
    requires H.Joins(es) <= MAX_CONNECTIONS && Greeted(es, c)
    ensures LastName(name, Told(es, c)) == H.NameOf(es, c)
    decreases |es|
  {
    var before, e := H.Before(es), H.Latest(es);
    NamesAreNames(before, c);
    LastNameOfConcat(name, Told(before, c), H.Sent(before, e, c));
    TellsName(before, e, c, LastName(name, Told(before, c)));
    if Greeted(before, c) {
      NameIsTold(before, c, name);
    }
  }
}
