/** The server with its session objects; every method refines a function of `ServerModel`. */
module ChatServer {
  import opened Bytes
  import opened Messages
  import opened MessageObjects
  import opened Framing
  import SB = SessionBase
  import M = ServerModel

  type Id = M.Id

  /** The next session of an iteration over the map: the one with the lowest address. */
  function Least(ids: set<Id>): (r: Id)
    requires ids != {}
    ensures r in ids && forall i :: i in ids ==> r <= i
  {
    LeastExists(ids);
    var r :| r in ids && forall i :: i in ids ==> r <= i;
    r
  }

  lemma LeastExists(ids: set<Id>)
    requires ids != {}
    ensures exists r :: r in ids && forall i :: i in ids ==> r <= i
    decreases |ids|
  {
    var x :| x in ids;
    if ids == {x} {
    } else {
      LeastExists(ids - {x});
      var r :| r in ids - {x} && forall i :: i in ids - {x} ==> r <= i;
      LeastOfTwo(ids, x, r);
    }
  }

  lemma LeastOfTwo(ids: set<Id>, x: Id, r: Id)
    requires x in ids && r in ids && forall i :: i in ids - {x} ==> r <= i
    ensures exists m :: m in ids && forall i :: i in ids ==> m <= i
  {
    var m := if x < r then x else r;
    assert forall i :: i in ids ==> i == x || i in ids - {x};
    assert m in ids && forall i :: i in ids ==> m <= i;
  }

  class SessionData {
    ghost const address: Id
    const client: SessionClient
    var state: M.ClientState
    var isFileTransferSender: bool

    constructor (client: SessionClient)
      ensures this.client == client && address == client.base.address && state == M.START && !isFileTransferSender
    {
      address := client.base.address;
      this.client := client;
      state := M.START;
      isFileTransferSender := false;
    }

    ghost function Peer(): (r: M.Peer)
      reads this, client, client.base
    {
      M.Peer(state, isFileTransferSender, client.fileTransferStatus, client.nickName, client.base.sendingQueue,
        client.base.disconnectionFlag)
    }
  }

  /** A connection to a client within the server. The ghost parameters say under which address `server` knows it. */
  class SessionClient {
    ghost const address: Id
    const base: SB.SessionBase
    var fileTransferStatus: int32
    var nickName: seq<byte>

    constructor (ghost address: Id)
      ensures this.address == address == base.address
      ensures fresh(base) && fresh(base.buffer) && base.Valid() && base.receivingQueue == []
      ensures base.CurrentInput() == EMPTY
      ensures base.sendingQueue == [] && !base.disconnectionFlag
      ensures fileTransferStatus == FILE_TRANSFER_CANCELED && nickName == []
    {
      this.address := address;
      base := new SB.SessionBase(address);
      fileTransferStatus := FILE_TRANSFER_CANCELED;
      nickName := [];
    }

    ghost predicate KnownTo(server: Server, me: Id)
      reads server, server.datas, server.clients, server.links
    {
      server.Valid() && me in server.sessions && server.sessions[me].client == this
    }

    method SendMessage(m: Message, ghost server: Server, ghost me: Id)
      requires KnownTo(server, me) && m.WellFormed()
      modifies base`sendingQueue, server`model
      ensures server.Valid() && server.model == M.SendTo(old(server.model), me, m)
    {
      var _ := base.SendMessage(m);
      server.Record(me);
    }

    method SetNickName(name: seq<byte>, ghost server: Server, ghost me: Id)
      requires KnownTo(server, me)
      modifies this`nickName, server`model
      ensures server.Valid()
      ensures server.model ==
              M.Update(old(server.model), me, old(server.model).sessions[me].(nickName := M.Truncated(name)))
    {
      nickName := Take(name, MAX_NICKNAME_SIZE - 1);
      server.Record(me);
    }

    method SetFileTransferStatus(code: int32, ghost server: Server, ghost me: Id)
      requires KnownTo(server, me)
      modifies this`fileTransferStatus, server`model
      ensures server.Valid()
      ensures server.model ==
              M.Update(old(server.model), me, old(server.model).sessions[me].(fileTransferStatus := code))
    {
      fileTransferStatus := code;
      server.Record(me);
    }

    method Disconnect(ghost server: Server, ghost me: Id)
      requires KnownTo(server, me)
      modifies base`sendingQueue, base`disconnectionFlag, server`model
      ensures server.Valid()
      ensures server.model == M.Update(old(server.model), me, M.Disconnected(old(server.model).sessions[me]))
    {
      if base.IsConnected() {
        var _ := base.SendMessage(Bye);
        base.Disconnect();
      }
      server.Record(me);
    }

    // ---------- the handler of the received messages ----------

    method HandleNickname(m: Message, server: Server, me: Id, nameFree: bool)
      requires KnownTo(server, me) && m.Nickname?
      modifies server`model, server.clients`fileTransferStatus, server.clients`nickName
      modifies server.links`sendingQueue
      ensures server.Valid()
      ensures var s, name := old(server.model), M.Truncated(CString(m.nickname));
              server.model == if nameFree
                then M.SendTo(M.Update(s, me, s.sessions[me].(nickName := name)), me, NewNickname(name))
                              else M.SendTo(s, me, Status(NICKNAME_ALREADY_REGISTERED))
    {
      if !nameFree {
        SendMessage(Status(NICKNAME_ALREADY_REGISTERED), server, me);
      } else {
        SetNickName(CString(m.nickname), server, me);
        SendNickName(server, me);
      }
    }

    /** The client is told the name it has. */
    method SendNickName(server: Server, me: Id)
      requires KnownTo(server, me)
      modifies server`model, base`sendingQueue
      ensures server.Valid()
      ensures server.model == M.SendTo(old(server.model), me, NewNickname(old(server.model).sessions[me].nickName))
    {
      var message := new NicknameMessage(nickName);
      SendMessage(message.Value(), server, me);
    }

    method HandleResponse(code: int32, server: Server, me: Id)
      requires KnownTo(server, me)
      modifies server`model, server.clients`fileTransferStatus, server.clients`nickName
      modifies server.links`sendingQueue
      ensures server.Valid()
      ensures var s := old(server.model);
              server.model == if code != ACCEPT_FILE_TRANSFER && code != REJECT_FILE_TRANSFER then s
                              else if !s.active then M.SendTo(s, me, Status(FILE_TRANSFER_CANCELED))
                              else M.Decide(M.Update(s, me, s.sessions[me].(fileTransferStatus := code)), me)
    {
      if code == ACCEPT_FILE_TRANSFER || code == REJECT_FILE_TRANSFER {
        if !server.fileTransferModeActive {
          SendMessage(Status(FILE_TRANSFER_CANCELED), server, me);
          return;
        }
        SetFileTransferStatus(code, server, me);
        var _ := server.ClientSentFileTransferResponse(me, code == ACCEPT_FILE_TRANSFER);
      }
    }

    method HandleChat(m: Message, server: Server, me: Id)
      requires KnownTo(server, me) && m.Chat?
      modifies server`model, server.clients`fileTransferStatus, server.clients`nickName
      modifies server.links`sendingQueue
      ensures server.Valid()
      ensures var s := old(server.model);
              server.model == if M.Alone(s) then M.SendTo(s, me, Status(CHATTING_ALONE))
                  else M.Broadcast(s, me, M.ChatCopy(s.sessions[me], m))
    {
      var ok := server.ClientSentChatMessage(me, m);
      if !ok {
        SendMessage(Status(CHATTING_ALONE), server, me);
      }
    }

    method HandleRequest(m: Message, server: Server, me: Id)
      requires KnownTo(server, me) && m.FileRequest?
      modifies server`model, server`fileTransferModeActive, server.datas`state, server.datas`isFileTransferSender
      modifies server.clients`fileTransferStatus, server.clients`nickName
      modifies server.links`sendingQueue
      ensures server.Valid()
      ensures var s := old(server.model);
              if s.active then server.model == M.SendTo(s, me, Status(FILE_TRANSFER_CANCELED))
              else if M.Alone(s) then server.model == M.SendTo(s, me, Status(CHATTING_ALONE))
              else var t := M.RelayRequest(s, me, m);
                   server.model == M.Update(t, me, t.sessions[me].(fileTransferStatus := ACCEPT_FILE_TRANSFER))
    {
      if server.fileTransferModeActive {
        SendMessage(Status(FILE_TRANSFER_CANCELED), server, me);
        return;
      }
      var ok := server.ClientSentFileTransferRequest(me, m);
      if !ok {
        SendMessage(Status(CHATTING_ALONE), server, me);
        return;
      }
      SetFileTransferStatus(ACCEPT_FILE_TRANSFER, server, me);
    }

    method HandleFileData(m: Message, server: Server, me: Id)
      requires KnownTo(server, me) && m.FileData? && m.WellFormed()
      modifies server`model, server`fileTransferModeActive, server.datas`state, server.datas`isFileTransferSender
      modifies server.clients`fileTransferStatus, server.clients`nickName
      modifies server.links`sendingQueue
      ensures server.Valid()
      ensures var t := M.RelayData(old(server.model), me, m);
              server.model == if m.isLast
                then M.Update(t, me, t.sessions[me].(fileTransferStatus := FILE_TRANSFER_CANCELED)) else t
    {
      server.ClientSentFileData(me, m);
      if m.isLast {
        SetFileTransferStatus(FILE_TRANSFER_CANCELED, server, me);
      }
    }

    /** One message; `nameFree` is the verdict of the server's nickname check. */
    method Handle(m: Message, server: Server, me: Id, nameFree: bool)
      requires KnownTo(server, me) && (m.FileData? ==> m.WellFormed())
      modifies server`model, server`fileTransferModeActive, server.datas`state, server.datas`isFileTransferSender
      modifies server.clients`fileTransferStatus, server.clients`nickName
      modifies server.links`sendingQueue, server.links`disconnectionFlag
      ensures server.Valid() && server.model == M.Handle(old(server.model), me, m, nameFree)
    {
      server.CheckSessionStateChange(me, m.Kind());
      assert KnownTo(server, me);
      Dispatch(m, server, me, nameFree);
    }

    method Dispatch(m: Message, server: Server, me: Id, nameFree: bool)
      requires KnownTo(server, me) && (m.FileData? ==> m.WellFormed())
      modifies server`model, server`fileTransferModeActive, server.datas`state, server.datas`isFileTransferSender
      modifies server.clients`fileTransferStatus, server.clients`nickName
      modifies server.links`sendingQueue, server.links`disconnectionFlag
      ensures server.Valid() && server.model == M.Dispatch(old(server.model), me, m, nameFree)
    {
      match m {
        case Hello => SendNickName(server, me);
        case Nickname(_) => HandleNickname(m, server, me, nameFree);
        case Status(code) => HandleResponse(code, server, me);
        case Chat(_, _) => HandleChat(m, server, me);
        case FileRequest(_, _) => HandleRequest(m, server, me);
        case FileData(_, _, _) => HandleFileData(m, server, me);
        case Bye =>
      }
    }

    /**
     * The loop over the received messages. The queue is a stack, but a read leaves at most one message in it, so the
     * messages are handled in the order they were parsed.
     */
    method AvailableMessages(server: Server, me: Id, nameFree: bool)
      requires KnownTo(server, me) && |base.receivingQueue| <= 1 && AllWell(base.receivingQueue)
      modifies server`model, server`fileTransferModeActive, server.datas`state, server.datas`isFileTransferSender
      modifies server.clients`fileTransferStatus, server.clients`nickName
      modifies base`receivingQueue
      modifies server.links`sendingQueue, server.links`disconnectionFlag
      ensures server.Valid() && base.receivingQueue == []
      ensures Drained(old(server.model), me, old(base.receivingQueue), nameFree, server.model)
    {
      ghost var waiting := base.receivingQueue;
      var message := base.ReceiveMessage();
      assert KnownTo(server, me);
      assert waiting == if message.Some? then [message.value] else [];
      assert message.Some? ==> waiting[0].WellFormed();
      while message.Some?
        invariant KnownTo(server, me) && base.receivingQueue == []
        invariant message.Some? ==> waiting == [message.value] && server.model == old(server.model)
        invariant message.None? ==> Drained(old(server.model), me, waiting, nameFree, server.model)
        decreases message.Some?
      {
        message := HandleNext(message.value, server, me, nameFree);
      }
    }

    /** The message that was waiting, if there was one, has been handled. */
    static ghost predicate Drained(before: M.Server, me: Id, waiting: seq<Message>, nameFree: bool, after: M.Server)
      requires me in before.sessions
    {
      after == if waiting == [] then before else M.Handle(before, me, waiting[0], nameFree)
    }

    /**
     * `readData` of a session in the server: the bytes `recv` returned lead to at most one step of the server, the
     * handling of the message they complete.
     */
    method ReadData(piece: seq<byte>, server: Server, me: Id, nameFree: bool) returns (hasError: bool)
      requires KnownTo(server, me) && server.Sound() && base.receivingQueue == []
      requires |piece| <= MAX_MESSAGE_SIZE - base.bufferOffset
      modifies server`model, server`fileTransferModeActive, server.datas`state, server.datas`isFileTransferSender
      modifies server.clients`fileTransferStatus, server.clients`nickName
      modifies base`receivingQueue, base`bufferOffset, base`delivered, base.buffer
      modifies server.links`sendingQueue, server.links`disconnectionFlag
      ensures KnownTo(server, me) && server.Sound() && base.receivingQueue == []
      ensures var next := Receive(old(base.CurrentInput()), piece);
              && hasError == next.failed && base.CurrentInput() == next.(failed := false)
              && old(base.delivered) <= next.delivered
              && Drained(old(server.model), me, next.delivered[|old(base.delivered)|..], nameFree, server.model)
    {
      ghost var next, before := Receive(base.CurrentInput(), piece), |base.delivered|;
      hasError := TakeIn(piece, server, me);
      assert KnownTo(server, me) && base.receivingQueue == next.delivered[before..];
      AvailableMessages(server, me, nameFree);
      assert KnownTo(server, me);
      assert base.CurrentInput() == next.(failed := false);
    }

    /** The part of `readData` that leaves the server alone. */
    method TakeIn(piece: seq<byte>, ghost server: Server, ghost me: Id) returns (hasError: bool)
      requires KnownTo(server, me) && server.Sound() && base.receivingQueue == []
      requires |piece| <= MAX_MESSAGE_SIZE - base.bufferOffset
      modifies base`receivingQueue, base`bufferOffset, base`delivered, base.buffer
      ensures KnownTo(server, me) && server.Sound()
      ensures var next := Receive(old(base.CurrentInput()), piece);
              && hasError == next.failed && base.CurrentInput() == next.(failed := false)
              && old(base.delivered) <= next.delivered
              && base.receivingQueue == next.delivered[|old(base.delivered)|..]
              && |base.receivingQueue| <= 1 && AllWell(base.receivingQueue)
    {
      ghost var i := base.CurrentInput();
      hasError := base.ReadData(piece);
      DeliversWell(i, piece);
      assert base.CurrentInput() == Receive(i, piece).(failed := false);
    }

    /** `writeData` of a session in the server: the step that takes the front message off the session's queue. */
    method WriteData(pad: Padding, ghost server: Server, ghost me: Id) returns (hasError: bool, bytes: seq<byte>)
      requires KnownTo(server, me) && server.Sound()
      modifies base`sendingQueue, base`written, server`model
      ensures KnownTo(server, me) && server.Sound() && !hasError
      ensures if old(server.model).sessions[me].queue == [] then bytes == [] && server.model == old(server.model)
              else
                && M.Enabled(old(server.model), M.Write(me))
                && server.model == M.Exec(old(server.model), M.Write(me))
                && bytes == Frame(old(server.model).sessions[me].queue[0], pad)
    {
      Server.Unchanged(server.model, me);
      hasError, bytes := base.WriteData(pad);
      server.Record(me);
    }

    static lemma DeliversWell(i: Input, piece: seq<byte>)
      requires CanReceive(i, piece)
      ensures var j := Receive(i, piece);
              i.delivered <= j.delivered && |j.delivered| <= |i.delivered| + 1 && AllWell(j.delivered[|i.delivered|..])
    {
    }

    /** There is nothing left to take. */
    method TakeNext(ghost server: Server, ghost me: Id) returns (next: Option<Message>)
      requires KnownTo(server, me) && base.receivingQueue == []
      modifies base`receivingQueue
      ensures KnownTo(server, me) && next.None? && base.receivingQueue == []
    {
      next := base.ReceiveMessage();
    }

    method HandleNext(m: Message, server: Server, me: Id, nameFree: bool) returns (next: Option<Message>)
      requires KnownTo(server, me) && (m.FileData? ==> m.WellFormed()) && base.receivingQueue == []
      modifies server`model, server`fileTransferModeActive, server.datas`state, server.datas`isFileTransferSender
      modifies server.clients`fileTransferStatus, server.clients`nickName
      modifies base`receivingQueue
      modifies server.links`sendingQueue, server.links`disconnectionFlag
      ensures next.None? && base.receivingQueue == []
      ensures KnownTo(server, me) && server.model == M.Handle(old(server.model), me, m, nameFree)
    {
      Handle(m, server, me, nameFree);
      assert KnownTo(server, me);
      next := TakeNext(server, me);
    }
  }

  class Server {
    var connectionsCounter: nat
    var fileTransferModeActive: bool
    var sessions: map<Id, SessionData>

    /** What all the objects together stand for. */
    ghost var model: M.Server

    // The objects of all sessions.
    ghost var datas: set<SessionData>
    ghost var clients: set<SessionClient>
    ghost var links: set<SB.SessionBase>

    /** An address leads to the objects that carry it, so distinct sessions share nothing. */
    ghost predicate Separate()
      reads this
    {
      forall i :: i in sessions ==>
        && sessions[i].address == i && sessions[i].client.address == i && sessions[i].client.base.address == i
        && sessions[i] in datas && sessions[i].client in clients && sessions[i].client.base in links
    }

    ghost predicate Valid()
      reads this, datas, clients, links
    {
      Agrees() && forall i :: i in sessions ==> sessions[i].Peer() == model.sessions[i]
    }

    /** The bases of all sessions are valid, which only joining and leaving could change. */
    ghost predicate Sound()
      reads `sessions
    {
      forall i :: i in sessions ==> sessions[i].client.base.Valid()
    }

    ghost predicate Agrees()
      reads this
    {
      && Separate()
      && model.counter == connectionsCounter && model.active == fileTransferModeActive
      && model.sessions.Keys == sessions.Keys
    }

    /** Valid, but for a change of session `c` that the model does not show yet. */
    ghost predicate ValidBut(c: Id)
      reads this, datas, clients, links
    {
      Agrees() && forall i :: i in sessions && i != c ==> sessions[i].Peer() == model.sessions[i]
    }

    ghost method Record(c: Id)
      requires ValidBut(c) && c in sessions
      modifies this`model
      ensures Valid() && model == M.Update(old(model), c, sessions[c].Peer())
    {
      model := M.Update(model, c, sessions[c].Peer());
    }

    constructor ()
      ensures Valid() && Sound() && model == M.INITIAL_SERVER
    {
      connectionsCounter := 0;
      fileTransferModeActive := false;
      sessions := map[];
      model := M.INITIAL_SERVER;
      datas, clients, links := {}, {}, {};
    }

    method AddSession(address: Id)
      requires Valid() && address !in sessions && connectionsCounter < M.MAX_CONNECTIONS
      modifies this
      ensures Valid() && (old(Sound()) ==> Sound()) && model == M.Added(old(model), address)
      ensures address in sessions && fresh(sessions[address]) && fresh(sessions[address].client)
              && fresh(sessions[address].client.base) && IsNew(sessions[address].client.base)
    {
      CountConnection();
      var newSession := NewSession(address, connectionsCounter);
      Register(address, newSession);
    }

    method CountConnection()
      requires Valid()
      modifies this`connectionsCounter, this`model
      ensures Valid() && connectionsCounter == old(connectionsCounter) + 1
      ensures model == old(model).(counter := connectionsCounter)
    {
      connectionsCounter := connectionsCounter + 1;
      model := model.(counter := connectionsCounter);
    }

    /** Nothing has been received yet. */
    static ghost predicate IsNew(b: SB.SessionBase)
      reads b, b.buffer
    {
      b.Valid() && b.receivingQueue == [] && b.CurrentInput() == EMPTY
    }

    /** A session object under the default name of its number. */
    static method NewSession(ghost address: Id, number: nat) returns (d: SessionData)
      ensures fresh(d) && fresh(d.client) && fresh(d.client.base) && IsNew(d.client.base)
      ensures d.address == d.client.address == d.client.base.address == address && d.Peer() == M.NewPeer(number)
    {
      var client := new SessionClient(address);
      client.nickName := Take(M.DefaultName(number), MAX_NICKNAME_SIZE - 1);
      d := new SessionData(client);
    }

    method Register(address: Id, d: SessionData)
      requires Valid() && address !in sessions
      requires d.address == d.client.address == d.client.base.address == address
      modifies this`sessions, this`model, this`datas, this`clients, this`links
      ensures Valid() && sessions == old(sessions)[address := d]
      ensures model == M.Update(old(model), address, d.Peer())
    {
      sessions := sessions[address := d];
      model := M.Update(model, address, d.Peer());
      datas, clients, links := datas + {d}, clients + {d.client}, links + {d.client.base};
    }

    method Erase(client: Id)
      requires Valid() && client in sessions
      modifies this`sessions, this`model
      ensures Valid() && model == old(model).(sessions := old(model).sessions - {client})
      ensures sessions == old(sessions) - {client}
    {
      ghost var left, all := model.sessions - {client}, sessions;
      sessions := sessions - {client};
      assert sessions.Keys == left.Keys;
      model := model.(sessions := left);
      forall i | i in sessions ensures sessions[i].Peer() == left[i] {
        assert i in all && sessions[i] == all[i];
      }
    }

    /** The session is forgotten; a sender takes its transfer with it, and is itself told so once for every peer. */
    method RemoveSession(client: Id)
      requires Valid() && client in sessions
      modifies this, sessions[client].client.base
      ensures Valid() && (old(Sound()) ==> Sound()) && model == M.Removed(old(model), client)
      ensures old(sessions[client]).client.base.sendingQueue ==
              if old(fileTransferModeActive && sessions[client].isFileTransferSender)
              then Canceled(old(sessions[client].client.base.sendingQueue), old(sessions.Keys), client)
              else old(sessions[client].client.base.sendingQueue)
    {
      if fileTransferModeActive && sessions[client].isFileTransferSender {
        SetFileTransferModeActive(false);
        CancelTransfer(client);
      }
      assert model.sessions - {client} == old(model).sessions - {client};
      Erase(client);
    }

    method SetFileTransferModeActive(active: bool)
      requires Valid()
      modifies this`fileTransferModeActive, this`model
      ensures Valid() && model == old(model).(active := active)
    {
      fileTransferModeActive := active;
      model := model.(active := active);
    }

    /** The departing client is the one told, once for every peer, that its transfer was canceled. */
    method CancelTransfer(client: Id)
      requires Valid() && client in sessions
      modifies this`model, sessions[client].client.base`sendingQueue
      ensures Valid() && model.counter == old(model).counter && model.active == old(model).active
      ensures model.sessions - {client} == old(model).sessions - {client}
      ensures sessions[client].client.base.sendingQueue ==
              Canceled(old(sessions[client].client.base.sendingQueue), sessions.Keys, client)
    {
      assert sessions[client].Peer() == model.sessions[client];
      ghost var s, q := model, model.sessions[client].queue;
      ghost var last := Canceled(q, sessions.Keys, client);
      RequeuedTwice(s, client, q, q);
      var todo := sessions.Keys;
      while todo != {}
        invariant Valid() && todo <= sessions.Keys && model == Requeued(s, client, q)
        invariant last == Canceled(q, todo, client)
      {
        var peer := Least(todo);
        NextCancel(q, todo, client);
        todo := todo - {peer};
        if peer != client {
          q := CancelOnce(client, s, q);
        }
      }
      ShowsRequeued(s, client, q);
    }

    lemma ShowsRequeued(s: M.Server, client: Id, q: seq<Message>)
      requires Valid() && client in sessions && client in s.sessions && model == Requeued(s, client, q)
      ensures model.counter == s.counter && model.active == s.active
      ensures model.sessions - {client} == s.sessions - {client}
      ensures sessions[client].client.base.sendingQueue == q
    {
      assert sessions[client].Peer() == model.sessions[client];
    }

    method CancelOnce(client: Id, ghost s: M.Server, ghost q: seq<Message>) returns (ghost r: seq<Message>)
      requires Valid() && client in sessions && client in s.sessions && model == Requeued(s, client, q)
      modifies this`model, sessions[client].client.base`sendingQueue
      ensures Valid() && r == M.Enqueue(q, Status(FILE_TRANSFER_CANCELED)) && model == Requeued(s, client, r)
    {
      sessions[client].client.SendMessage(Status(FILE_TRANSFER_CANCELED), this, client);
      r := M.Enqueue(q, Status(FILE_TRANSFER_CANCELED));
      RequeuedTwice(s, client, q, r);
    }

    static ghost function Requeued(s: M.Server, client: Id, q: seq<Message>): (r: M.Server)
      requires client in s.sessions
    {
      M.Update(s, client, s.sessions[client].(queue := q))
    }

    static lemma RequeuedTwice(s: M.Server, client: Id, q: seq<Message>, r: seq<Message>)
      requires client in s.sessions
      ensures Requeued(s, client, s.sessions[client].queue) == s
      ensures Requeued(Requeued(s, client, q), client, r) == Requeued(s, client, r)
    {
      Unchanged(s, client);
      UpdatedTwice(s, client, s.sessions[client].(queue := q), s.sessions[client].(queue := r));
    }

    /** The queue after one attempt for each of the sessions but the client. */
    static ghost function Canceled(q: seq<Message>, todo: set<Id>, client: Id): (r: seq<Message>)
      decreases todo
    {
      if todo == {} then q
      else
        var peer := Least(todo);
        Canceled(if peer == client then q else M.Enqueue(q, Status(FILE_TRANSFER_CANCELED)), todo - {peer}, client)
    }

    static lemma NextCancel(q: seq<Message>, todo: set<Id>, client: Id)
      requires todo != {}
      ensures var peer := Least(todo);
              Canceled(q, todo, client) ==
              Canceled(if peer == client then q
                else M.Enqueue(q, Status(FILE_TRANSFER_CANCELED)), todo - {peer}, client)
    {
    }

    static function Room(q: seq<Message>): (r: nat) {
      if M.CanSend(q) then MAX_NETWORK_MESSAGE_QUEUE + 1 - |q| else 0
    }

    /** So the queue gets one cancel status for each of the others, as far as it has room. */
    static lemma {:induction false} CountCancels(q: seq<Message>, todo: set<Id>, client: Id)
      ensures var others := if client in todo then |todo| - 1 else |todo|;
              Canceled(q, todo, client) ==
              q + seq(if others <= Room(q) then others else Room(q), _ => Status(FILE_TRANSFER_CANCELED))
      decreases |todo|
    {
      if todo != {} {
        var peer := Least(todo);
        CountCancels(if peer == client then q else M.Enqueue(q, Status(FILE_TRANSFER_CANCELED)), todo - {peer}, client);
      }
    }

    static lemma Unchanged(s: M.Server, c: Id)
      requires c in s.sessions
      ensures M.Update(s, c, s.sessions[c]) == s
    {
      assert s.sessions[c := s.sessions[c]] == s.sessions;
    }

    static lemma UpdatedTwice(s: M.Server, c: Id, p: M.Peer, q: M.Peer)
      ensures M.Update(M.Update(s, c, p), c, q) == M.Update(s, c, q)
      ensures M.Update(s, c, p).sessions[c] == p
    {
    }

    // ---------- the session automaton ----------

    /** The states in which a message that changes the state may come, and the state it leads to. */
    static method Transition(messageType: Kind) returns (expectedStates: seq<M.ClientState>, nextState: M.ClientState)
      ensures M.ChangesState(messageType) ==>
                nextState == M.Next(messageType) && forall x :: x in expectedStates <==> x in M.Expected(messageType)
    {
      match messageType {
        case HELLO =>
          expectedStates, nextState := [M.START], M.IDENTIFY;
        case NICKNAME =>
          expectedStates, nextState := [M.IDENTIFY, M.READY], M.READY;
        case _ =>
          expectedStates, nextState := [M.START, M.IDENTIFY, M.READY], M.INVALID;
      }
    }

    method SetState(client: Id, nextState: M.ClientState)
      requires Valid() && client in sessions
      modifies this`model, datas`state
      ensures Valid() && model == M.Update(old(model), client, old(model).sessions[client].(state := nextState))
    {
      sessions[client].state := nextState;
      Record(client);
    }

    method CheckSessionStateChange(client: Id, messageType: Kind)
      requires Valid() && client in sessions
      modifies this`model, datas`state, links`sendingQueue, links`disconnectionFlag
      ensures Valid() && model == M.StateChecked(old(model), client, messageType)
    {
      Unchanged(model, client);
      if messageType != HELLO && messageType != NICKNAME && messageType != BYE {
        return;
      }
      var expectedStates, nextState := Transition(messageType);
      if sessions[client].state !in expectedStates {
        sessions[client].client.Disconnect(this, client);
        return;
      }
      if sessions[client].state == nextState {
        return;
      }
      SetState(client, nextState);
    }

    // ---------- the relays ----------

    /** The broadcast with the sessions in `todo` still to come. */
    static ghost function Partly(s: M.Server, c: Id, m: Message, todo: set<Id>): (r: M.Server) {
      s.(sessions := map i | i in s.sessions ::
           if i !in todo && i != c && M.Wants(s.sessions[i], m) then M.Send(s.sessions[i], m) else s.sessions[i])
    }

    static lemma PartlyStep(s: M.Server, c: Id, m: Message, todo: set<Id>, p: Id)
      requires p in todo && p in s.sessions
      ensures Partly(s, c, m, todo).sessions[p] == s.sessions[p]
      ensures Partly(s, c, m, todo - {p}) ==
              if p != c && M.Wants(s.sessions[p], m) then M.SendTo(Partly(s, c, m, todo), p, m)
                else Partly(s, c, m, todo)
    {
      var before, after := Partly(s, c, m, todo), Partly(s, c, m, todo - {p});
      if p != c && M.Wants(s.sessions[p], m) {
        assert after.sessions == M.SendTo(before, p, m).sessions;
      } else {
        assert after.sessions == before.sessions;
      }
    }

    static lemma PartlyEnds(s: M.Server, c: Id, m: Message)
      ensures Partly(s, c, m, s.sessions.Keys) == s && Partly(s, c, m, {}) == M.Broadcast(s, c, m)
    {
      assert Partly(s, c, m, s.sessions.Keys).sessions == s.sessions;
    }

    method ClientSentChatMessage(client: Id, message: Message) returns (ok: bool)
      requires Valid() && client in sessions && message.Chat?
      modifies this`model, links`sendingQueue
      ensures Valid() && ok == !M.Alone(old(model))
      ensures model == if ok then M.Broadcast(old(model), client, M.ChatCopy(old(model).sessions[client], message))
              else old(model)
    {
      assert |sessions| == |model.sessions|;
      if |sessions| == 1 {
        return false;
      }
      var chatMessage, sender := CString(message.text), sessions[client].client.nickName;
      ghost var s, m := model, M.ChatCopy(model.sessions[client], message);
      PartlyEnds(s, client, m);
      var todo := sessions.Keys;
      while todo != {}
        invariant todo <= sessions.Keys && Valid() && model == Partly(s, client, m, todo)
      {
        var peer := Least(todo);
        PartlyStep(s, client, m, todo, peer);
        todo := todo - {peer};
        if peer != client {
          SendChat(peer, chatMessage, sender);
        }
      }
      return true;
    }

    method SendChat(peer: Id, text: seq<byte>, sender: seq<byte>)
      requires Valid() && peer in sessions && NulFree(text)
      modifies this`model, sessions[peer].client.base`sendingQueue
      ensures Valid() && model == M.SendTo(old(model), peer, NewChat(sender, text))
    {
      var newMessage := MakeChat(text, sender);
      sessions[peer].client.SendMessage(newMessage, this, peer);
    }

    static method MakeChat(text: seq<byte>, sender: seq<byte>) returns (m: Message)
      requires NulFree(text)
      ensures m == NewChat(sender, text)
    {
      var newMessage := new ChatMessage.Text(text);
      newMessage.SetSender(sender);
      m := newMessage.Value();
    }

    method ClientSentFileData(client: Id, message: Message)
      requires Valid() && client in sessions && message.FileData? && message.WellFormed()
      modifies this`model, this`fileTransferModeActive, datas`isFileTransferSender, links`sendingQueue
      ensures Valid() && model == M.RelayData(old(model), client, message)
    {
      assert |sessions| == |model.sessions|;
      if |sessions| == 1 {
        return;
      }
      ForwardFileData(client, message);
    }

    method ForwardFileData(client: Id, message: Message)
      requires Valid() && client in sessions && message.FileData? && message.WellFormed() && !M.Alone(model)
      modifies this`model, this`fileTransferModeActive, datas`isFileTransferSender, links`sendingQueue
      ensures Valid() && model == M.RelayData(old(model), client, message)
    {
      ghost var s := model;
      BroadcastFileData(client, message);
      DataIsRelayed(s, client, message);
      if message.isLast {
        EndTransfer(client);
      }
    }

    static lemma DataIsRelayed(s: M.Server, c: Id, m: Message)
      requires c in s.sessions && m.FileData? && !M.Alone(s)
      ensures var t := M.Broadcast(s, c, m);
              && c in t.sessions
              && M.RelayData(s, c, m) == if m.isLast
                then M.Update(t, c, t.sessions[c].(isFileTransferSender := false)).(active := false) else t
    {
    }

    method EndTransfer(client: Id)
      requires Valid() && client in sessions
      modifies this`model, this`fileTransferModeActive, datas`isFileTransferSender
      ensures Valid()
      ensures model == M.Update(old(model), client,
              old(model).sessions[client].(isFileTransferSender := false)).(active := false)
    {
      SetFileTransferSender(client, false);
      SetFileTransferModeActive(false);
    }

    method SetFileTransferSender(client: Id, isSender: bool)
      requires Valid() && client in sessions
      modifies this`model, datas`isFileTransferSender
      ensures Valid()
      ensures model == M.Update(old(model), client, old(model).sessions[client].(isFileTransferSender := isSender))
    {
      sessions[client].isFileTransferSender := isSender;
      Record(client);
    }

    method BroadcastFileData(client: Id, message: Message)
      requires Valid() && client in sessions && message.FileData? && message.WellFormed()
      modifies this`model, links`sendingQueue
      ensures Valid() && model == M.Broadcast(old(model), client, message)
    {
      ghost var s := model;
      PartlyEnds(s, client, message);
      var todo := sessions.Keys;
      while todo != {}
        invariant todo <= sessions.Keys && Valid() && model == Partly(s, client, message, todo)
      {
        var peer := Least(todo);
        PartlyStep(s, client, message, todo, peer);
        todo := todo - {peer};
        if peer != client && sessions[peer].client.fileTransferStatus == ACCEPT_FILE_TRANSFER {
          SendFileData(peer, message);
        }
      }
    }

    /** A new message with the buffer, the offset and the mark of the received one. */
    static method CopyFileData(message: Message) returns (m: Message)
      requires message.FileData? && message.WellFormed()
      ensures m == message
    {
      var dataMessage := new FileDataMessage();
      dataMessage.SetBuffer(message.data);
      dataMessage.SetFileOffset(message.offset);
      if message.isLast {
        dataMessage.MarkLastBlock();
      }
      m := dataMessage.Value();
    }

    method SendFileData(peer: Id, message: Message)
      requires Valid() && peer in sessions && message.FileData? && message.WellFormed()
      modifies this`model, sessions[peer].client.base`sendingQueue
      ensures Valid() && model == M.SendTo(old(model), peer, message)
    {
      var dataMessage := CopyFileData(message);
      sessions[peer].client.SendMessage(dataMessage, this, peer);
    }

    // ---------- arbitration of file transfers ----------

    method ClientSentFileTransferRequest(client: Id, message: Message) returns (ok: bool)
      requires Valid() && client in sessions && message.FileRequest?
      modifies this`model, this`fileTransferModeActive, datas`isFileTransferSender, links`sendingQueue
      ensures Valid() && ok == !M.Alone(old(model))
      ensures model == if ok then M.RelayRequest(old(model), client, message) else old(model)
    {
      assert |sessions| == |model.sessions|;
      if |sessions| == 1 {
        return false;
      }
      StartRequest(client, message);
      return true;
    }

    method StartRequest(client: Id, message: Message)
      requires Valid() && client in sessions && message.FileRequest?
      modifies this`model, this`fileTransferModeActive, datas`isFileTransferSender, links`sendingQueue
      ensures Valid() && model == M.RelayRequest(old(model), client, message)
    {
      ghost var s := model;
      TakeLock(client, message);
      RequestIsRelayed(s, client, message);
      SetFileTransferSender(client, true);
      assert model == M.RelayRequest(s, client, message);
    }

    method TakeLock(client: Id, message: Message)
      requires Valid() && client in sessions && message.FileRequest?
      modifies this`model, this`fileTransferModeActive, links`sendingQueue
      ensures Valid()
      ensures model == M.Broadcast(old(model).(active := true), client,
                                   M.RequestCopy(old(model).sessions[client], message))
    {
      SetFileTransferModeActive(true);
      RequestFromOthers(client, message);
    }

    static lemma RequestIsRelayed(s: M.Server, c: Id, m: Message)
      requires c in s.sessions && m.FileRequest?
      ensures var t := M.Broadcast(s.(active := true), c, M.RequestCopy(s.sessions[c], m));
              c in t.sessions && M.RelayRequest(s, c, m) == M.Update(t, c, t.sessions[c].(isFileTransferSender := true))
    {
    }

    method RequestFromOthers(client: Id, message: Message)
      requires Valid() && client in sessions && message.FileRequest?
      modifies this`model, links`sendingQueue
      ensures Valid() && model == M.Broadcast(old(model), client, M.RequestCopy(old(model).sessions[client], message))
    {
      var fileName, sender := BaseName(CString(message.fileName)), sessions[client].client.nickName;
      BroadcastRequest(client, fileName, sender);
    }

    method BroadcastRequest(client: Id, fileName: seq<byte>, sender: seq<byte>)
      requires Valid() && client in sessions
      modifies this`model, links`sendingQueue
      ensures Valid() && model == M.Broadcast(old(model), client, NewFileRequest(sender, fileName))
    {
      ghost var s, m := model, NewFileRequest(sender, fileName);
      PartlyEnds(s, client, m);
      var todo := sessions.Keys;
      while todo != {}
        invariant todo <= sessions.Keys && Valid() && model == Partly(s, client, m, todo)
      {
        var peer := Least(todo);
        PartlyStep(s, client, m, todo, peer);
        todo := todo - {peer};
        if peer != client {
          SendRequest(peer, fileName, sender);
        }
      }
    }

    method SendRequest(peer: Id, fileName: seq<byte>, sender: seq<byte>)
      requires Valid() && peer in sessions
      modifies this`model, sessions[peer].client.base`sendingQueue
      ensures Valid() && model == M.SendTo(old(model), peer, NewFileRequest(sender, fileName))
    {
      var transferMessage := MakeRequest(fileName, sender);
      sessions[peer].client.SendMessage(transferMessage, this, peer);
    }

    static method MakeRequest(fileName: seq<byte>, sender: seq<byte>) returns (m: Message)
      ensures m == NewFileRequest(sender, fileName)
    {
      var transferMessage := new FileTransferMessage(fileName);
      transferMessage.SetSender(sender);
      m := transferMessage.Value();
    }

    /**
     * The loop over the sessions that stops at the first one in Canceled status: it finds out whether everybody else
     * has answered, and then whether somebody else accepts and which sender is the last one.
     */
    method Survey(client: Id) returns (allClientsConfirmed: bool, canStart: bool, sender: Option<Id>)
      requires Valid() && client in sessions
      ensures Surveyed(model, client, allClientsConfirmed, canStart, sender)
    {
      allClientsConfirmed, canStart, sender := true, false, None;
      var todo := sessions.Keys;
      while todo != {}
        invariant todo <= sessions.Keys && allClientsConfirmed
        invariant forall i, j :: i in sessions && i !in todo && j in todo ==> i < j
        invariant forall i ::
                    i in sessions && i !in todo && i != client ==>
                      model.sessions[i].fileTransferStatus != FILE_TRANSFER_CANCELED
        invariant canStart <==> exists i ::
                    i in sessions && i !in todo && i != client
                      && model.sessions[i].fileTransferStatus == ACCEPT_FILE_TRANSFER
        invariant sender.None? ==> M.OtherSenders(model, client) - todo == {}
        invariant sender.Some? ==> IsLargest(sender.value, M.OtherSenders(model, client) - todo)
      {
        var peer := Least(todo);
        assert forall j :: j in todo && j != peer ==> peer < j;
        ghost var before := M.OtherSenders(model, client) - todo;
        assert forall i :: i in before ==> i < peer;
        todo := todo - {peer};
        assert M.OtherSenders(model, client) - todo == if peer in M.OtherSenders(model, client) then before + {peer}
          else before;
        if peer == client {
          continue;
        }
        var status := sessions[peer].client.fileTransferStatus;
        assert status == model.sessions[peer].fileTransferStatus;
        if status == FILE_TRANSFER_CANCELED {
          allClientsConfirmed := false;
          break;
        }
        if status == ACCEPT_FILE_TRANSFER {
          canStart := true;
        }
        if sessions[peer].isFileTransferSender {
          sender := Some(peer);
        }
      }
      if allClientsConfirmed && sender.Some? {
        assert M.OtherSenders(model, client) - {} == M.OtherSenders(model, client);
      }
    }

    static ghost predicate IsLargest(r: Id, ids: set<Id>) {
      r in ids && forall i :: i in ids ==> i <= r
    }

    method ClientSentFileTransferResponse(client: Id, accept: bool) returns (ok: bool)
      requires Valid() && client in sessions
      modifies this`model, links`sendingQueue
      ensures Valid() && ok == !M.Alone(old(model)) && model == M.Decide(old(model), client)
    {
      assert |sessions| == |model.sessions|;
      if |sessions| == 1 {
        return false;
      }
      var allClientsConfirmed, canStart, sender := Survey(client);
      DecisionIs(model, client, allClientsConfirmed, canStart, sender);
      if allClientsConfirmed && sender.Some? {
        SendVerdict(sender.value, canStart);
      }
      return true;
    }

    static ghost predicate Surveyed(s: M.Server, client: Id, allClientsConfirmed: bool, canStart: bool,
                                    sender: Option<Id>) {
      && allClientsConfirmed == !M.SomeOther(s, client, FILE_TRANSFER_CANCELED)
      && (allClientsConfirmed ==>
            && canStart == M.SomeOther(s, client, ACCEPT_FILE_TRANSFER)
            && sender == if M.OtherSenders(s, client) == {} then None else Some(M.Largest(M.OtherSenders(s, client))))
    }

    static lemma DecisionIs(s: M.Server, client: Id, allClientsConfirmed: bool, canStart: bool, sender: Option<Id>)
      requires Surveyed(s, client, allClientsConfirmed, canStart, sender) && !M.Alone(s)
      ensures allClientsConfirmed && sender.Some? ==> sender.value in s.sessions
      ensures M.Decide(s, client) ==
              if allClientsConfirmed && sender.Some?
              then M.SendTo(s, sender.value, Status(if canStart then ACCEPT_FILE_TRANSFER else REJECT_FILE_TRANSFER))
                else s
    {
    }

    method SendVerdict(sender: Id, canStart: bool)
      requires Valid() && sender in sessions
      modifies this`model, links`sendingQueue
      ensures Valid()
      ensures model ==
              M.SendTo(old(model), sender, Status(if canStart then ACCEPT_FILE_TRANSFER else REJECT_FILE_TRANSFER))
    {
      var code := if canStart then ACCEPT_FILE_TRANSFER else REJECT_FILE_TRANSFER;
      sessions[sender].client.SendMessage(Status(code), this, sender);
    }
  }
}
