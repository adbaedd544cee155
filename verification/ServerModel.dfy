/**
 * The chat server on values: one session per connected client, each with its own state, transfer status and bounded
 * outbound queue. A handler call, a join, a leave or the writing of one message is one atomic step.
 */
module ServerModel {
  import opened Bytes
  import opened Messages

  /** The address of a session object; `std::map` iterates over the sessions in ascending order of it. */
  type Id = nat

  datatype ClientState = INVALID | START | IDENTIFY | READY | END

  datatype Peer = Peer(
    state: ClientState,
    isFileTransferSender: bool,
    fileTransferStatus: int32,
    nickName: seq<byte>,
    queue: seq<Message>,
    disconnected: bool)

  datatype Server = Server(counter: nat, active: bool, sessions: map<Id, Peer>)

  const INITIAL_SERVER := Server(0, false, map[])

  // ---------- outbound queues ----------

  predicate CanSend(queue: seq<Message>) {
    |queue| <= MAX_NETWORK_MESSAGE_QUEUE
  }

  /** `sendMessage` drops the message when the queue is over its limit. */
  function Enqueue(queue: seq<Message>, m: Message): (r: seq<Message>) {
    if CanSend(queue) then queue + [m] else queue
  }

  function Send(p: Peer, m: Message): (r: Peer) {
    p.(queue := Enqueue(p.queue, m))
  }

  function Update(s: Server, c: Id, p: Peer): (r: Server) {
    s.(sessions := s.sessions[c := p])
  }

  function SendTo(s: Server, c: Id, m: Message): (r: Server)
    requires c in s.sessions
  {
    Update(s, c, Send(s.sessions[c], m))
  }

  /** The loop over everybody but `c`; file blocks go only to those who accepted the file. */
  function Broadcast(s: Server, c: Id, m: Message): (r: Server) {
    s.(sessions := map i | i in s.sessions ::
         if i != c && Wants(s.sessions[i], m) then Send(s.sessions[i], m) else s.sessions[i])
  }

  predicate Wants(p: Peer, m: Message) {
    m.FileData? ==> p.fileTransferStatus == ACCEPT_FILE_TRANSFER
  }

  predicate Alone(s: Server) {
    |s.sessions| == 1
  }

  // ---------- the session automaton ----------

  predicate ChangesState(k: Kind) {
    k in {HELLO, NICKNAME, BYE}
  }

  function Expected(k: Kind): (r: set<ClientState>) {
    match k
    case HELLO => {START}
    case NICKNAME => {IDENTIFY, READY}
    case _ => {START, IDENTIFY, READY}
  }

  function Next(k: Kind): (r: ClientState) {
    match k
    case HELLO => IDENTIFY
    case NICKNAME => READY
    case _ => INVALID
  }

  predicate Refuses(state: ClientState, k: Kind) {
    ChangesState(k) && state !in Expected(k)
  }

  function NextState(state: ClientState, k: Kind): (r: ClientState) {
    if !ChangesState(k) || Refuses(state, k) then state else Next(k)
  }

  /** `disconnect()`: the client is told, and the session ends once its queue is written. */
  function Disconnected(p: Peer): (r: Peer) {
    if p.disconnected then p else Send(p, Bye).(disconnected := true)
  }

  function Checked(p: Peer, k: Kind): (r: Peer) {
    if Refuses(p.state, k) then Disconnected(p) else p.(state := NextState(p.state, k))
  }

  function StateChecked(s: Server, c: Id, k: Kind): (r: Server)
    requires c in s.sessions
  {
    Update(s, c, Checked(s.sessions[c], k))
  }

  // ---------- names ----------

  function Decimal(n: nat): (r: seq<byte>) {
    if n < 10 then [48 + n] else Decimal(n / 10) + [48 + n % 10]
  }

  const USER: seq<byte> := [85, 115, 101, 114, 32]

  /** `sprintf( "User %d" )`. */
  function DefaultName(n: nat): (r: seq<byte>) {
    USER + Decimal(n)
  }

  /** `setNickName` keeps 35 bytes. */
  function Truncated(name: seq<byte>): (r: seq<byte>) {
    Take(name, MAX_NICKNAME_SIZE - 1)
  }

  // ---------- the relays ----------

  /** The copy of a chat that goes out under the sender's current name. */
  function ChatCopy(p: Peer, m: Message): (r: Message)
    requires m.Chat?
  {
    NewChat(p.nickName, CString(m.text))
  }

  function RequestCopy(p: Peer, m: Message): (r: Message)
    requires m.FileRequest?
  {
    NewFileRequest(p.nickName, BaseName(CString(m.fileName)))
  }

  function RelayRequest(s: Server, c: Id, m: Message): (r: Server)
    requires c in s.sessions && m.FileRequest?
  {
    var t := Broadcast(s.(active := true), c, RequestCopy(s.sessions[c], m));
    Update(t, c, t.sessions[c].(isFileTransferSender := true))
  }

  function RelayData(s: Server, c: Id, m: Message): (r: Server)
    requires c in s.sessions && m.FileData?
  {
    if Alone(s) then s
    else
      var t := Broadcast(s, c, m);
      if m.isLast then Update(t, c, t.sessions[c].(isFileTransferSender := false)).(active := false) else t
  }

  // ---------- the start decision ----------

  predicate SomeOther(s: Server, c: Id, status: int32) {
    exists i :: i in s.sessions && i != c && s.sessions[i].fileTransferStatus == status
  }

  ghost function OtherSenders(s: Server, c: Id): (r: set<Id>) {
    set i | i in s.sessions && i != c && s.sessions[i].isFileTransferSender
  }

  /** Who is told the outcome of a response by `c`: nobody while another session is still in Canceled status. */
  ghost function Target(s: Server, c: Id): (r: Option<Id>) {
    if SomeOther(s, c, FILE_TRANSFER_CANCELED) || OtherSenders(s, c) == {} then None
      else Some(Largest(OtherSenders(s, c)))
  }

  ghost function StartCode(s: Server, c: Id): (r: int32) {
    if SomeOther(s, c, ACCEPT_FILE_TRANSFER) then ACCEPT_FILE_TRANSFER else REJECT_FILE_TRANSFER
  }

  ghost function Decide(s: Server, c: Id): (r: Server) {
    match Target(s, c)
    case None => s
    case Some(t) => if Alone(s) then s else SendTo(s, t, Status(StartCode(s, c)))
  }

  ghost function Largest(ids: set<Id>): (r: Id)
    requires ids != {}
    ensures r in ids && forall i :: i in ids ==> i <= r
  {
    LargestExists(ids);
    var r :| r in ids && forall i :: i in ids ==> i <= r;
    r
  }

  lemma LargestExists(ids: set<Id>)
    requires ids != {}
    ensures exists r :: r in ids && forall i :: i in ids ==> i <= r
    decreases |ids|
  {
    var x :| x in ids;
    if ids == {x} {
    } else {
      LargestExists(ids - {x});
      var r :| r in ids - {x} && forall i :: i in ids - {x} ==> i <= r;
      var m := if r < x then x else r;
      assert m in ids && forall i :: i in ids ==> i == x || i in ids - {x};
    }
  }

  // ---------- one step ----------

  /** `SessionClient::availableMessages` for one message; `nameFree` is the verdict of the nickname check. */
  ghost function Handle(s: Server, c: Id, m: Message, nameFree: bool): (r: Server)
    requires c in s.sessions
  {
    Dispatch(StateChecked(s, c, m.Kind()), c, m, nameFree)
  }

  /** What follows the state check. */
  ghost function Dispatch(s: Server, c: Id, m: Message, nameFree: bool): (r: Server)
    requires c in s.sessions
  {
    var me := s.sessions[c];
    match m
    case Hello => SendTo(s, c, NewNickname(me.nickName))
    case Nickname(field) =>
      if !nameFree then SendTo(s, c, Status(NICKNAME_ALREADY_REGISTERED))
      else
        var name := Truncated(CString(field));
        SendTo(Update(s, c, me.(nickName := name)), c, NewNickname(name))
    case Status(code) =>
      if code != ACCEPT_FILE_TRANSFER && code != REJECT_FILE_TRANSFER then s
      else if !s.active then SendTo(s, c, Status(FILE_TRANSFER_CANCELED))
      else Decide(Update(s, c, me.(fileTransferStatus := code)), c)
    case Chat(_, _) =>
      if Alone(s) then SendTo(s, c, Status(CHATTING_ALONE)) else Broadcast(s, c, ChatCopy(me, m))
    case FileRequest(_, _) =>
      if s.active then SendTo(s, c, Status(FILE_TRANSFER_CANCELED))
      else if Alone(s) then SendTo(s, c, Status(CHATTING_ALONE))
      else
        var t := RelayRequest(s, c, m);
        Update(t, c, t.sessions[c].(fileTransferStatus := ACCEPT_FILE_TRANSFER))
    case FileData(_, isLast, _) =>
      var t := RelayData(s, c, m);
      if isLast then Update(t, c, t.sessions[c].(fileTransferStatus := FILE_TRANSFER_CANCELED)) else t
    case Bye => s
  }

  /** The connection counter is an `int`, which must not overflow. */
  const MAX_CONNECTIONS: nat := 0x7FFF_FFFF

  function NewPeer(number: nat): (r: Peer) {
    Peer(START, false, FILE_TRANSFER_CANCELED, Truncated(DefaultName(number)), [], false)
  }

  function Added(s: Server, c: Id): (r: Server) {
    Server(s.counter + 1, s.active, s.sessions[c := NewPeer(s.counter + 1)])
  }

  function Removed(s: Server, c: Id): (r: Server)
    requires c in s.sessions
  {
    Server(s.counter, s.active && !s.sessions[c].isFileTransferSender, s.sessions - {c})
  }

  datatype Event =
    | Join(id: Id)
    | Leave(id: Id)
    | Deliver(id: Id, msg: Message, nameFree: bool)
    | Write(id: Id)

  predicate Enabled(s: Server, e: Event) {
    match e
    case Join(c) => c !in s.sessions && s.counter < MAX_CONNECTIONS
    case Leave(c) => c in s.sessions
    case Deliver(c, m, _) => c in s.sessions && m.WellFormed()
    case Write(c) => c in s.sessions && s.sessions[c].queue != []
  }

  ghost function Exec(s: Server, e: Event): (r: Server)
    requires Enabled(s, e)
  {
    match e
    case Join(c) => Added(s, c)
    case Leave(c) => Removed(s, c)
    case Deliver(c, m, nameFree) => Handle(s, c, m, nameFree)
    case Write(c) => Update(s, c, s.sessions[c].(queue := s.sessions[c].queue[1..]))
  }

  ghost predicate Legal(s: Server, es: seq<Event>)
    decreases |es|
  {
    es == [] || (Enabled(s, es[0]) && Legal(Exec(s, es[0]), es[1..]))
  }

  ghost function Run(s: Server, es: seq<Event>): (r: Server)
    requires Legal(s, es)
    decreases |es|
  {
    if es == [] then s else Run(Exec(s, es[0]), es[1..])
  }

  lemma {:induction false} RunAppended(s: Server, es: seq<Event>, e: Event)
    requires Legal(s, es) && Enabled(Run(s, es), e)
    ensures Legal(s, es + [e]) && Run(s, es + [e]) == Exec(Run(s, es), e)
    decreases |es|
  {
    if es == [] {
      assert [e][1..] == [] && es + [e] == [e];
    } else {
      assert (es + [e])[0] == es[0] && (es + [e])[1..] == es[1..] + [e];
      RunAppended(Exec(s, es[0]), es[1..], e);
    }
  }
}
