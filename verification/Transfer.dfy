/**
 * A file on its way from a sending client through the server to a peer: the client's queue, the byte stream to the
 * server, the relay, the peer's queue in the server, the byte stream to the peer, and the peer's disk.
 */
module Transfer {
  import opened Bytes
  import opened Messages
  import opened Framing
  import Server = ServerModel
  import opened Relays
  import opened TransferLock
  import opened ClientModel
  import opened Splitting
  import opened Reassembly

  /** A TCP connection in one direction: bytes sent but not received, and the receiving session's input. */
  datatype Link = Link(wire: seq<byte>, input: Input)

  /**
   * `running` and `aborted` are about the calls of `fatal`: the sender's program still runs, the peer's has ended. The
   * last two fields record how far the transfer is: the peer has not read its request yet, and the server has handled
   * its last block.
   */
  datatype System = System(
    sender: Client,
    running: bool,
    up: Link,
    back: Link,
    server: Server.Server,
    down: Link,
    peer: Client,
    aborted: bool,
    waiting: bool,
    handed: bool)

  /** The sessions of the sender and of the peer in the server. */
  datatype Route = Route(s: Server.Id, p: Server.Id, file: seq<byte>, path: Path)

  datatype Step =
    | SenderCycles(canOpen: bool)
    | SenderSays(m: Message)
    | SenderReads(n: nat, answer: Answer, canOpen: bool)
    | SenderWrites(pad: Padding)
    | ServerReads(n: nat, nameFree: bool)
    | ServerDoes(e: Server.Event)
    | ServerAnswers(pad: Padding)
    | ServerWrites(pad: Padding)
    | PeerReads(n: nat, answer: Answer, canOpen: bool)

  // ---------- links ----------

  predicate CanRead(l: Link, n: nat) {
    0 < n <= |l.wire| && CanReceive(l.input, l.wire[..n])
  }

  function Read(l: Link, n: nat): (r: Link)
    requires CanRead(l, n)
  {
    Link(l.wire[n..], Receive(l.input, l.wire[..n]))
  }

  /** The message a read delivers, if any. */
  function News(l: Link, n: nat): (r: Option<Message>)
    requires CanRead(l, n)
  {
    var after := Receive(l.input, l.wire[..n]);
    if |after.delivered| > |l.input.delivered| then Some(after.delivered[|l.input.delivered|]) else None
  }

  lemma NewsIsWellFormed(l: Link, n: nat)
    requires CanRead(l, n)
    ensures News(l, n).Some? ==> News(l, n).value.WellFormed()
  {
  }

  function Sent(l: Link, m: Message, pad: Padding): (r: Link)
    requires m.WellFormed()
  {
    l.(wire := l.wire + Frame(m, pad))
  }

  /** Nothing is under way on the link. */
  predicate Silent(l: Link) {
    l.wire == [] && l.input.buf == [] && !l.input.failed
  }

  /** The link carries exactly the packets `ws`. */
  predicate Carries(l: Link, ws: seq<Packet>) {
    OnStream(l.input, l.wire, ws)
  }

  lemma {:induction false} SentCarries(l: Link, ws: seq<Packet>, m: Message, pad: Padding)
    requires Carries(l, ws) && m.WellFormed()
    ensures Carries(Sent(l, m, pad), ws + [Packet(m, pad)])
    ensures Contents(ws + [Packet(m, pad)]) == Contents(ws) + [m]
  {
    StreamOfAppended(ws, Packet(m, pad));
    Associative(l.input.buf, l.wire, Frame(m, pad));
    ContentsOfAppended(ws, Packet(m, pad));
  }

  lemma {:induction false} ContentsOfAppended(ws: seq<Packet>, w: Packet)
    ensures Contents(ws + [w]) == Contents(ws) + [w.msg]
  {
    if ws != [] {
      assert (ws + [w])[1..] == ws[1..] + [w];
      ContentsOfAppended(ws[1..], w);
    } else {
      assert ws + [w] == [w];
    }
  }

  /** The messages a link still has to deliver, from its buffer and its wire. */
  function Coming(l: Link): (r: seq<Message>) {
    Decode(l.input.buf + l.wire).msgs
  }

  lemma {:induction false} ComingIs(l: Link, ws: seq<Packet>)
    requires Carries(l, ws)
    ensures Coming(l) == Contents(ws)
  {
    DecodeUndoesStream(ws);
  }

  lemma ReadCarries(l: Link, ws: seq<Packet>, n: nat) returns (rest: seq<Packet>)
    requires Carries(l, ws) && CanRead(l, n)
    ensures Carries(Read(l, n), rest)
    ensures match News(l, n)
            case None => rest == ws
            case Some(m) => Contents(ws) == [m] + Contents(rest) && m.WellFormed()
  {
    var piece, unread := l.wire[..n], l.wire[n..];
    assert piece + unread == l.wire;
    ReadOnStream(l.input, piece, unread, ws);
    rest := Left(l.input, Receive(l.input, piece), ws);
  }

  // ---------- steps ----------

  /** What does not change the transfer state of a client and does not end its program. */
  predicate Harmless(m: Message) {
    !m.FileRequest? && (m.Status? ==> m.code !in {ACCEPT_FILE_TRANSFER, REJECT_FILE_TRANSFER, FILE_TRANSFER_CANCELED})
  }

  /** What a sender may say during its transfer: neither another request nor a refusal. */
  predicate Mild(m: Message) {
    !m.FileRequest? && m != Status(REJECT_FILE_TRANSFER)
  }

  predicate IsLast(m: Message) {
    m.FileData? && m.isLast
  }

  /**
   * What the programs can do: the two clients cycle, queue, write and read; the server reads from the sender, writes to
   * both, and does anything else it can do with all its sessions.
   */
  predicate Possible(sys: System, r: Route, step: Step) {
    match step
    case SenderCycles(_) => sys.running && sys.sender.Valid()
    case SenderSays(m) => sys.running && m.WellFormed()
    case SenderReads(n, _, _) => sys.running && sys.sender.Valid() && CanRead(sys.back, n)
    case SenderWrites(_) => sys.running && sys.sender.queue != [] && sys.sender.queue[0].WellFormed()
    case ServerReads(n, _) => r.s in sys.server.sessions && CanRead(sys.up, n)
    case ServerDoes(e) =>
      Server.Enabled(sys.server, e) && e != Server.Write(r.p) && e != Server.Write(r.s) && (e.Deliver? ==> e.id != r.s)
    case ServerAnswers(_) => CanWrite(sys.server, r.s)
    case ServerWrites(_) => CanWrite(sys.server, r.p)
    case PeerReads(n, _, _) => sys.peer.Valid() && CanRead(sys.down, n)
  }

  predicate CanWrite(s: Server.Server, c: Server.Id) {
    c in s.sessions && s.sessions[c].queue != [] && s.sessions[c].queue[0].WellFormed()
  }

  /**
   * What nobody does to disturb the transfer. The peer stays, accepts the file and can open it. Until the server has
   * handled the last block, moreover: the sender stays, can open its file, cuts no other blocks, and neither requests
   * nor refuses; only it sends blocks; the peer neither withdraws nor requests; and the peer's queue has room when a
   * block is relayed to it.
   */
  predicate Undisturbed(sys: System, r: Route, step: Step)
    requires Possible(sys, r, step)
  {
    match step
    case SenderCycles(canOpen) => sys.handed || canOpen
    case SenderSays(m) => sys.handed || (!m.FileData? && Mild(m))
    case ServerReads(n, _) =>
      !sys.handed && News(sys.up, n).Some? && News(sys.up, n).value.FileData? ==>
        r.p in sys.server.sessions && Server.CanSend(sys.server.sessions[r.p].queue)
    case ServerDoes(e) =>
      && e != Server.Leave(r.p)
      && (!sys.handed ==>
            && e != Server.Leave(r.s)
            && (e.Deliver? ==>
              !e.msg.FileData? && (e.id == r.p ==> !e.msg.FileRequest? && e.msg != Status(REJECT_FILE_TRANSFER))))
    case PeerReads(n, answer, canOpen) =>
      && canOpen
      && (sys.waiting && News(sys.down, n).Some? && News(sys.down, n).value.FileRequest? ==>
            answer == Answer(true, r.path))
    case _ => true
  }

  predicate Allowed(sys: System, r: Route, step: Step) {
    Possible(sys, r, step) && Undisturbed(sys, r, step)
  }

  ghost function Next(sys: System, r: Route, step: Step): (result: System)
    requires Possible(sys, r, step)
  {
    match step
    case SenderCycles(canOpen) => sys.(sender := Cycle(sys.sender, canOpen))
    case SenderSays(m) => sys.(sender := Queued(sys.sender, m))
    case SenderReads(n, answer, canOpen) =>
      (match News(sys.back, n)
       case None => sys.(back := Read(sys.back, n))
       case Some(m) =>
         match Receives(sys.sender, m, answer, canOpen)
         case Continues(c) => sys.(back := Read(sys.back, n), sender := c)
         case Aborts => sys.(back := Read(sys.back, n), running := false))
    case SenderWrites(pad) =>
      sys.(sender := sys.sender.(queue := sys.sender.queue[1..]), up := Sent(sys.up, sys.sender.queue[0], pad))
    case ServerReads(n, nameFree) =>
      NewsIsWellFormed(sys.up, n);
      sys.(up := Read(sys.up, n),
           handed := sys.handed || (News(sys.up, n).Some? && IsLast(News(sys.up, n).value)),
           server := match News(sys.up, n)
                     case None => sys.server
                     case Some(m) => Server.Exec(sys.server, Server.Deliver(r.s, m, nameFree)))
    case ServerDoes(e) => sys.(server := Server.Exec(sys.server, e))
    case ServerAnswers(pad) =>
      sys.(server := Server.Exec(sys.server, Server.Write(r.s)),
        back := Sent(sys.back, sys.server.sessions[r.s].queue[0], pad))
    case ServerWrites(pad) =>
      sys.(server := Server.Exec(sys.server, Server.Write(r.p)),
        down := Sent(sys.down, sys.server.sessions[r.p].queue[0], pad))
    case PeerReads(n, answer, canOpen) =>
      (match News(sys.down, n)
       case None => sys.(down := Read(sys.down, n))
       case Some(m) =>
         match Receives(sys.peer, m, answer, canOpen)
         case Continues(c) =>
           sys.(down := Read(sys.down, n), peer := c, waiting := sys.waiting && !m.FileRequest?)
         case Aborts => sys.(down := Read(sys.down, n), aborted := true))
  }

  // ---------- the invariant ----------

  /** What the proof remembers: blocks queued by the sender, blocks saved by the peer, packets on the three links. */
  datatype Trail = Trail(k: nat, saved: nat, up: seq<Packet>, back: seq<Packet>, down: seq<Packet>)

  predicate AllHarmless(ms: seq<Message>) {
    forall i :: 0 <= i < |ms| ==> Harmless(ms[i])
  }

  /** What may reach the peer: nothing harmful, and before it has read the request no block. */
  predicate Fits(m: Message, waiting: bool) {
    if waiting then !m.FileData? && (m.FileRequest? || Harmless(m)) else Harmless(m)
  }

  /** Nothing harmful; and if the peer still waits for the request, that comes before all blocks. */
  predicate Clear(ms: seq<Message>, waiting: bool) {
    if !waiting then AllHarmless(ms)
    else ms != [] && Fits(ms[0], true) && Clear(ms[1..], !ms[0].FileRequest?)
  }

  /** Everything on its way to the peer behind the server. */
  function Flow(sys: System, r: Route, t: Trail): (result: seq<Message>)
    requires r.p in sys.server.sessions
  {
    Contents(t.down) + sys.server.sessions[r.p].queue
  }

  function Data(ms: seq<Message>): (r: seq<Message>) {
    Only(FILE_DATA, ms)
  }

  /** A peer with `saved` blocks, or one that has not read the request yet. */
  predicate PeerAt(c: Client, waiting: bool, file: seq<byte>, path: Path, saved: nat) {
    if waiting then c.Valid() && c.handle.Closed? && saved == 0 else InOrder(c, file, path, saved)
  }

  predicate Wired(sys: System, r: Route, t: Trail) {
    && r.s != r.p && r.p in sys.server.sessions && AllWell(sys.server.sessions[r.p].queue)
    && Carries(sys.down, t.down) && !sys.aborted
    && PeerAt(sys.peer, sys.waiting, r.file, r.path, t.saved)
  }

  /**
   * Saved blocks, blocks behind the server, blocks in front of it and blocks still in the sender's queue are together,
   * in this order, the blocks the sender has cut so far; the last block is not behind the server.
   */
  predicate Balanced(file: seq<byte>, saved: nat, k: nat, flow: seq<Message>, up: seq<Message>, queue: seq<Message>) {
    && Storable(file) && saved <= Final(file) && k <= Final(file) + 1
    && saved + |Data(flow)| <= Final(file)
    && BlocksOf(file, saved) + (Data(flow) + (Data(up) + Data(queue))) == BlocksOf(file, k)
  }

  /** The sender alone holds the lock, and both it and the peer accept the file. */
  predicate Granted(s: Server.Server, r: Route) {
    && r.s != r.p && r.s in s.sessions && r.p in s.sessions && s.active && Senders(s) == {r.s}
    && s.sessions[r.s].fileTransferStatus == ACCEPT_FILE_TRANSFER
    && s.sessions[r.p].fileTransferStatus == ACCEPT_FILE_TRANSFER
  }

  /** Before the server has handled the last block: the file on its way. */
  predicate Carrying(sys: System, r: Route, t: Trail) {
    && Wired(sys, r, t) && Granted(sys.server, r) && Carries(sys.up, t.up) && !sys.handed
    && Clear(Flow(sys, r, t), sys.waiting)
    && Storable(r.file) && Progress(sys.sender, r.file, t.k) && AllWell(sys.sender.queue)
    && Balanced(r.file, t.saved, t.k, Flow(sys, r, t), Contents(t.up), sys.sender.queue)
  }

  /** What a sender may be told: nothing harmful, or once more that it may start. */
  predicate Gentle(m: Message) {
    !m.FileData? && (Harmless(m) || m == Status(ACCEPT_FILE_TRANSFER))
  }

  predicate AllGentle(ms: seq<Message>) {
    forall i :: 0 <= i < |ms| ==> Gentle(ms[i])
  }

  predicate AllMild(ms: seq<Message>) {
    forall i :: 0 <= i < |ms| ==> Mild(ms[i])
  }

  /** Everything on its way back to the sender behind the server. */
  function Replies(sys: System, r: Route, t: Trail): (result: seq<Message>)
    requires r.s in sys.server.sessions
  {
    Contents(t.back) + sys.server.sessions[r.s].queue
  }

  /** Everything on its way from the sender to the server. */
  function Said(sys: System, t: Trail): (r: seq<Message>) {
    Contents(t.up) + sys.sender.queue
  }

  /**
   * Before that: what the sender hears and says does not disturb the transfer, and its program runs until it has cut
   * the last block.
   */
  predicate Informed(sys: System, r: Route, t: Trail) {
    && r.s in sys.server.sessions && AllWell(sys.server.sessions[r.s].queue) && Carries(sys.back, t.back)
    && AllGentle(Replies(sys, r, t)) && AllMild(Said(sys, t))
    && (t.k <= Final(r.file) ==> sys.running)
  }

  predicate Underway(sys: System, r: Route, t: Trail) {
    Carrying(sys, r, t) && Informed(sys, r, t)
  }

  /** Up to its first last block, `ms` holds the blocks `bs` and harmless messages only. */
  predicate Brings(ms: seq<Message>, bs: seq<Message>) {
    && ms != [] && bs != [] && Harmless(ms[0])
    && if ms[0].FileData? then ms[0] == bs[0] && (|bs| == 1 || Brings(ms[1..], bs[1..])) else Brings(ms[1..], bs)
  }

  /** `Brings`, behind the request if the peer still waits for it. */
  predicate Expects(ms: seq<Message>, bs: seq<Message>, waiting: bool) {
    if !waiting then Brings(ms, bs)
    else ms != [] && Fits(ms[0], true) && Expects(ms[1..], bs, !ms[0].FileRequest?)
  }

  /** The blocks from number `k` on. */
  function Rest(file: seq<byte>, k: nat): (r: seq<Message>)
    requires k <= Final(file) + 1 && Storable(file)
  {
    BlocksOf(file, Final(file) + 1)[k..]
  }

  /** After that: what is still on its way to the peer brings the remaining blocks, whatever else happens. */
  predicate Delivering(sys: System, r: Route, t: Trail) {
    && Wired(sys, r, t) && Storable(r.file) && t.saved <= Final(r.file)
    && Expects(Flow(sys, r, t), Rest(r.file, t.saved), sys.waiting)
  }

  predicate Invariant(sys: System, r: Route, t: Trail) {
    Underway(sys, r, t) || Delivering(sys, r, t)
  }

  /** The peer has still to read the request, or the last block. */
  predicate Unfinished(sys: System) {
    sys.waiting || sys.peer.isReceiving
  }

  /** The peer has handled the last block. */
  predicate Arrived(sys: System, r: Route) {
    && !Unfinished(sys) && sys.peer.handle.Closed?
    && r.path in sys.peer.disk && sys.peer.disk[r.path] == r.file
  }
}
