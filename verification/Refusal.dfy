/** A file that is offered and refused: what the refusing client says, and that it gets nothing of the file. */
module Refusal {
  import opened Bytes
  import opened Messages
  import opened ServerModel
  import opened Relays
  import opened TransferLock
  import C = ClientModel
  import opened Splitting
  import opened Reassembly
  import T = Transfer
  import E = EndToEnd
  import P = Completion
  import D = Disturbances
  import opened Negotiation

  // ---------- one client ----------

  /** The user refuses, whatever is typed as a file name. */
  predicate Refuses(a: C.Answer) {
    !a.accept
  }

  /** A refusal is exactly this answer, and the client expects no file after it. */
  lemma RefusalIsSaid(c: C.Client, m: Message, a: C.Answer, canOpen: bool)
    requires c.Valid() && m.FileRequest? && Refuses(a) && c.queue == []
    ensures C.Receives(c, m, a, canOpen).Continues?
    ensures var d := C.Receives(c, m, a, canOpen).client;
            d.queue == [Status(REJECT_FILE_TRANSFER)] && !d.isReceiving && d.disk == c.disk
  {
    assert [] + [Status(REJECT_FILE_TRANSFER)] == [Status(REJECT_FILE_TRANSFER)];
  }

  /** A client that expects no file and refuses saves nothing, whatever it hears. */
  lemma RefuserSavesNothing(c: C.Client, m: Message, a: C.Answer, canOpen: bool)
    requires c.Valid() && !c.isReceiving && Refuses(a)
    ensures var heard := C.Receives(c, m, a, canOpen);
            heard.Continues? ==> !heard.client.isReceiving && heard.client.disk == c.disk
  {
  }

  // ---------- the run of a refusal ----------

  /** The peer reads the copy of the request and refuses. */
  function Refusing(r: T.Route, copy: Message, typed: C.Path): (steps: seq<T.Step>)
    requires copy.WellFormed()
  {
    [T.ServerWrites(P.NO_PADDING)]
    + ([T.PeerReads(|Frame(copy, P.NO_PADDING)|, C.Answer(false, typed), true)]
       + ([T.ServerDoes(Deliver(r.p, Status(REJECT_FILE_TRANSFER), true))] + []))
  }

  /** The peer has refused and the server has noted it: no block is queued for it, and it expects none. */
  predicate Refused(sys: T.System, r: T.Route, disk: map<C.Path, seq<byte>>) {
    && r.s != r.p && r.p in sys.server.sessions
    && sys.server.sessions[r.p].fileTransferStatus != ACCEPT_FILE_TRANSFER
    && T.Data(sys.server.sessions[r.p].queue) == []
    && sys.peer.Valid() && !sys.peer.isReceiving && sys.peer.disk == disk
  }

  /** What the refusing client has said is the refusal, nothing else, and the server holds it. */
  predicate SaidNo(sys: T.System, r: T.Route, disk: map<C.Path, seq<byte>>) {
    && Refused(sys, r, disk) && sys.peer.queue == [Status(REJECT_FILE_TRANSFER)]
    && sys.server.sessions[r.p].fileTransferStatus == REJECT_FILE_TRANSFER
  }

  lemma PeerRefuses(sys: T.System, r: T.Route, c: C.Client, name: C.Path, copy: Message, typed: C.Path)
    returns (next: T.System)
    requires RequestSent(sys, r, c, name, copy)
    ensures var step := T.PeerReads(|sys.down.wire|, C.Answer(false, typed), true);
            T.Possible(sys, r, step) && next == T.Next(sys, r, step)
    ensures next.peer.queue == [Status(REJECT_FILE_TRANSFER)] && next.peer.disk == sys.peer.disk
    ensures next.peer.Valid() && !next.peer.isReceiving && next.server == sys.server
  {
    P.WholeFrameIsRead(sys.down, copy);
    next := T.Next(sys, r, T.PeerReads(|sys.down.wire|, C.Answer(false, typed), true));
    RefusalIsSaid(sys.peer, copy, C.Answer(false, typed), true);
  }

  lemma RefusalIsNoted(s: Server, r: T.Route)
    requires Opened(s, r, r.p) && s.sessions[r.s].queue == [] && s.sessions[r.p].queue == []
    ensures var t := Handle(s, r.p, Status(REJECT_FILE_TRANSFER), true);
            && r.p in t.sessions && t.sessions[r.p].fileTransferStatus == REJECT_FILE_TRANSFER
            && t.sessions[r.p].queue == []
  {
    ResponseOpens(s, r.s, r.p, REJECT_FILE_TRANSFER);
  }

  /** From an offer, as frames on the links: the copy is read and refused, and the server handles the refusal. */
  lemma OfferIsRefused(sys: T.System, r: T.Route, c: C.Client, name: C.Path, typed: C.Path) returns (z: T.System)
    requires Offered(sys, r, c, name, r.p)
    ensures RunsTo(sys, r, Requesting(name, Refusing(r, Offer(sys.server, r, name), typed)), z)
    ensures SaidNo(z, r, sys.peer.disk)
  {
    SenderRequests(sys, r, c, name, r.p);
    var requested := T.Next(sys, r, T.SenderWrites(P.NO_PADDING));
    var handle := T.ServerReads(|requested.up.wire|, true);
    ServerRelays(requested, r, c, name, r.p);
    var relayed, copy := T.Next(requested, r, handle), Offer(sys.server, r, name);
    PeerIsLeft(sys, r, requested, handle);
    z := CopyIsRefused(relayed, r, c, name, copy, typed);
    RunsOn(requested, r, handle, Refusing(r, copy, typed), z);
    RunsOn(sys, r, T.SenderWrites(P.NO_PADDING), [handle] + Refusing(r, copy, typed), z);
  }

  lemma PeerIsLeft(sys: T.System, r: T.Route, requested: T.System, handle: T.Step)
    requires T.Possible(sys, r, T.SenderWrites(P.NO_PADDING))
    requires requested == T.Next(sys, r, T.SenderWrites(P.NO_PADDING))
    requires handle.ServerReads? && T.Possible(requested, r, handle)
    ensures T.Next(requested, r, handle).peer == sys.peer
  {
  }

  lemma CopyIsRefused(sys: T.System, r: T.Route, c: C.Client, name: C.Path, copy: Message, typed: C.Path)
    returns (z: T.System)
    requires RequestRelayed(sys, r, c, name, r.p, copy)
    ensures RunsTo(sys, r, Refusing(r, copy, typed), z) && SaidNo(z, r, sys.peer.disk)
  {
    ServerSendsRequest(sys, r, c, name, copy);
    var sent := T.Next(sys, r, T.ServerWrites(P.NO_PADDING));
    var refuse := T.PeerReads(|sent.down.wire|, C.Answer(false, typed), true);
    var said := PeerRefuses(sent, r, c, name, copy, typed);
    var note := T.ServerDoes(Deliver(r.p, Status(REJECT_FILE_TRANSFER), true));
    RefusalIsNoted(said.server, r);
    z := T.Next(said, r, note);
    assert RunsTo(z, r, [], z);
    RunsOn(said, r, note, [], z);
    RunsOn(sent, r, refuse, [note] + [], z);
    RunsOn(sys, r, T.ServerWrites(P.NO_PADDING), [refuse] + ([note] + []), z);
  }

  // ---------- everything that comes later ----------

  /** In this step the refusing client stays, neither accepts nor offers a file, and its user refuses again. */
  predicate Declines(step: T.Step, r: T.Route) {
    match step
    case ServerDoes(e) =>
      && e != Leave(r.p)
      && (e.Deliver? && e.id == r.p ==> !e.msg.FileRequest? && e.msg != Status(ACCEPT_FILE_TRANSFER))
    case PeerReads(_, answer, _) => Refuses(answer)
    case _ => true
  }

  predicate AllDecline(steps: seq<T.Step>, r: T.Route) {
    forall i :: 0 <= i < |steps| ==> Declines(steps[i], r)
  }

  lemma ServerKeepsRefusal(s: Server, e: Event, p: Id)
    requires Enabled(s, e) && p in s.sessions && e != Leave(p)
    requires s.sessions[p].fileTransferStatus != ACCEPT_FILE_TRANSFER && T.Data(s.sessions[p].queue) == []
    requires e.Deliver? && e.id == p ==> !e.msg.FileRequest? && e.msg != Status(ACCEPT_FILE_TRANSFER)
    ensures var t := Exec(s, e);
            && p in t.sessions && t.sessions[p].fileTransferStatus != ACCEPT_FILE_TRANSFER
            && T.Data(t.sessions[p].queue) == []
  {
    QueueGrows(s, e, p);
    D.StaysUnwilling(s, e, p);
    BlocksInGain(s, e, p);
    var q := Unwritten(s, e, p);
    assert Exec(s, e).sessions[p].queue == q + Gain(s, e, p);
    E.DataOfConcat(q, Gain(s, e, p));
    if e == Write(p) {
      E.DataOfFirst(s.sessions[p].queue);
    }
  }

  lemma RefusalHolds(sys: T.System, r: T.Route, step: T.Step, disk: map<C.Path, seq<byte>>)
    requires Refused(sys, r, disk) && T.Possible(sys, r, step) && Declines(step, r)
    ensures Refused(T.Next(sys, r, step), r, disk)
  {
    match step {
      case ServerReads(n, nameFree) =>
        T.NewsIsWellFormed(sys.up, n);
        if T.News(sys.up, n).Some? {
          ServerKeepsRefusal(sys.server, Deliver(r.s, T.News(sys.up, n).value, nameFree), r.p);
        }
      case ServerDoes(e) => ServerKeepsRefusal(sys.server, e, r.p);
      case ServerAnswers(_) => ServerKeepsRefusal(sys.server, Write(r.s), r.p);
      case ServerWrites(_) => ServerKeepsRefusal(sys.server, Write(r.p), r.p);
      case PeerReads(n, answer, canOpen) =>
        if T.News(sys.down, n).Some? {
          RefuserSavesNothing(sys.peer, T.News(sys.down, n).value, answer, canOpen);
        }
      case _ =>
    }
  }

  /**
   * Over every later run, whatever is sent and whatever else happens, as long as the client neither accepts nor offers
   * a file: no block is ever queued for it, and its files stay as they are.
   */
  lemma {:induction false} RefuserGetsNothing(sys: T.System, r: T.Route, steps: seq<T.Step>, z: T.System,
                                              disk: map<C.Path, seq<byte>>)
    requires Refused(sys, r, disk) && RunsTo(sys, r, steps, z) && AllDecline(steps, r)
    ensures Refused(z, r, disk)
    decreases |steps|
  {
    if steps != [] {
      assert Declines(steps[0], r);
      RefusalHolds(sys, r, steps[0], disk);
      assert forall i :: 0 <= i < |steps[1..]| ==> steps[1..][i] == steps[i + 1];
      RefuserGetsNothing(T.Next(sys, r, steps[0]), r, steps[1..], z, disk);
    }
  }
}
