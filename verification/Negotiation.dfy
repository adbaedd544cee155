/** From a request to a started transfer: what the verdict means, and how a run reaches the start of `EndToEnd`. */
module Negotiation {
  import opened Bytes
  import opened Messages
  import F = Framing
  import opened ServerModel
  import opened Relays
  import opened TransferLock
  import C = ClientModel
  import opened Splitting
  import opened Reassembly
  import opened Sessions
  import T = Transfer
  import E = EndToEnd
  import P = Completion
  import L = Termination
  import D = Disturbances

  // ---------- what the verdict means ----------

  /** Somebody who is neither the responder nor the sender accepts. */
  predicate ThirdAccepts(s: Server, c: Id, sender: Id) {
    exists i :: i in s.sessions && i != c && i != sender && s.sessions[i].fileTransferStatus == ACCEPT_FILE_TRANSFER
  }

  /** At least one of those who were asked has said yes. */
  predicate SomebodySaidYes(s: Server, sender: Id) {
    exists i :: i in s.sessions && i != sender && s.sessions[i].fileTransferStatus == ACCEPT_FILE_TRANSFER
  }

  /**
   * The comment in the source promises the sender an Accept exactly if at least one of the others has said yes. The
   * code counts the sender's own status instead of the responder's answer; so it keeps the promise exactly if a third
   * session accepts, or the answer and the sender's own status happen to agree.
   */
  lemma VerdictKeepsPromise(s: Server, c: Id, code: int32, nameFree: bool, sender: Id)
    requires c in s.sessions && s.active && Senders(s) == {sender} && c != sender && CanSend(s.sessions[sender].queue)
    requires code == ACCEPT_FILE_TRANSFER || code == REJECT_FILE_TRANSFER
    requires !SomeOther(s, c, FILE_TRANSFER_CANCELED)
    ensures var t := Handle(s, c, Status(code), nameFree);
            var promised := if SomebodySaidYes(t, sender) then ACCEPT_FILE_TRANSFER else REJECT_FILE_TRANSFER;
            sender in t.sessions &&
            (t.sessions[sender].queue == s.sessions[sender].queue + [Status(promised)] <==>
             (ThirdAccepts(s, c, sender)
              || (code == ACCEPT_FILE_TRANSFER <==> s.sessions[sender].fileTransferStatus == ACCEPT_FILE_TRANSFER)))
  {
    assert sender in Senders(s);
    TwoAreNotAlone(s, c, sender);
    StartDecision(s, c, code, nameFree);
    assert Senders(s) - {c} == {sender};
    var t := Handle(s, c, Status(code), nameFree);
    forall i | i in s.sessions && i != c ensures t.sessions[i].fileTransferStatus == s.sessions[i].fileTransferStatus {
      OtherQueueOfStatus(s, c, Status(code), nameFree, i);
    }
    SaidYes(s, t, c, sender, code);
    LastOf(s.sessions[sender].queue);
  }

  lemma LastOf(q: seq<Message>)
    ensures q + [Status(ACCEPT_FILE_TRANSFER)] != q + [Status(REJECT_FILE_TRANSFER)]
  {
    assert (q + [Status(ACCEPT_FILE_TRANSFER)])[|q|] != (q + [Status(REJECT_FILE_TRANSFER)])[|q|];
  }

  lemma SaidYes(s: Server, t: Server, c: Id, sender: Id, code: int32)
    requires c in s.sessions && sender in s.sessions && c != sender && t.sessions.Keys == s.sessions.Keys
    requires t.sessions[c].fileTransferStatus == code
    requires forall i :: i in s.sessions && i != c ==>
             t.sessions[i].fileTransferStatus == s.sessions[i].fileTransferStatus
    ensures SomebodySaidYes(t, sender) <==> code == ACCEPT_FILE_TRANSFER || ThirdAccepts(s, c, sender)
    ensures SomeOther(s, c, ACCEPT_FILE_TRANSFER) <==>
            s.sessions[sender].fileTransferStatus == ACCEPT_FILE_TRANSFER || ThirdAccepts(s, c, sender)
  {
    if ThirdAccepts(s, c, sender) {
      var i :| i in s.sessions && i != c && i != sender && s.sessions[i].fileTransferStatus == ACCEPT_FILE_TRANSFER;
      assert t.sessions[i].fileTransferStatus == ACCEPT_FILE_TRANSFER;
    }
  }

  // ---------- request and response ----------

  /** A request takes the lock and reaches everybody else who has room; it changes nothing else. */
  lemma RequestOpens(s: Server, c: Id, p: Id, m: Message)
    requires c in s.sessions && p in s.sessions && c != p && !s.active && m.FileRequest?
    ensures var t := Handle(s, c, m, true);
            && t.active && Senders(t) == Senders(s) + {c} && t.sessions.Keys == s.sessions.Keys
            && t.sessions[c] == s.sessions[c].(isFileTransferSender := true, fileTransferStatus := ACCEPT_FILE_TRANSFER)
            && forall i :: i in s.sessions && i != c ==>
                 t.sessions[i] == s.sessions[i].(queue := Enqueue(s.sessions[i].queue, RequestCopy(s.sessions[c], m)))
  {
    var t := Handle(s, c, m, true);
    TwoAreNotAlone(s, c, p);
    LockAfterRequest(s, c, m, true);
    OtherQueueOfRequest(s, c, m, true, p);
    forall i | i in s.sessions && i != c
      ensures t.sessions[i] == s.sessions[i].(queue := Enqueue(s.sessions[i].queue, RequestCopy(s.sessions[c], m)))
    {
      OtherQueueOfRequest(s, c, m, true, i);
      assert s.sessions[i].queue + [] == s.sessions[i].queue;
    }
  }

  /**
   * The sender's own Accept is enough: when the last of the others responds, whatever it answers, the sender is told to
   * start.
   */
  lemma ResponseOpens(s: Server, c: Id, p: Id, code: int32)
    requires c in s.sessions && p in s.sessions && c != p && s.active && Senders(s) == {c}
    requires s.sessions[c].fileTransferStatus == ACCEPT_FILE_TRANSFER && CanSend(s.sessions[c].queue)
    requires !SomeOther(s, p, FILE_TRANSFER_CANCELED)
    requires code == ACCEPT_FILE_TRANSFER || code == REJECT_FILE_TRANSFER
    ensures var t := Handle(s, p, Status(code), true);
            && t.active && Senders(t) == {c} && t.sessions.Keys == s.sessions.Keys
            && t.sessions[c] == s.sessions[c].(queue := s.sessions[c].queue + [Status(ACCEPT_FILE_TRANSFER)])
            && t.sessions[p].fileTransferStatus == code && t.sessions[p].queue == s.sessions[p].queue
            && forall i :: i in s.sessions && i != c && i != p ==> t.sessions[i] == s.sessions[i]
  {
    TwoAreNotAlone(s, p, c);
    StartDecision(s, p, code, true);
    assert Senders(s) - {p} == {c} && SomeOther(s, p, ACCEPT_FILE_TRANSFER);
    OtherQueueOfStatus(s, p, Status(code), true, c);
    LockAfterStatus(s, p, Status(code), true);
    OnlySendersAreTold(s, c, p, code);
  }

  lemma OnlySendersAreTold(s: Server, c: Id, p: Id, code: int32)
    requires p in s.sessions && Senders(s) == {c}
    ensures var t := Handle(s, p, Status(code), true);
            t.sessions.Keys == s.sessions.Keys
            && forall i :: i in s.sessions && i != c && i != p ==> t.sessions[i] == s.sessions[i]
  {
    var t := Handle(s, p, Status(code), true);
    OwnQueue(s, p, Status(code), true);
    forall i | i in s.sessions && i != c && i != p ensures t.sessions[i] == s.sessions[i] {
      OtherQueueOfStatus(s, p, Status(code), true, i);
      assert i !in Senders(s);
    }
  }

  /** Two clients join, and the first asks for a transfer. */
  function Asking(request: Message): (r: seq<Event>) {
    JOINED + [Deliver(1, request, true)]
  }

  /** Then the second gets the request and answers. */
  function Talk(request: Message, code: int32): (r: seq<Event>) {
    Asking(request) + [Write(2)] + [Deliver(2, Status(code), true)]
  }

  lemma Asked(request: Message)
    requires request.FileRequest? && request.WellFormed()
    ensures Legal(INITIAL_SERVER, Asking(request))
    ensures var s := Run(INITIAL_SERVER, Asking(request));
            && s.sessions.Keys == {1, 2} && s.active && Senders(s) == {1}
            && s.sessions[1] == NewPeer(1).(isFileTransferSender := true, fileTransferStatus := ACCEPT_FILE_TRANSFER)
            && s.sessions[2] == NewPeer(2).(queue := [RequestCopy(NewPeer(1), request)])
  {
    TwoJoin();
    var s := Run(INITIAL_SERVER, JOINED);
    assert s.sessions.Keys == {1, 2} && Senders(s) == {};
    RequestOpens(s, 1, 2, request);
    RunAppended(INITIAL_SERVER, JOINED, Deliver(1, request, true));
    assert [] + [RequestCopy(NewPeer(1), request)] == [RequestCopy(NewPeer(1), request)];
  }

  lemma Talked(request: Message, code: int32)
    requires request.FileRequest? && request.WellFormed()
    requires code == ACCEPT_FILE_TRANSFER || code == REJECT_FILE_TRANSFER
    ensures Legal(INITIAL_SERVER, Talk(request, code))
    ensures var t := Run(INITIAL_SERVER, Talk(request, code));
            && t.sessions.Keys == {1, 2} && t.active && Senders(t) == {1}
            && t.sessions[1].queue == [Status(ACCEPT_FILE_TRANSFER)] && t.sessions[2].fileTransferStatus == code
  {
    var asking, response := Asking(request), Deliver(2, Status(code), true);
    Asked(request);
    var asked := Run(INITIAL_SERVER, asking);
    RunAppended(INITIAL_SERVER, asking, Write(2));
    LockStep(asked, Write(2));
    OnlyTwo(asked);
    var s := Exec(asked, Write(2));
    ResponseOpens(s, 1, 2, code);
    RunAppended(INITIAL_SERVER, asking + [Write(2)], response);
    assert [] + [Status(ACCEPT_FILE_TRANSFER)] == [Status(ACCEPT_FILE_TRANSFER)];
  }

  lemma OnlyTwo(s: Server)
    requires s.sessions.Keys == {1, 2} && s.sessions[1].fileTransferStatus == ACCEPT_FILE_TRANSFER
    requires s.sessions[2].queue != []
    ensures var t := Exec(s, Write(2)); t.sessions.Keys == {1, 2} && !SomeOther(t, 2, FILE_TRANSFER_CANCELED)
  {
  }

  /** Everybody who was asked has refused, and yet the sender is told to start. */
  lemma RefusedButStarted()
    ensures var talk := Talk(NewFileRequest([], [97]), REJECT_FILE_TRANSFER);
            && Legal(INITIAL_SERVER, talk)
            && var t := Run(INITIAL_SERVER, talk);
               && t.sessions.Keys == {1, 2} && Senders(t) == {1} && !SomebodySaidYes(t, 1)
               && t.sessions[1].queue == [Status(ACCEPT_FILE_TRANSFER)]
  {
    Talked(NewFileRequest([], [97]), REJECT_FILE_TRANSFER);
  }

  /** The peer is shown the bare name of the file and who offers it. */
  lemma {:induction false} PeerSeesOffer(name: C.Path)
    requires NulFree(name) && |name| <= MAX_PATH_SIZE
    ensures Legal(INITIAL_SERVER, Asking(NewFileRequest([], name)))
    ensures var s := Run(INITIAL_SERVER, Asking(NewFileRequest([], name)));
            2 in s.sessions && s.sessions[2].queue == [NewFileRequest(DefaultName(1), BaseName(name))]
  {
    Asked(NewFileRequest([], name));
    CopyOfRequest(NewPeer(1), name);
    DefaultNameIsKept(1);
  }

  lemma {:induction false} CopyOfRequest(p: Peer, name: C.Path)
    requires NulFree(name) && |name| <= MAX_PATH_SIZE
    ensures RequestCopy(p, NewFileRequest([], name)) == NewFileRequest(p.nickName, BaseName(name))
  {
    FieldKeepsString(name, MAX_PATH_SIZE);
  }

  // ---------- the server's side, after any run ----------

  /**
   * In any run from the start in which only the sender ends its transfer, with any number of sessions: a session that
   * is told something in response to another's status holds the lock alone, before and after.
   */
  lemma {:induction false} VerdictGrants(es: seq<Event>, e: Event, told: Id)
    requires Legal(INITIAL_SERVER, es) && Disciplined(INITIAL_SERVER, es) && Enabled(Run(INITIAL_SERVER, es), e)
    requires e.Deliver? && e.msg.Status? && e.id != told && told in Run(INITIAL_SERVER, es).sessions
    requires Gain(Run(INITIAL_SERVER, es), e, told) != []
    ensures var s := Run(INITIAL_SERVER, es); s.active && Senders(s) == {told}
    ensures var t := Exec(Run(INITIAL_SERVER, es), e); t.active && Senders(t) == {told}
  {
    var s := Run(INITIAL_SERVER, es);
    LockIsExact(INITIAL_SERVER, es);
    VerdictNeedsEverybody(es, e, told);
    OnlyMember(Senders(s), told);
    LockStep(s, e);
  }

  lemma OnlyMember(ids: set<Id>, i: Id)
    requires i in ids && |ids| == 1
    ensures ids == {i}
  {
    assert |ids - {i}| == 0;
  }

  // ---------- from an offer to the start of its transfer ----------

  predicate Idle(c: C.Client) {
    c.Valid() && c.handle.Closed? && c.offset == 0 && !c.isReceiving && !c.isSending && !c.hasStarted && c.queue == []
  }

  /** A path that `sendFile` can take whole, to a file the client has. */
  predicate CanOffer(c: C.Client, name: C.Path) {
    NulFree(name) && 0 < |name| <= MAX_PATH_SIZE && name in c.disk && C.Storable(c.disk[name])
  }

  /**
   * The client has just called `sendFile`; the server is free, and of the other sessions only `last` is in Canceled
   * status.
   */
  predicate Offered(sys: T.System, r: T.Route, c: C.Client, name: C.Path, last: Id) {
    && Idle(c) && CanOffer(c, name) && sys.sender == C.SendFile(c, name) && sys.running && r.file == c.disk[name]
    && Idle(sys.peer) && !sys.aborted && T.Silent(sys.up) && T.Silent(sys.back) && T.Silent(sys.down)
    && Free(sys.server, r, last) && sys.waiting && !sys.handed
  }

  predicate Free(s: Server, r: T.Route, last: Id) {
    && r.s != r.p && r.s in s.sessions && r.p in s.sessions && !s.active && Senders(s) == {}
    && s.sessions[r.s].queue == [] && s.sessions[r.p].queue == []
    && forall i :: i in s.sessions && i != r.s && i != last ==>
         s.sessions[i].fileTransferStatus != FILE_TRANSFER_CANCELED
  }

  /** Two clients that have just joined can do it. */
  lemma JoinedAreFree(r: T.Route)
    requires r.s == 1 && r.p == 2
    ensures Legal(INITIAL_SERVER, JOINED) && Free(Run(INITIAL_SERVER, JOINED), r, r.p)
  {
    TwoJoin();
  }

  /** A run of steps that client programs can do, whether or not they disturb a transfer. */
  ghost predicate RunsTo(sys: T.System, r: T.Route, steps: seq<T.Step>, z: T.System)
    decreases |steps|
  {
    if steps == [] then sys == z
    else T.Possible(sys, r, steps[0]) && P.Sensible(steps[0]) && RunsTo(T.Next(sys, r, steps[0]), r, steps[1..], z)
  }

  lemma {:induction false} RunsOn(sys: T.System, r: T.Route, step: T.Step, steps: seq<T.Step>, z: T.System)
    requires T.Possible(sys, r, step) && P.Sensible(step) && RunsTo(T.Next(sys, r, step), r, steps, z)
    ensures RunsTo(sys, r, [step] + steps, z)
  {
    assert ([step] + steps)[1..] == steps;
  }

  // The states between the offer and the start.

  /** The sender has queued its request and is silent since; the peer has heard nothing, or has accepted. */
  predicate Silenced(sys: T.System, r: T.Route, c: C.Client, name: C.Path) {
    && Idle(c) && CanOffer(c, name) && sys.sender == C.SendFile(c, name).(queue := []) && sys.running && !sys.aborted
    && r.file == c.disk[name] && !sys.handed
  }

  /** The sender holds the lock and nobody but, perhaps, `last` is still to answer. */
  predicate Opened(s: Server, r: T.Route, last: Id) {
    && r.s != r.p && r.s in s.sessions && r.p in s.sessions && s.active && Senders(s) == {r.s}
    && s.sessions[r.s].fileTransferStatus == ACCEPT_FILE_TRANSFER && !SomeOther(s, last, FILE_TRANSFER_CANCELED)
  }

  predicate Queues(s: Server, r: T.Route, toSender: seq<Message>, toPeer: seq<Message>) {
    r.s in s.sessions && r.p in s.sessions && s.sessions[r.s].queue == toSender && s.sessions[r.p].queue == toPeer
  }

  predicate Requested(sys: T.System, r: T.Route, c: C.Client, name: C.Path, last: Id) {
    && Silenced(sys, r, c, name) && sys.waiting && Idle(sys.peer) && Free(sys.server, r, last)
    && P.Bears(sys.up, NewFileRequest([], name)) && T.Silent(sys.back) && T.Silent(sys.down)
  }

  lemma SenderRequests(sys: T.System, r: T.Route, c: C.Client, name: C.Path, last: Id)
    requires Offered(sys, r, c, name, last)
    ensures var step := T.SenderWrites(P.NO_PADDING);
            && T.Possible(sys, r, step) && Requested(T.Next(sys, r, step), r, c, name, last)
            && T.Next(sys, r, step).server == sys.server
  {
    assert sys.sender.queue == [NewFileRequest([], name)];
    P.FrameIsWritten(sys.up, NewFileRequest([], name));
  }

  predicate RequestRelayed(sys: T.System, r: T.Route, c: C.Client, name: C.Path, last: Id, copy: Message) {
    && Silenced(sys, r, c, name) && sys.waiting && Idle(sys.peer) && Opened(sys.server, r, last)
    && copy.FileRequest? && copy.WellFormed() && Queues(sys.server, r, [], [copy])
    && T.Silent(sys.up) && T.Silent(sys.back) && T.Silent(sys.down)
  }

  lemma {:induction false} ServerRelays(sys: T.System, r: T.Route, c: C.Client, name: C.Path, last: Id)
    requires Requested(sys, r, c, name, last)
    ensures var step := T.ServerReads(|sys.up.wire|, true);
            && T.Possible(sys, r, step)
            && RequestRelayed(T.Next(sys, r, step), r, c, name, last,
                              NewFileRequest(sys.server.sessions[r.s].nickName, BaseName(name)))
            && SameAnswer(sys.server, T.Next(sys, r, step).server, r.p)
            && SameSessions(sys, T.Next(sys, r, step))
  {
    var s, m := sys.server, NewFileRequest([], name);
    P.WholeFrameIsRead(sys.up, m);
    CopyOfRequest(s.sessions[r.s], name);
    RequestIsHandled(s, r, last, m, NewFileRequest(s.sessions[r.s].nickName, BaseName(name)));
    assert T.Next(sys, r, T.ServerReads(|sys.up.wire|, true)).server == Exec(s, Deliver(r.s, m, true));
  }

  predicate SameSessions(sys: T.System, next: T.System) {
    next.server.sessions.Keys == sys.server.sessions.Keys
  }

  predicate SameAnswer(s: Server, t: Server, p: Id) {
    p in s.sessions && p in t.sessions && t.sessions[p].fileTransferStatus == s.sessions[p].fileTransferStatus
  }

  lemma RequestIsHandled(s: Server, r: T.Route, last: Id, m: Message, copy: Message)
    requires Free(s, r, last) && m.FileRequest? && copy == RequestCopy(s.sessions[r.s], m)
    ensures var t := Handle(s, r.s, m, true);
            && Opened(t, r, last) && Queues(t, r, [], [copy]) && SameAnswer(s, t, r.p)
            && t.sessions.Keys == s.sessions.Keys
  {
    RequestOpens(s, r.s, r.p, m);
    OpenedByRequest(s, Handle(s, r.s, m, true), r, last, copy);
  }

  lemma OpenedByRequest(s: Server, t: Server, r: T.Route, last: Id, copy: Message)
    requires Free(s, r, last) && t.active && Senders(t) == Senders(s) + {r.s} && t.sessions.Keys == s.sessions.Keys
    requires t.sessions[r.s] ==
             s.sessions[r.s].(isFileTransferSender := true, fileTransferStatus := ACCEPT_FILE_TRANSFER)
    requires forall i :: i in s.sessions && i != r.s ==>
               t.sessions[i] == s.sessions[i].(queue := Enqueue(s.sessions[i].queue, copy))
    ensures Opened(t, r, last) && Queues(t, r, [], [copy]) && SameAnswer(s, t, r.p)
  {
  }

  predicate RequestSent(sys: T.System, r: T.Route, c: C.Client, name: C.Path, copy: Message) {
    && Silenced(sys, r, c, name) && sys.waiting && Idle(sys.peer) && Opened(sys.server, r, r.p)
    && Queues(sys.server, r, [], [])
    && T.Silent(sys.up) && T.Silent(sys.back) && copy.FileRequest? && P.Bears(sys.down, copy)
  }

  lemma ServerSendsRequest(sys: T.System, r: T.Route, c: C.Client, name: C.Path, copy: Message)
    requires RequestRelayed(sys, r, c, name, r.p, copy)
    ensures var step := T.ServerWrites(P.NO_PADDING);
            && T.Possible(sys, r, step) && RequestSent(T.Next(sys, r, step), r, c, name, copy)
            && SameSessions(sys, T.Next(sys, r, step))
  {
    P.FrameIsWritten(sys.down, copy);
    LockStep(sys.server, Write(r.p));
    StaysOpened(sys.server, Exec(sys.server, Write(r.p)), r, r.p);
  }

  lemma StaysOpened(s: Server, t: Server, r: T.Route, last: Id)
    requires Opened(s, r, last) && t.sessions.Keys == s.sessions.Keys && t.active && Senders(t) == {r.s}
    requires forall i :: i in s.sessions ==> t.sessions[i].fileTransferStatus == s.sessions[i].fileTransferStatus
    ensures Opened(t, r, last)
  {
  }

  predicate PeerAccepted(sys: T.System, r: T.Route, c: C.Client, name: C.Path) {
    && Silenced(sys, r, c, name) && !sys.waiting && Opened(sys.server, r, r.p) && Queues(sys.server, r, [], [])
    && T.Silent(sys.up) && T.Silent(sys.back) && T.Silent(sys.down)
    && InOrder(sys.peer, r.file, r.path, 0) && sys.peer.queue == [Status(ACCEPT_FILE_TRANSFER)]
  }

  lemma PeerAccepts(sys: T.System, r: T.Route, c: C.Client, name: C.Path, copy: Message)
    requires RequestSent(sys, r, c, name, copy)
    ensures var step := T.PeerReads(|sys.down.wire|, C.Answer(true, r.path), true);
            && T.Possible(sys, r, step) && PeerAccepted(T.Next(sys, r, step), r, c, name)
            && SameSessions(sys, T.Next(sys, r, step))
  {
    P.WholeFrameIsRead(sys.down, copy);
  }

  /** The peer has accepted, or is in Accept status from before and has not read the copy in its queue. */
  predicate PeerIsReady(sys: T.System, r: T.Route, toPeer: seq<Message>) {
    && T.PeerAt(sys.peer, sys.waiting, r.file, r.path, 0) && AllWell(toPeer)
    && if sys.waiting then |toPeer| == 1 && toPeer[0].FileRequest? else toPeer == []
  }

  /** The transfer is granted, and nobody is in Canceled status. */
  predicate Settled(s: Server, r: T.Route) {
    T.Granted(s, r) && forall i :: i in s.sessions ==> s.sessions[i].fileTransferStatus != FILE_TRANSFER_CANCELED
  }

  predicate Answered(sys: T.System, r: T.Route, c: C.Client, name: C.Path, toPeer: seq<Message>) {
    && Silenced(sys, r, c, name) && Settled(sys.server, r)
    && Queues(sys.server, r, [Status(ACCEPT_FILE_TRANSFER)], toPeer)
    && T.Silent(sys.up) && T.Silent(sys.back) && T.Silent(sys.down) && PeerIsReady(sys, r, toPeer)
  }

  /** The server handles the answer that the peer has queued. */
  lemma ServerDecides(sys: T.System, r: T.Route, c: C.Client, name: C.Path)
    requires PeerAccepted(sys, r, c, name)
    ensures var step := T.ServerDoes(Deliver(r.p, sys.peer.queue[0], true));
            && T.Possible(sys, r, step) && Answered(T.Next(sys, r, step), r, c, name, [])
            && SameSessions(sys, T.Next(sys, r, step))
  {
    ResponseOpens(sys.server, r.s, r.p, ACCEPT_FILE_TRANSFER);
    assert [] + [Status(ACCEPT_FILE_TRANSFER)] == [Status(ACCEPT_FILE_TRANSFER)];
  }

  /** The server handles the answer of somebody else, while the peer's Accept is one from an earlier transfer. */
  lemma ServerDecidesEarly(sys: T.System, r: T.Route, c: C.Client, name: C.Path, last: Id, code: int32, copy: Message)
    requires RequestRelayed(sys, r, c, name, last, copy) && last in sys.server.sessions && last != r.s && last != r.p
    requires sys.server.sessions[r.p].fileTransferStatus == ACCEPT_FILE_TRANSFER
    requires code == ACCEPT_FILE_TRANSFER || code == REJECT_FILE_TRANSFER
    ensures var step := T.ServerDoes(Deliver(last, Status(code), true));
            && T.Possible(sys, r, step) && Answered(T.Next(sys, r, step), r, c, name, [copy])
            && T.Next(sys, r, step).waiting && SameSessions(sys, T.Next(sys, r, step))
  {
    LastAnswerSettles(sys.server, r, last, code);
  }

  lemma LastAnswerSettles(s: Server, r: T.Route, last: Id, code: int32)
    requires Opened(s, r, last) && last in s.sessions && last != r.s && last != r.p && s.sessions[r.s].queue == []
    requires s.sessions[r.p].fileTransferStatus == ACCEPT_FILE_TRANSFER
    requires code == ACCEPT_FILE_TRANSFER || code == REJECT_FILE_TRANSFER
    ensures var t := Exec(s, Deliver(last, Status(code), true));
            && Settled(t, r) && t.sessions.Keys == s.sessions.Keys
            && Queues(t, r, [Status(ACCEPT_FILE_TRANSFER)], s.sessions[r.p].queue)
  {
    ResponseOpens(s, r.s, last, code);
    SettledByAnswer(s, Handle(s, last, Status(code), true), r, last);
  }

  lemma SettledByAnswer(s: Server, t: Server, r: T.Route, last: Id)
    requires Opened(s, r, last) && last in s.sessions && last != r.s && last != r.p && s.sessions[r.s].queue == []
    requires s.sessions[r.p].fileTransferStatus == ACCEPT_FILE_TRANSFER
    requires t.active && Senders(t) == {r.s} && t.sessions.Keys == s.sessions.Keys
    requires t.sessions[r.s] == s.sessions[r.s].(queue := s.sessions[r.s].queue + [Status(ACCEPT_FILE_TRANSFER)])
    requires t.sessions[last].fileTransferStatus != FILE_TRANSFER_CANCELED
    requires forall i :: i in s.sessions && i != r.s && i != last ==> t.sessions[i] == s.sessions[i]
    ensures Settled(t, r) && Queues(t, r, [Status(ACCEPT_FILE_TRANSFER)], s.sessions[r.p].queue)
  {
    assert [] + [Status(ACCEPT_FILE_TRANSFER)] == [Status(ACCEPT_FILE_TRANSFER)];
  }

  predicate Told(sys: T.System, r: T.Route, c: C.Client, name: C.Path, toPeer: seq<Message>) {
    && Silenced(sys, r, c, name) && Settled(sys.server, r) && Queues(sys.server, r, [], toPeer)
    && T.Silent(sys.up) && P.Bears(sys.back, Status(ACCEPT_FILE_TRANSFER)) && T.Silent(sys.down)
    && PeerIsReady(sys, r, toPeer)
  }

  lemma ServerTells(sys: T.System, r: T.Route, c: C.Client, name: C.Path, toPeer: seq<Message>)
    requires Answered(sys, r, c, name, toPeer)
    ensures var step := T.ServerAnswers(P.NO_PADDING);
            && T.Possible(sys, r, step) && Told(T.Next(sys, r, step), r, c, name, toPeer)
            && T.Next(sys, r, step).waiting == sys.waiting && SameSessions(sys, T.Next(sys, r, step))
  {
    P.FrameIsWritten(sys.back, Status(ACCEPT_FILE_TRANSFER));
    LockStep(sys.server, Write(r.s));
  }

  /** The start of a transfer, with everybody's answer in and nothing else under way. */
  predicate Starts(sys: T.System, r: T.Route) {
    && E.Ready(sys, r, [], [], []) && Settled(sys.server, r)
    && sys.sender.queue == [] && sys.server.sessions[r.s].queue == []
    && (!sys.waiting ==> sys.server.sessions[r.p].queue == [])
  }

  lemma SenderStarts(sys: T.System, r: T.Route, c: C.Client, name: C.Path, toPeer: seq<Message>)
    requires Told(sys, r, c, name, toPeer)
    ensures var step := T.SenderReads(|sys.back.wire|, ANY_ANSWER, true);
            && T.Possible(sys, r, step) && Starts(T.Next(sys, r, step), r)
            && T.Next(sys, r, step).waiting == sys.waiting && SameSessions(sys, T.Next(sys, r, step))
  {
    P.WholeFrameIsRead(sys.back, Status(ACCEPT_FILE_TRANSFER));
    var next := T.Next(sys, r, T.SenderReads(|sys.back.wire|, ANY_ANSWER, true));
    assert Sending(next.sender, r.file, 0);
    StartsReady(next, r, toPeer);
  }

  lemma StartsReady(sys: T.System, r: T.Route, toPeer: seq<Message>)
    requires Sending(sys.sender, r.file, 0) && sys.sender.queue == [] && sys.running
    requires PeerIsReady(sys, r, toPeer) && !sys.aborted && !sys.handed
    requires T.Silent(sys.up) && T.Silent(sys.back) && T.Silent(sys.down)
    requires Settled(sys.server, r) && Queues(sys.server, r, [], toPeer)
    ensures Starts(sys, r)
  {
    assert [] + toPeer == toPeer;
    if sys.waiting {
      E.DataOfOne(toPeer[0]);
      assert toPeer == [toPeer[0]];
    }
  }

  // The steps that lead to a start, as frames on the links.

  /** The peer is sent the copy, reads it and accepts; the server decides. */
  function Accepting(r: T.Route, copy: Message): (steps: seq<T.Step>)
    requires copy.WellFormed()
  {
    [T.ServerWrites(P.NO_PADDING)]
    + ([T.PeerReads(|Frame(copy, P.NO_PADDING)|, C.Answer(true, r.path), true)] + P.Deciding(r.p, ACCEPT_FILE_TRANSFER))
  }

  /** The sender sends its request, and the server handles it. */
  function Requesting(name: C.Path, later: seq<T.Step>): (r: seq<T.Step>) {
    [T.SenderWrites(P.NO_PADDING)]
    + ([T.ServerReads(|Frame(NewFileRequest([], name), P.NO_PADDING)|, true)] + later)
  }

  /** The copy of the request that goes to the others. */
  function Offer(s: Server, r: T.Route, name: C.Path): (copy: Message)
    requires r.s in s.sessions
    ensures copy.FileRequest? && copy.WellFormed()
  {
    NewFileRequest(s.sessions[r.s].nickName, BaseName(name))
  }

  /** Request, copy, answer and verdict, one after the other. */
  function Opening(s: Server, r: T.Route, name: C.Path): (steps: seq<T.Step>)
    requires r.s in s.sessions
  {
    Requesting(name, Accepting(r, Offer(s, r, name)))
  }

  /** These steps lead to where end-to-end integrity starts, before or after the peer has read the request. */
  ghost predicate StartsBy(sys: T.System, r: T.Route, steps: seq<T.Step>, waiting: bool) {
    exists z :: RunsTo(sys, r, steps, z) && Starts(z, r) && z.waiting == waiting && SameSessions(sys, z)
  }

  lemma {:induction false} StartsAfter(sys: T.System, r: T.Route, step: T.Step, steps: seq<T.Step>, waiting: bool)
    requires T.Possible(sys, r, step) && P.Sensible(step) && StartsBy(T.Next(sys, r, step), r, steps, waiting)
    requires SameSessions(sys, T.Next(sys, r, step))
    ensures StartsBy(sys, r, [step] + steps, waiting)
  {
    var z :| RunsTo(T.Next(sys, r, step), r, steps, z) && Starts(z, r) && z.waiting == waiting
             && SameSessions(T.Next(sys, r, step), z);
    RunsOn(sys, r, step, steps, z);
  }

  lemma VerdictLeadsToStart(sys: T.System, r: T.Route, c: C.Client, name: C.Path, toPeer: seq<Message>)
    requires Answered(sys, r, c, name, toPeer)
    ensures StartsBy(sys, r, P.Telling(), sys.waiting)
  {
    ServerTells(sys, r, c, name, toPeer);
    var told := T.Next(sys, r, T.ServerAnswers(P.NO_PADDING));
    SenderStarts(told, r, c, name, toPeer);
    var hear := T.SenderReads(|told.back.wire|, ANY_ANSWER, true);
    assert RunsTo(T.Next(told, r, hear), r, [], T.Next(told, r, hear));
    StartsAfter(told, r, hear, [], sys.waiting);
    StartsAfter(sys, r, T.ServerAnswers(P.NO_PADDING), [hear] + [], sys.waiting);
  }

  lemma AnswerLeadsToStart(sys: T.System, r: T.Route, c: C.Client, name: C.Path)
    requires PeerAccepted(sys, r, c, name)
    ensures StartsBy(sys, r, P.Deciding(r.p, ACCEPT_FILE_TRANSFER), false)
  {
    var decide := T.ServerDoes(Deliver(r.p, sys.peer.queue[0], true));
    ServerDecides(sys, r, c, name);
    VerdictLeadsToStart(T.Next(sys, r, decide), r, c, name, []);
    StartsAfter(sys, r, decide, P.Telling(), false);
  }

  lemma RequestLeadsToStart(sys: T.System, r: T.Route, c: C.Client, name: C.Path, copy: Message)
    requires RequestRelayed(sys, r, c, name, r.p, copy)
    ensures StartsBy(sys, r, Accepting(r, copy), false)
  {
    ServerSendsRequest(sys, r, c, name, copy);
    var sent := T.Next(sys, r, T.ServerWrites(P.NO_PADDING));
    var accept := T.PeerReads(|sent.down.wire|, C.Answer(true, r.path), true);
    PeerAccepts(sent, r, c, name, copy);
    AnswerLeadsToStart(T.Next(sent, r, accept), r, c, name);
    StartsAfter(sent, r, accept, P.Deciding(r.p, ACCEPT_FILE_TRANSFER), false);
    StartsAfter(sys, r, T.ServerWrites(P.NO_PADDING), [accept] + P.Deciding(r.p, ACCEPT_FILE_TRANSFER), false);
  }

  /** The first two steps, whatever comes after them. */
  lemma OfferLeadsOn(sys: T.System, r: T.Route, c: C.Client, name: C.Path, last: Id, relayed: T.System,
                     later: seq<T.Step>, waiting: bool)
    requires Offered(sys, r, c, name, last) && relayed == AfterRequest(sys, r, c, name, last)
    requires StartsBy(relayed, r, later, waiting)
    ensures StartsBy(sys, r, Requesting(name, later), waiting)
  {
    SenderRequests(sys, r, c, name, last);
    var requested := T.Next(sys, r, T.SenderWrites(P.NO_PADDING));
    var handle := T.ServerReads(|requested.up.wire|, true);
    ServerRelays(requested, r, c, name, last);
    StartsAfter(requested, r, handle, later, waiting);
    StartsAfter(sys, r, T.SenderWrites(P.NO_PADDING), [handle] + later, waiting);
  }

  /** Where the server has handled the request. */
  ghost function AfterRequest(sys: T.System, r: T.Route, c: C.Client, name: C.Path, last: Id): (z: T.System)
    requires Offered(sys, r, c, name, last)
    ensures RequestRelayed(z, r, c, name, last, Offer(sys.server, r, name))
    ensures SameAnswer(sys.server, z.server, r.p) && SameSessions(sys, z)
  {
    SenderRequests(sys, r, c, name, last);
    var requested := T.Next(sys, r, T.SenderWrites(P.NO_PADDING));
    ServerRelays(requested, r, c, name, last);
    T.Next(requested, r, T.ServerReads(|requested.up.wire|, true))
  }

  /**
   * A transfer gets going, as frames on the links: the request that `sendFile` queues, the server's copy of it, the
   * peer's answer and the verdict lead both clients and the server, with any other sessions it has, to where end-to-end
   * integrity starts.
   */
  lemma NegotiationEndsReady(sys: T.System, r: T.Route, c: C.Client, name: C.Path)
    requires Offered(sys, r, c, name, r.p)
    ensures StartsBy(sys, r, Opening(sys.server, r, name), false)
  {
    var relayed, copy := AfterRequest(sys, r, c, name, r.p), Offer(sys.server, r, name);
    RequestLeadsToStart(relayed, r, c, name, copy);
    OfferLeadsOn(sys, r, c, name, r.p, relayed, Accepting(r, copy), false);
  }

  /**
   * Statuses outlive a transfer. So where the peer's Accept is one from before, the answer of the last session in
   * Canceled status, whatever it is, starts the transfer while the request is still in the peer's queue.
   */
  lemma StaleAcceptStarts(sys: T.System, r: T.Route, c: C.Client, name: C.Path, last: Id, code: int32)
    requires Offered(sys, r, c, name, last) && last in sys.server.sessions && last != r.s && last != r.p
    requires sys.server.sessions[r.p].fileTransferStatus == ACCEPT_FILE_TRANSFER
    requires code == ACCEPT_FILE_TRANSFER || code == REJECT_FILE_TRANSFER
    ensures StartsBy(sys, r, Requesting(name, P.Deciding(last, code)), true)
  {
    var relayed, copy := AfterRequest(sys, r, c, name, last), Offer(sys.server, r, name);
    StaysThere(sys, relayed, last);
    ServerDecidesEarly(relayed, r, c, name, last, code, copy);
    var decide := T.ServerDoes(Deliver(last, Status(code), true));
    VerdictLeadsToStart(T.Next(relayed, r, decide), r, c, name, [copy]);
    StartsAfter(relayed, r, decide, P.Telling(), true);
    OfferLeadsOn(sys, r, c, name, last, relayed, P.Deciding(last, code), true);
  }

  /**
   * So a file of any content can be offered, accepted and received, byte for byte, if of the others only the peer has
   * not answered, or only somebody else and the peer is in Accept status.
   */
  lemma OfferedFileArrives(sys: T.System, r: T.Route, c: C.Client, name: C.Path, last: Id)
    returns (steps: seq<T.Step>, z: T.System)
    requires Offered(sys, r, c, name, last) && last in sys.server.sessions && last != r.s
    requires last == r.p || sys.server.sessions[r.p].fileTransferStatus == ACCEPT_FILE_TRANSFER
    ensures RunsTo(sys, r, steps, z) && E.Ready(z, r, [], [], []) && P.CanArrive(z, r)
  {
    if last == r.p {
      steps := Opening(sys.server, r, name);
      NegotiationEndsReady(sys, r, c, name);
    } else {
      steps := Requesting(name, P.Deciding(last, REJECT_FILE_TRANSFER));
      StaleAcceptStarts(sys, r, c, name, last, REJECT_FILE_TRANSFER);
    }
    z :| RunsTo(sys, r, steps, z) && Starts(z, r);
    E.ReadyIsUnderway(z, r, [], [], []);
    P.UnderwayArrives(z, r, T.Trail(0, 0, [], [], []));
  }

  lemma {:induction false} StartIsClean(start: T.System, r: T.Route)
    requires Starts(start, r) && !start.waiting
    ensures L.Clean(start, r) && F.Prompt(start.up.input) && F.Prompt(start.down.input)
  {
    T.ComingIs(start.up, []);
    T.ComingIs(start.down, []);
    NothingInBuffer(start.up);
    NothingInBuffer(start.down);
  }

  lemma {:induction false} NothingInBuffer(l: T.Link)
    requires T.Carries(l, [])
    ensures l.input.buf == [] && F.Prompt(l.input)
  {
    assert |l.input.buf + l.wire| == 0;
  }

  /** From here on the transfer ends by itself. */
  ghost predicate EndsByItself(start: T.System, r: T.Route) {
    forall steps :: L.ProductiveRun(start, r, steps) ==>
      && E.AllowedRun(start, r, steps) && |steps| <= L.Work(start, r)
      && (L.Exhausted(E.Reached(start, r, steps), r) ==> T.Arrived(E.Reached(start, r, steps), r))
  }

  /**
   * If nobody else does anything then, it is certain to arrive: from where the negotiation ends, cutting, writing and
   * reading in any order and in any pieces comes to an end, and then the file is at the peer.
   */
  lemma OfferedFileIsCertain(sys: T.System, r: T.Route, c: C.Client, name: C.Path) returns (start: T.System)
    requires Offered(sys, r, c, name, r.p)
    ensures RunsTo(sys, r, Opening(sys.server, r, name), start) && Starts(start, r) && EndsByItself(start, r)
  {
    NegotiationEndsReady(sys, r, c, name);
    start :| RunsTo(sys, r, Opening(sys.server, r, name), start) && Starts(start, r) && !start.waiting;
    StartIsClean(start, r);
    forall steps | L.ProductiveRun(start, r, steps)
      ensures E.AllowedRun(start, r, steps) && |steps| <= L.Work(start, r)
      ensures L.Exhausted(E.Reached(start, r, steps), r) ==> T.Arrived(E.Reached(start, r, steps), r)
    {
      L.EveryMaximalRunArrives(start, r, [], [], [], steps);
    }
  }

  lemma StaysThere(sys: T.System, next: T.System, q: Id)
    requires SameSessions(sys, next) && q in sys.server.sessions
    ensures q in next.server.sessions
  {
    assert q in sys.server.sessions.Keys;
  }

  lemma StartedFileIsLost(start: T.System, r: T.Route, q: Id, code: int32) returns (z: T.System)
    requires Starts(start, r) && |r.file| < BLOCK && q in start.server.sessions && q != r.s && q != r.p
    requires code == ACCEPT_FILE_TRANSFER || code == REJECT_FILE_TRANSFER
    ensures P.LeadsTo(start, r, D.LosingRun(q, code), z)
    ensures !z.running && z.sender.queue == [C.BlockAt(r.file, 0)] && !P.CanArrive(z, r)
  {
    z := D.LateAnswerLosesFile(start, r, q, code);
  }

  /**
   * But it can also be lost, although everybody only does what client programs do. The peer accepts the offer and the
   * transfer starts; the sender of a small file cuts its one block; then a third session, whose status is left from
   * before, answers, whatever it answers; and the sender's program ends on the go-ahead this brings, before it has
   * written the block. From there the file never arrives.
   */
  lemma OfferedFileIsLost(sys: T.System, r: T.Route, c: C.Client, name: C.Path, q: Id, code: int32)
    returns (start: T.System, z: T.System)
    requires Offered(sys, r, c, name, r.p) && |r.file| < BLOCK
    requires q in sys.server.sessions && q != r.s && q != r.p
    requires code == ACCEPT_FILE_TRANSFER || code == REJECT_FILE_TRANSFER
    ensures RunsTo(sys, r, Opening(sys.server, r, name), start) && Starts(start, r)
    ensures P.LeadsTo(start, r, D.LosingRun(q, code), z)
    ensures !z.running && z.sender.queue == [C.BlockAt(r.file, 0)] && !P.CanArrive(z, r)
  {
    NegotiationEndsReady(sys, r, c, name);
    start :| RunsTo(sys, r, Opening(sys.server, r, name), start) && Starts(start, r) && SameSessions(sys, start);
    StaysThere(sys, start, q);
    z := StartedFileIsLost(start, r, q, code);
  }
}
