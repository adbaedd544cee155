/** The single-transfer lock of the server and the decision to start a transfer. */
module TransferLock {
  import opened Bytes
  import opened Messages
  import opened ServerModel
  import opened Relays

  function Senders(s: Server): (r: set<Id>) {
    set i | i in s.sessions && s.sessions[i].isFileTransferSender
  }

  /** An active transfer has a sender that is still connected. */
  predicate Owned(s: Server) {
    s.active ==> Senders(s) != {}
  }

  /** A transfer is active exactly while one session is its sender. */
  predicate Exact(s: Server) {
    if s.active then |Senders(s)| == 1 else Senders(s) == {}
  }

  /** A last block handled from a session that is not the sender of the active transfer. */
  predicate EndsForeignTransfer(s: Server, e: Event)
    requires Enabled(s, e)
  {
    e.Deliver? && e.msg.FileData? && e.msg.isLast && s.active && !s.sessions[e.id].isFileTransferSender && !Alone(s)
  }

  lemma SameSize(s: Server, c: Id, p: Peer)
    requires c in s.sessions
    ensures Alone(Update(s, c, p)) == Alone(s) && Update(s, c, p).sessions.Keys == s.sessions.Keys
  {
    assert Update(s, c, p).sessions.Keys == s.sessions.Keys;
    assert |Update(s, c, p).sessions| == |Update(s, c, p).sessions.Keys|;
  }

  /** How handling `m` from `c` turns the lock and the senders of `s` into those of `t`. */
  ghost predicate LockMoves(s: Server, c: Id, m: Message, t: Server) {
    if m.FileRequest? && !s.active && !Alone(s) then Senders(t) == Senders(s) + {c} && t.active
    else if m.FileData? && m.isLast && !Alone(s) then Senders(t) == Senders(s) - {c} && !t.active
    else Senders(t) == Senders(s) && t.active == s.active
  }

  lemma LockAfterRequest(s: Server, c: Id, m: Message, nameFree: bool)
    requires c in s.sessions && m.FileRequest?
    ensures LockMoves(s, c, m, Handle(s, c, m, nameFree))
  {
    var s1 := Update(s, c, Checked(s.sessions[c], FILE_REQUEST));
    SameSize(s, c, Checked(s.sessions[c], FILE_REQUEST));
    assert Senders(s1) == Senders(s);
    SendersAfterRequest(s1, c, m);
  }

  lemma SendersAfterRequest(s: Server, c: Id, m: Message)
    requires c in s.sessions && m.FileRequest?
    ensures var t := RelayRequest(s, c, m);
            t.active && c in t.sessions
              && Senders(Update(t, c, t.sessions[c].(fileTransferStatus := ACCEPT_FILE_TRANSFER))) == Senders(s) + {c}
  {
  }

  lemma LockAfterData(s: Server, c: Id, m: Message, nameFree: bool)
    requires c in s.sessions && m.FileData?
    ensures LockMoves(s, c, m, Handle(s, c, m, nameFree))
  {
    var s1 := Update(s, c, Checked(s.sessions[c], FILE_DATA));
    SameSize(s, c, Checked(s.sessions[c], FILE_DATA));
    assert Senders(s1) == Senders(s);
    SendersAfterData(s1, c, m);
  }

  lemma SendersAfterData(s: Server, c: Id, m: Message)
    requires c in s.sessions && m.FileData?
    ensures var t := RelayData(s, c, m);
            && c in t.sessions && t.active == (s.active && !(m.isLast && !Alone(s)))
            && Senders(t) == (if m.isLast && !Alone(s) then Senders(s) - {c} else Senders(s))
            && Senders(Update(t, c, t.sessions[c].(fileTransferStatus := FILE_TRANSFER_CANCELED))) == Senders(t)
  {
  }

  lemma LockAfterStatus(s: Server, c: Id, m: Message, nameFree: bool)
    requires c in s.sessions && m.Status?
    ensures LockMoves(s, c, m, Handle(s, c, m, nameFree))
  {
    var s1 := Update(s, c, Checked(s.sessions[c], STATUS));
    var s2 := Update(s1, c, s1.sessions[c].(fileTransferStatus := m.code));
    assert Senders(s2) == Senders(s);
    assert Senders(Decide(s2, c)) == Senders(s);
  }

  lemma LockAfterChat(s: Server, c: Id, m: Message, nameFree: bool)
    requires c in s.sessions && m.Chat?
    ensures LockMoves(s, c, m, Handle(s, c, m, nameFree))
  {
    var s1 := Update(s, c, Checked(s.sessions[c], CHAT));
    assert Senders(s1) == Senders(s);
    assert Senders(Broadcast(s1, c, ChatCopy(s1.sessions[c], m))) == Senders(s);
  }

  lemma LockAfterMessage(s: Server, c: Id, m: Message, nameFree: bool)
    requires c in s.sessions
    ensures LockMoves(s, c, m, Handle(s, c, m, nameFree))
  {
    match m {
      case FileRequest(_, _) => LockAfterRequest(s, c, m, nameFree);
      case FileData(_, _, _) => LockAfterData(s, c, m, nameFree);
      case Status(_) => LockAfterStatus(s, c, m, nameFree);
      case Chat(_, _) => LockAfterChat(s, c, m, nameFree);
      case Hello =>
      case Nickname(_) =>
      case Bye =>
    }
  }

  /** Who is a sender after a step, and whether the lock is held. */
  lemma LockStep(s: Server, e: Event)
    requires Enabled(s, e)
    ensures var t := Exec(s, e);
            match e
            case Join(_) => Senders(t) == Senders(s) && t.active == s.active
            case Leave(c) => Senders(t) == Senders(s) - {c} && t.active == (s.active && c !in Senders(s))
            case Write(_) => Senders(t) == Senders(s) && t.active == s.active
            case Deliver(c, m, _) => LockMoves(s, c, m, t)
  {
    if e.Deliver? {
      LockAfterMessage(s, e.id, e.msg, e.nameFree);
    }
  }

  /** The lock always has an owner, in every reachable state, whatever the clients send. */
  lemma {:induction false} LockIsOwned(s: Server, es: seq<Event>)
    requires Owned(s) && Legal(s, es)
    ensures Owned(Run(s, es))
    decreases |es|
  {
    if es != [] {
      LockStep(s, es[0]);
      var t := Exec(s, es[0]);
      assert Owned(t) by {
        if t.active && es[0].Leave? {
          var i :| i in Senders(s);
          assert i in Senders(s) - {es[0].id} || (es[0].id in Senders(s));
        }
      }
      LockIsOwned(t, es[1..]);
    }
  }

  /** The single owner is lost in a step exactly if a session that is not the sender ends the transfer. */
  lemma ExactStep(s: Server, e: Event)
    requires Exact(s) && Enabled(s, e)
    ensures Exact(Exec(s, e)) <==> !EndsForeignTransfer(s, e)
  {
    LockStep(s, e);
    if s.active {
      var x :| x in Senders(s);
      assert |Senders(s) - {x}| == 0;
      assert Senders(s) == {x};
    }
  }

  ghost predicate Disciplined(s: Server, es: seq<Event>)
    requires Legal(s, es)
    decreases |es|
  {
    es == [] || (!EndsForeignTransfer(s, es[0]) && Disciplined(Exec(s, es[0]), es[1..]))
  }

  /** The lock is exact in every state of a run in which only the sender ends its transfer. */
  lemma {:induction false} LockIsExact(s: Server, es: seq<Event>)
    requires Exact(s) && Legal(s, es) && Disciplined(s, es)
    ensures Exact(Run(s, es))
    decreases |es|
  {
    if es != [] {
      ExactStep(s, es[0]);
      LockIsExact(Exec(s, es[0]), es[1..]);
    }
  }

  const JOINED: seq<Event> := [Join(1), Join(2)]

  /** Two clients join, the first asks for a transfer, and the second, which never did, sends a last block. */
  const FOREIGN_END: seq<Event> := JOINED + [Deliver(1, NewFileRequest([], [97]), true)]
    + [Deliver(2, FileData(0, true, []), true)]

  /** Without that discipline the lock is lost: the transfer is over while its sender is still marked as one. */
  lemma ForeignEndBreaksLock()
    ensures Exact(INITIAL_SERVER) && Legal(INITIAL_SERVER, FOREIGN_END)
    ensures var t := Run(INITIAL_SERVER, FOREIGN_END); !t.active && Senders(t) == {1} && !Exact(t)
  {
    TwoJoin();
    var request, last := Deliver(1, NewFileRequest([], [97]), true), Deliver(2, FileData(0, true, []), true);
    var t := LockIsTaken(Run(INITIAL_SERVER, JOINED), request);
    RunAppended(INITIAL_SERVER, JOINED, request);
    LockIsLost(t, last);
    RunAppended(INITIAL_SERVER, JOINED + [request], last);
  }

  lemma LockIsTaken(s: Server, e: Event) returns (t: Server)
    requires {1, 2} <= s.sessions.Keys && !s.active && Senders(s) == {}
    requires e.Deliver? && e.id == 1 && e.msg.FileRequest? && e.msg.WellFormed()
    ensures Enabled(s, e) && t == Exec(s, e)
    ensures {1, 2} <= t.sessions.Keys && t.active && Senders(t) == {1}
  {
    t := Exec(s, e);
    TwoAreNotAlone(s, 1, 2);
    LockStep(s, e);
    OtherQueueOfRequest(s, 1, e.msg, e.nameFree, 2);
  }

  lemma LockIsLost(s: Server, e: Event)
    requires {1, 2} <= s.sessions.Keys && s.active && Senders(s) == {1}
    requires e.Deliver? && e.id == 2 && e.msg.FileData? && e.msg.isLast && e.msg.WellFormed()
    ensures Enabled(s, e) && !Exec(s, e).active && Senders(Exec(s, e)) == {1}
  {
    TwoAreNotAlone(s, 1, 2);
    LockStep(s, e);
    assert {1} - {2} == {1};
  }

  lemma TwoJoin()
    ensures Legal(INITIAL_SERVER, JOINED)
    ensures Run(INITIAL_SERVER, JOINED) == Server(2, false, map[1 := NewPeer(1), 2 := NewPeer(2)])
  {
    RunAppended(INITIAL_SERVER, [], Join(1));
    assert [] + [Join(1)] == [Join(1)];
    RunAppended(INITIAL_SERVER, [Join(1)], Join(2));
    assert [Join(1)] + [Join(2)] == JOINED;
  }

  // ---------- the start decision ----------

  /** The three statuses a session can have. */
  predicate Answers(s: Server) {
    forall i :: i in s.sessions ==>
      s.sessions[i].fileTransferStatus in {ACCEPT_FILE_TRANSFER, REJECT_FILE_TRANSFER, FILE_TRANSFER_CANCELED}
  }

  lemma AnswersAfterMessage(s: Server, c: Id, m: Message, nameFree: bool)
    requires Answers(s) && c in s.sessions
    ensures Answers(Handle(s, c, m, nameFree))
  {
    var s1 := StateChecked(s, c, m.Kind());
    assert Answers(s1);
    match m {
      case FileRequest(_, _) => AnswersAfterRequest(s1, c, m);
      case FileData(_, _, _) => AnswersAfterData(s1, c, m);
      case Status(code) => AnswersAfterStatus(s1, c, code, nameFree);
      case Chat(_, _) => assert Answers(Broadcast(s1, c, ChatCopy(s1.sessions[c], m)));
      case Hello =>
      case Nickname(_) =>
      case Bye =>
    }
  }

  lemma AnswersAfterStatus(s: Server, c: Id, code: int32, nameFree: bool)
    requires Answers(s) && c in s.sessions
    ensures Answers(Dispatch(s, c, Status(code), nameFree))
  {
    if code == ACCEPT_FILE_TRANSFER || code == REJECT_FILE_TRANSFER {
      assert Answers(Update(s, c, s.sessions[c].(fileTransferStatus := code)));
    }
  }

  lemma AnswersAfterRequest(s: Server, c: Id, m: Message)
    requires Answers(s) && c in s.sessions && m.FileRequest?
    ensures var t := RelayRequest(s, c, m);
            c in t.sessions && Answers(Update(t, c, t.sessions[c].(fileTransferStatus := ACCEPT_FILE_TRANSFER)))
  {
  }

  lemma AnswersAfterData(s: Server, c: Id, m: Message)
    requires Answers(s) && c in s.sessions && m.FileData?
    ensures var t := RelayData(s, c, m);
            c in t.sessions && Answers(t)
              && Answers(Update(t, c, t.sessions[c].(fileTransferStatus := FILE_TRANSFER_CANCELED)))
  {
  }

  lemma {:induction false} AnswersAlways(s: Server, es: seq<Event>)
    requires Answers(s) && Legal(s, es)
    ensures Answers(Run(s, es))
    decreases |es|
  {
    if es != [] {
      if es[0].Deliver? {
        AnswersAfterMessage(s, es[0].id, es[0].msg, es[0].nameFree);
      }
      AnswersAlways(Exec(s, es[0]), es[1..]);
    }
  }

  /** The server tells `told` the code and changes no other queue. */
  predicate OnlyTells(s: Server, t: Server, told: Id, code: int32) {
    && told in s.sessions && t.sessions.Keys == s.sessions.Keys
    && t.sessions[told].queue == Enqueue(s.sessions[told].queue, Status(code))
    && forall i :: i in s.sessions && i != told ==> t.sessions[i].queue == s.sessions[i].queue
  }

  /**
   * `t` is what the server makes of the response `code` of `c`. It is recorded; a verdict goes out exactly if no other
   * session is in Canceled status and another one is a sender; it goes to one sender, says Accept exactly if another
   * session than the responder accepts, and at that moment nobody at all is in Canceled status.
   */
  predicate Decided(s: Server, t: Server, c: Id, code: int32) {
    && c in s.sessions && t.sessions.Keys == s.sessions.Keys
    && t.sessions[c].fileTransferStatus == code
    && if SomeOther(s, c, FILE_TRANSFER_CANCELED) || Senders(s) - {c} == {} then
         forall i :: i in s.sessions ==> t.sessions[i].queue == s.sessions[i].queue
       else
         && (exists told :: told in Senders(s) - {c} && OnlyTells(s, t, told, VerdictOn(s, c)))
         && forall i :: i in t.sessions ==> t.sessions[i].fileTransferStatus != FILE_TRANSFER_CANCELED
  }

  function VerdictOn(s: Server, c: Id): (r: int32) {
    if SomeOther(s, c, ACCEPT_FILE_TRANSFER) then ACCEPT_FILE_TRANSFER else REJECT_FILE_TRANSFER
  }

  /**
   * A response during a transfer among several sessions is decided as declared, in spite of the early exit of the
   * loop.
   */
  lemma StartDecision(s: Server, c: Id, code: int32, nameFree: bool)
    requires c in s.sessions && s.active && !Alone(s)
    requires code == ACCEPT_FILE_TRANSFER || code == REJECT_FILE_TRANSFER
    ensures Decided(s, Handle(s, c, Status(code), nameFree), c, code)
  {
    var me := Checked(s.sessions[c], STATUS).(fileTransferStatus := code);
    SameSize(s, c, me);
    ResponseIsRecorded(s, c, code, nameFree);
    DecisionTells(s, Update(s, c, me), c, code);
  }

  lemma ResponseIsRecorded(s: Server, c: Id, code: int32, nameFree: bool)
    requires c in s.sessions && s.active
    requires code == ACCEPT_FILE_TRANSFER || code == REJECT_FILE_TRANSFER
    ensures Handle(s, c, Status(code), nameFree) ==
            Decide(Update(s, c, Checked(s.sessions[c], STATUS).(fileTransferStatus := code)), c)
  {
    var me := Checked(s.sessions[c], STATUS).(fileTransferStatus := code);
    assert Update(StateChecked(s, c, STATUS), c, me) == Update(s, c, me);
  }

  /** The decision on a server in which the response is recorded and nothing else has changed. */
  lemma DecisionTells(s: Server, s2: Server, c: Id, code: int32)
    requires c in s.sessions && s2.sessions.Keys == s.sessions.Keys && !Alone(s2)
    requires forall i :: i in s.sessions && i != c ==> s2.sessions[i] == s.sessions[i]
    requires s2.sessions[c].queue == s.sessions[c].queue && s2.sessions[c].fileTransferStatus == code
    requires code == ACCEPT_FILE_TRANSFER || code == REJECT_FILE_TRANSFER
    ensures Decided(s, Decide(s2, c), c, code)
  {
    OthersUnchanged(s, s2, c);
    if !SomeOther(s, c, FILE_TRANSFER_CANCELED) && Senders(s) - {c} != {} {
      assert OnlyTells(s, Decide(s2, c), Largest(OtherSenders(s2, c)), StartCode(s2, c));
    }
  }

  lemma OthersUnchanged(s: Server, t: Server, c: Id)
    requires c in s.sessions && t.sessions.Keys == s.sessions.Keys
    requires forall i :: i in s.sessions && i != c ==> t.sessions[i] == s.sessions[i]
    ensures OtherSenders(t, c) == Senders(s) - {c}
    ensures SomeOther(t, c, FILE_TRANSFER_CANCELED) == SomeOther(s, c, FILE_TRANSFER_CANCELED)
    ensures SomeOther(t, c, ACCEPT_FILE_TRANSFER) == SomeOther(s, c, ACCEPT_FILE_TRANSFER)
  {
  }

  /**
   * Over whole runs from the start of the server: a session only ever gets a status out of somebody else's message
   * while it is the sender of the active transfer, and every session there is then in Accept or Reject status.
   */
  lemma {:induction false} VerdictNeedsEverybody(es: seq<Event>, e: Event, p: Id)
    requires Legal(INITIAL_SERVER, es) && Enabled(Run(INITIAL_SERVER, es), e)
    requires e.Deliver? && e.msg.Status? && e.id != p && p in Run(INITIAL_SERVER, es).sessions
    requires Gain(Run(INITIAL_SERVER, es), e, p) != []
    ensures var s, t := Run(INITIAL_SERVER, es), Exec(Run(INITIAL_SERVER, es), e);
            && s.active && p in Senders(s)
            && forall i :: i in t.sessions ==>
              t.sessions[i].fileTransferStatus in {ACCEPT_FILE_TRANSFER, REJECT_FILE_TRANSFER}
  {
    var s := Run(INITIAL_SERVER, es);
    var c, m := e.id, e.msg;
    AnswersAlways(INITIAL_SERVER, es);
    AnswersAfterMessage(s, c, m, e.nameFree);
    TwoAreNotAlone(s, c, p);
    OtherQueueOfStatus(s, c, m, e.nameFree, p);
    StartDecision(s, c, m.code, e.nameFree);
  }
}
