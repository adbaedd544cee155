/**
 * The server as its clients could describe it, without its data structures: who is connected, who holds the lock, and
 * the status, the name, the state and the queue of each session, each computed from the events alone.
 */
module History {
  import opened Bytes
  import opened Messages
  import opened ServerModel
  import opened Relays
  import opened TransferLock
  import opened Sessions

  function Before(es: seq<Event>): (r: seq<Event>)
    requires es != []
  {
    es[..|es| - 1]
  }

  function Latest(es: seq<Event>): (r: Event)
    requires es != []
  {
    es[|es| - 1]
  }

  // ---------- connections and the lock ----------

  function Joins(es: seq<Event>): (n: nat)
    decreases |es|
  {
    if es == [] then 0 else Joins(Before(es)) + if Latest(es).Join? then 1 else 0
  }

  function Members(es: seq<Event>): (r: set<Id>)
    decreases |es|
  {
    if es == [] then {}
    else
      match Latest(es)
      case Join(c) => Members(Before(es)) + {c}
      case Leave(c) => Members(Before(es)) - {c}
      case _ => Members(Before(es))
  }

  /** A request is granted if no transfer is active and its client is not alone. */
  predicate Granted(es: seq<Event>, e: Event)
    decreases |es|, 1
  {
    e.Deliver? && e.msg.FileRequest? && !Held(es) && |Members(es)| > 1
  }

  /** Anybody's last block releases the lock, if there is somebody to relay it to. */
  predicate Released(es: seq<Event>, e: Event) {
    e.Deliver? && e.msg.FileData? && e.msg.isLast && |Members(es)| > 1
  }

  predicate Held(es: seq<Event>)
    decreases |es|, 0
  {
    es != [] && (
      Granted(Before(es), Latest(es))
      || (Held(Before(es)) && !Released(Before(es), Latest(es))
          && !(Latest(es).Leave? && Latest(es).id in Marked(Before(es)))))
  }

  /** Who has had a request granted and neither sent a last block since nor left. */
  function Marked(es: seq<Event>): (r: set<Id>)
    decreases |es|, 0
  {
    if es == [] then {}
    else
      var e, before := Latest(es), Marked(Before(es));
      if Granted(Before(es), e) then before + {e.id}
      else if Released(Before(es), e) || e.Leave? then before - {e.id}
      else before
  }

  /** What the events say is what the server has. */
  predicate Agrees(s: Server, es: seq<Event>) {
    s.counter == Joins(es) && s.sessions.Keys == Members(es) && s.active == Held(es) && Senders(s) == Marked(es)
  }

  lemma {:induction false} LastStep(s: Server, es: seq<Event>)
    requires Legal(s, es) && es != []
    ensures Legal(s, Before(es)) && Enabled(Run(s, Before(es)), Latest(es))
    ensures Run(s, es) == Exec(Run(s, Before(es)), Latest(es))
    decreases |es|
  {
    if |es| > 1 {
      LastStep(Exec(s, es[0]), es[1..]);
      assert Before(es)[0] == es[0] && Before(es)[1..] == Before(es[1..]) && Latest(es[1..]) == Latest(es);
    } else {
      assert Before(es) == [] && es[1..] == [];
    }
  }

  lemma OneMore(es: seq<Event>, e: Event)
    ensures Before(es + [e]) == es && Latest(es + [e]) == e
  {
  }

  lemma {:induction false} AloneIsOne(s: Server, es: seq<Event>, c: Id)
    requires s.sessions.Keys == Members(es) && c in s.sessions
    ensures Alone(s) <==> !(|Members(es)| > 1)
  {
    assert |s.sessions| == |s.sessions.Keys|;
    assert c in Members(es);
  }

  lemma {:induction false} AgreesOn(s: Server, es: seq<Event>, e: Event)
    requires Agrees(s, es) && Enabled(s, e)
    ensures Agrees(Exec(s, e), es + [e])
  {
    OneMore(es, e);
    LockStep(s, e);
    CounterStep(s, e);
    if e.Deliver? {
      AloneIsOne(s, es, e.id);
      OwnQueue(s, e.id, e.msg, e.nameFree);
    } else if e.Leave? {
      assert Removed(s, e.id).sessions.Keys == s.sessions.Keys - {e.id};
    }
  }

  /** After every run the lock, its senders and the connections are as the events say. */
  lemma {:induction false} LockIsHistory(es: seq<Event>)
    requires Legal(INITIAL_SERVER, es)
    ensures Agrees(Run(INITIAL_SERVER, es), es)
    decreases |es|
  {
    if es == [] {
      assert Senders(INITIAL_SERVER) == {};
    } else {
      LastStep(INITIAL_SERVER, es);
      LockIsHistory(Before(es));
      assert Before(es) + [Latest(es)] == es;
      AgreesOn(Run(INITIAL_SERVER, Before(es)), Before(es), Latest(es));
    }
  }

  lemma {:induction false} MembersAreThere(es: seq<Event>, c: Id)
    requires Legal(INITIAL_SERVER, es)
    ensures c in Run(INITIAL_SERVER, es).sessions <==> c in Members(es)
  {
    LockIsHistory(es);
  }

  // ---------- what one session has ----------

  /** An answer that counts: during a transfer. */
  predicate Answered(es: seq<Event>, e: Event) {
    e.Deliver? && e.msg.Status? && e.msg.code in {ACCEPT_FILE_TRANSFER, REJECT_FILE_TRANSFER} && Held(es)
  }

  /** The status of `c`: its last answer, Accept since its last granted request, Canceled since its last block. */
  function StatusOf(es: seq<Event>, c: Id): (code: int32)
    decreases |es|
  {
    if es == [] || Latest(es) == Join(c) then FILE_TRANSFER_CANCELED
    else
      var e := Latest(es);
      if e.Deliver? && e.id == c && Answered(Before(es), e) then e.msg.code
      else if e.Deliver? && e.id == c && Granted(Before(es), e) then ACCEPT_FILE_TRANSFER
      else if e.Deliver? && e.id == c && e.msg.FileData? && e.msg.isLast then FILE_TRANSFER_CANCELED
      else StatusOf(Before(es), c)
  }

  /** The name of `c`: the last one it asked for that was free, or the default one with the number of its join. */
  function NameOf(es: seq<Event>, c: Id): (name: seq<byte>)
    decreases |es|
  {
    if es == [] then []
    else
      var e := Latest(es);
      if e == Join(c) then DefaultName(Joins(es))
      else if e.Deliver? && e.id == c && e.msg.Nickname? && e.nameFree then Take(CString(e.msg.nickname), 35)
      else NameOf(Before(es), c)
  }

  /** The state messages of `c` since its last join. */
  function WordOf(es: seq<Event>, c: Id): (w: seq<Kind>)
    decreases |es|
  {
    if es == [] || Latest(es) == Join(c) then []
    else
      var e := Latest(es);
      WordOf(Before(es), c)
      + if e.Deliver? && e.id == c && (e.msg.Hello? || e.msg.Nickname? || e.msg.Bye?) then [e.msg.Kind()] else []
  }

  /** What the events say of the session `c` but for its queue. */
  predicate Describes(p: Peer, es: seq<Event>, c: Id) {
    && p.fileTransferStatus == StatusOf(es, c) && p.nickName == NameOf(es, c)
    && p.state == StateAfter(START, WordOf(es, c)) && p.disconnected == SomeRefused(START, WordOf(es, c))
  }

  // ---------- one step ----------

  /** A session's own message, apart from what the other sessions notice. */
  lemma OwnStatus(s: Server, c: Id, m: Message, nameFree: bool)
    requires c in s.sessions
    ensures c in Handle(s, c, m, nameFree).sessions
    ensures Handle(s, c, m, nameFree).sessions[c].fileTransferStatus ==
            if m.Status? && m.code in {ACCEPT_FILE_TRANSFER, REJECT_FILE_TRANSFER} && s.active then m.code
            else if m.FileRequest? && !s.active && !Alone(s) then ACCEPT_FILE_TRANSFER
            else if m.FileData? && m.isLast then FILE_TRANSFER_CANCELED
            else s.sessions[c].fileTransferStatus
  {
    SameSize(s, c, Checked(s.sessions[c], m.Kind()));
    match m {
      case Status(code) => OwnStatusAfterStatus(s, c, m, nameFree);
      case FileRequest(_, _) => OwnStatusAfterRequest(s, c, m, nameFree);
      case FileData(_, _, _) => OwnStatusAfterData(s, c, m, nameFree);
      case Chat(_, _) =>
      case Hello =>
      case Nickname(_) =>
      case Bye =>
    }
  }

  lemma OwnStatusAfterStatus(s: Server, c: Id, m: Message, nameFree: bool)
    requires c in s.sessions && m.Status?
    ensures c in Handle(s, c, m, nameFree).sessions
    ensures Handle(s, c, m, nameFree).sessions[c].fileTransferStatus ==
            if m.code in {ACCEPT_FILE_TRANSFER, REJECT_FILE_TRANSFER} && s.active then m.code
            else s.sessions[c].fileTransferStatus
  {
    var s1 := StateChecked(s, c, STATUS);
    var s2 := Update(s1, c, s1.sessions[c].(fileTransferStatus := m.code));
    assert Decide(s2, c).sessions[c] == s2.sessions[c];
  }

  lemma OwnStatusAfterRequest(s: Server, c: Id, m: Message, nameFree: bool)
    requires c in s.sessions && m.FileRequest?
    ensures c in Handle(s, c, m, nameFree).sessions
    ensures Handle(s, c, m, nameFree).sessions[c].fileTransferStatus ==
            if !s.active && !Alone(s) then ACCEPT_FILE_TRANSFER else s.sessions[c].fileTransferStatus
  {
    var s1 := StateChecked(s, c, FILE_REQUEST);
    SameSize(s, c, Checked(s.sessions[c], FILE_REQUEST));
    assert c in RelayRequest(s1, c, m).sessions;
  }

  lemma OwnStatusAfterData(s: Server, c: Id, m: Message, nameFree: bool)
    requires c in s.sessions && m.FileData?
    ensures c in Handle(s, c, m, nameFree).sessions
    ensures Handle(s, c, m, nameFree).sessions[c].fileTransferStatus ==
            if m.isLast then FILE_TRANSFER_CANCELED else s.sessions[c].fileTransferStatus
  {
    var s1 := StateChecked(s, c, FILE_DATA);
    var t := RelayData(s1, c, m);
    assert c in t.sessions && t.sessions[c].fileTransferStatus == s1.sessions[c].fileTransferStatus;
  }

  lemma OwnName(s: Server, c: Id, m: Message, nameFree: bool)
    requires c in s.sessions
    ensures c in Handle(s, c, m, nameFree).sessions
    ensures Handle(s, c, m, nameFree).sessions[c].nickName ==
            if m.Nickname? && nameFree then Take(CString(m.nickname), 35) else s.sessions[c].nickName
  {
    var s1 := StateChecked(s, c, m.Kind());
    match m {
      case Status(code) =>
        var s2 := Update(s1, c, s1.sessions[c].(fileTransferStatus := code));
        assert Decide(s2, c).sessions[c] == s2.sessions[c];
      case FileRequest(_, _) => assert RelayRequest(s1, c, m).sessions[c].nickName == s1.sessions[c].nickName;
      case FileData(_, _, _) => assert RelayData(s1, c, m).sessions[c].nickName == s1.sessions[c].nickName;
      case Chat(_, _) =>
      case Hello =>
      case Nickname(_) =>
      case Bye =>
    }
  }

  lemma DefaultNameFits(n: nat)
    requires n <= MAX_CONNECTIONS
    ensures |DefaultName(n)| <= 35
  {
    DefaultNameIsKept(n);
  }

  /** Nobody else's step changes anything of a session but its queue. */
  lemma OthersLeave(s: Server, e: Event, c: Id)
    requires Enabled(s, e) && c in s.sessions && e != Leave(c) && !(e.Deliver? && e.id == c)
    ensures c in Exec(s, e).sessions
    ensures Exec(s, e).sessions[c].(queue := []) == s.sessions[c].(queue := [])
  {
    if e.Deliver? {
      if e.msg.Status? {
        OtherQueueOfStatus(s, e.id, e.msg, e.nameFree, c);
      } else {
        OtherQueue(s, e.id, e.msg, e.nameFree, c);
      }
    }
  }

  lemma {:induction false} StateAfterMore(state: ClientState, w: seq<Kind>, k: Kind)
    ensures StateAfter(state, w + [k]) == NextState(StateAfter(state, w), k)
    ensures SomeRefused(state, w + [k]) == (SomeRefused(state, w) || Refuses(StateAfter(state, w), k))
    decreases |w|
  {
    if w == [] {
      assert w + [k] == [k] && [k][1..] == [];
    } else {
      assert (w + [k])[0] == w[0] && (w + [k])[1..] == w[1..] + [k];
      StateAfterMore(NextState(state, w[0]), w[1..], k);
    }
  }

  lemma {:induction false} DescribesOn(s: Server, es: seq<Event>, e: Event, c: Id)
    requires Agrees(s, es) && Enabled(s, e) && s.counter <= MAX_CONNECTIONS && c in Exec(s, e).sessions
    requires c in s.sessions ==> Describes(s.sessions[c], es, c)
    ensures Describes(Exec(s, e).sessions[c], es + [e], c)
  {
    if e == Join(c) {
      OneMore(es, e);
      DefaultNameIsKept(s.counter + 1);
    } else {
      StaysOrJoins(s, e, c);
      if e.Deliver? && e.id == c {
        DescribesOwn(s, es, e, c);
      } else {
        DescribesOther(s, es, e, c);
      }
    }
  }

  lemma {:induction false} DescribesOwn(s: Server, es: seq<Event>, e: Event, c: Id)
    requires Agrees(s, es) && Enabled(s, e) && e.Deliver? && e.id == c && c in Exec(s, e).sessions
    requires Describes(s.sessions[c], es, c)
    ensures Describes(Exec(s, e).sessions[c], es + [e], c)
  {
    StatusGoesOn(s, es, e, c);
    NameGoesOn(s, es, e, c);
    StateGoesOn(s, es, e, c);
  }

  lemma {:induction false} StatusGoesOn(s: Server, es: seq<Event>, e: Event, c: Id)
    requires Agrees(s, es) && e.Deliver? && e.id == c && c in s.sessions
    requires s.sessions[c].fileTransferStatus == StatusOf(es, c)
    ensures c in Handle(s, c, e.msg, e.nameFree).sessions
    ensures Handle(s, c, e.msg, e.nameFree).sessions[c].fileTransferStatus == StatusOf(es + [e], c)
  {
    OneMore(es, e);
    AloneIsOne(s, es, c);
    OwnStatus(s, c, e.msg, e.nameFree);
  }

  lemma {:induction false} NameGoesOn(s: Server, es: seq<Event>, e: Event, c: Id)
    requires e.Deliver? && e.id == c && c in s.sessions && s.sessions[c].nickName == NameOf(es, c)
    ensures c in Handle(s, c, e.msg, e.nameFree).sessions
    ensures Handle(s, c, e.msg, e.nameFree).sessions[c].nickName == NameOf(es + [e], c)
  {
    OneMore(es, e);
    OwnName(s, c, e.msg, e.nameFree);
  }

  lemma {:induction false} StateGoesOn(s: Server, es: seq<Event>, e: Event, c: Id)
    requires e.Deliver? && e.id == c && c in s.sessions && s.sessions[c].state == StateAfter(START, WordOf(es, c))
    requires s.sessions[c].disconnected == SomeRefused(START, WordOf(es, c))
    ensures c in Handle(s, c, e.msg, e.nameFree).sessions
    ensures var p := Handle(s, c, e.msg, e.nameFree).sessions[c];
            && p.state == StateAfter(START, WordOf(es + [e], c))
            && p.disconnected == SomeRefused(START, WordOf(es + [e], c))
  {
    OneMore(es, e);
    OwnSessionStep(s, c, e.msg, e.nameFree);
    StateAfterMore(START, WordOf(es, c), e.msg.Kind());
    assert WordOf(es, c) + [] == WordOf(es, c);
  }

  lemma {:induction false} DescribesOther(s: Server, es: seq<Event>, e: Event, c: Id)
    requires Enabled(s, e) && c in s.sessions && c in Exec(s, e).sessions && e != Join(c)
    requires !(e.Deliver? && e.id == c) && Describes(s.sessions[c], es, c)
    ensures Describes(Exec(s, e).sessions[c], es + [e], c)
  {
    OneMore(es, e);
    StaysOrJoins(s, e, c);
    OthersLeave(s, e, c);
    assert WordOf(es, c) + [] == WordOf(es, c);
  }

  lemma StaysOrJoins(s: Server, e: Event, c: Id)
    requires Enabled(s, e) && c in Exec(s, e).sessions && e != Join(c)
    ensures c in s.sessions && e != Leave(c)
  {
    if e.Deliver? {
      OwnQueue(s, e.id, e.msg, e.nameFree);
    }
  }

  lemma {:induction false} SessionFollows(es: seq<Event>, e: Event, c: Id)
    requires Legal(INITIAL_SERVER, es) && Enabled(Run(INITIAL_SERVER, es), e)
    requires var s := Run(INITIAL_SERVER, es);
             c in Exec(s, e).sessions && (c in s.sessions ==> Describes(s.sessions[c], es, c))
    ensures Describes(Exec(Run(INITIAL_SERVER, es), e).sessions[c], es + [e], c)
  {
    LockIsHistory(es);
    CounterIsBounded(es);
    DescribesOn(Run(INITIAL_SERVER, es), es, e, c);
  }

  /**
   * After every run each session's status, name and state are those that its own messages since its last join
   * determine.
   */
  lemma {:induction false} SessionIsHistory(es: seq<Event>, c: Id)
    requires Legal(INITIAL_SERVER, es) && c in Members(es)
    ensures c in Run(INITIAL_SERVER, es).sessions && Describes(Run(INITIAL_SERVER, es).sessions[c], es, c)
    decreases |es|
  {
    var before, e := Before(es), Latest(es);
    LastStep(INITIAL_SERVER, es);
    MembersAreThere(es, c);
    MembersAreThere(before, c);
    if c in Members(before) {
      SessionIsHistory(before, c);
    }
    assert before + [e] == es;
    SessionFollows(before, e, c);
  }

  lemma {:induction false} CounterIsBounded(es: seq<Event>)
    requires Legal(INITIAL_SERVER, es)
    ensures Run(INITIAL_SERVER, es).counter <= MAX_CONNECTIONS
    decreases |es|
  {
    if es != [] {
      LastStep(INITIAL_SERVER, es);
      CounterIsBounded(Before(es));
      CounterStep(Run(INITIAL_SERVER, Before(es)), Latest(es));
    }
  }

  // ---------- a verdict means that everybody has spoken ----------

  /** `c` has answered during a transfer or had a request granted, and has neither joined nor ended a file since. */
  predicate Spoke(es: seq<Event>, c: Id)
    decreases |es|
  {
    es != [] && Latest(es) != Join(c) && (
      var e := Latest(es);
      if e.Deliver? && e.id == c && (Answered(Before(es), e) || Granted(Before(es), e)) then true
      else !(e.Deliver? && e.id == c && e.msg.FileData? && e.msg.isLast) && Spoke(Before(es), c))
  }

  lemma {:induction false} StatusMeansSpoke(es: seq<Event>, c: Id)
    requires StatusOf(es, c) != FILE_TRANSFER_CANCELED
    ensures Spoke(es, c)
    decreases |es|
  {
    if !(Latest(es).Deliver? && Latest(es).id == c
         && (Answered(Before(es), Latest(es)) || Granted(Before(es), Latest(es)))) {
      StatusMeansSpoke(Before(es), c);
    }
  }

  /**
   * Over whole runs: when a session is told something in response to somebody else's status, every session there is,
   * the one that responds included, has answered during a transfer or had a request granted since it joined, and has
   * sent no last block after that.
   */
  lemma {:induction false} VerdictMeansAllSpoke(es: seq<Event>, e: Event, p: Id, c: Id)
    requires Legal(INITIAL_SERVER, es) && Enabled(Run(INITIAL_SERVER, es), e)
    requires e.Deliver? && e.msg.Status? && e.id != p && p in Members(es) && c in Members(es)
    requires p in Run(INITIAL_SERVER, es).sessions && Gain(Run(INITIAL_SERVER, es), e, p) != []
    ensures Held(es) && p in Marked(es) && Spoke(es + [e], c)
  {
    RunAppended(INITIAL_SERVER, es, e);
    OneMore(es, e);
    LockIsHistory(es);
    VerdictNeedsEverybody(es, e, p);
    SessionIsHistory(es + [e], c);
    StatusMeansSpoke(es + [e], c);
  }

  /** What the events say of all sessions but for their queues. */
  predicate Described(s: Server, es: seq<Event>) {
    Agrees(s, es) && forall i :: i in s.sessions ==> Describes(s.sessions[i], es, i)
  }

  lemma {:induction false} ServerIsDescribed(es: seq<Event>)
    requires Legal(INITIAL_SERVER, es)
    ensures Described(Run(INITIAL_SERVER, es), es)
  {
    LockIsHistory(es);
    forall i | i in Run(INITIAL_SERVER, es).sessions ensures Describes(Run(INITIAL_SERVER, es).sessions[i], es, i) {
      SessionIsHistory(es, i);
    }
  }

  // ---------- the queues ----------

  /** A queue takes a message while it holds 40 at most. */
  function Pushed(q: seq<Message>, ms: seq<Message>): (r: seq<Message>)
    decreases |ms|
  {
    if ms == [] then q else Pushed(if |q| <= 40 then q + [ms[0]] else q, ms[1..])
  }

  /** What a session is told in reply to its own message, given its name, the lock and whether it is alone. */
  function Answer(m: Message, nameFree: bool, name: seq<byte>, held: bool, alone: bool): (r: seq<Message>) {
    match m
    case Hello => [NewNickname(name)]
    case Nickname(field) =>
      [if nameFree then NewNickname(Take(CString(field), 35)) else Status(NICKNAME_ALREADY_REGISTERED)]
    case Status(code) =>
      if code in {ACCEPT_FILE_TRANSFER, REJECT_FILE_TRANSFER} && !held then [Status(FILE_TRANSFER_CANCELED)] else []
    case Chat(_, _) => if alone then [Status(CHATTING_ALONE)] else []
    case FileRequest(_, _) =>
      if held then [Status(FILE_TRANSFER_CANCELED)] else if alone then [Status(CHATTING_ALONE)] else []
    case _ => []
  }

  /** The goodbye to a session whose state messages have just left the language. */
  function Goodbye(es: seq<Event>, e: Event): (r: seq<Message>) {
    if e.Deliver? && (e.msg.Hello? || e.msg.Nickname? || e.msg.Bye?)
       && InLanguage(WordOf(es, e.id)) && !InLanguage(WordOf(es, e.id) + [e.msg.Kind()])
    then [Bye] else []
  }

  /** Everybody but the one who answers has answered before. */
  predicate OthersSpoke(es: seq<Event>, c: Id) {
    forall i :: i in Members(es) && i != c ==> StatusOf(es, i) != FILE_TRANSFER_CANCELED
  }

  predicate SomeOtherAccepts(es: seq<Event>, c: Id) {
    exists i :: i in Members(es) && i != c && StatusOf(es, i) == ACCEPT_FILE_TRANSFER
  }

  /** Of several senders the one with the highest address is told. */
  predicate IsTold(es: seq<Event>, c: Id, p: Id) {
    p in Marked(es) && p != c && forall i :: i in Marked(es) && i != c ==> i <= p
  }

  function Verdict(es: seq<Event>, e: Event, p: Id): (r: seq<Message>)
    requires e.Deliver?
  {
    if Answered(es, e) && OthersSpoke(es, e.id) && IsTold(es, e.id, p)
    then [Status(if SomeOtherAccepts(es, e.id) then ACCEPT_FILE_TRANSFER else REJECT_FILE_TRANSFER)] else []
  }

  /** What a session is sent because of somebody else's message. */
  function Copied(es: seq<Event>, e: Event, p: Id): (r: seq<Message>)
    requires e.Deliver?
  {
    match e.msg
    case Chat(_, text) => [NewChat(NameOf(es, e.id), CString(text))]
    case FileData(_, _, _) => if StatusOf(es, p) == ACCEPT_FILE_TRANSFER then [e.msg] else []
    case FileRequest(_, path) =>
      if Granted(es, e) then [NewFileRequest(NameOf(es, e.id), BaseName(CString(path)))] else []
    case Status(_) => Verdict(es, e, p)
    case _ => []
  }

  /** What a step puts into the queue of `p`, if it has room. */
  function Sent(es: seq<Event>, e: Event, p: Id): (r: seq<Message>) {
    if !e.Deliver? then []
    else if e.id == p then
      Goodbye(es, e) + Answer(e.msg, e.nameFree, NameOf(es, p), Held(es), |Members(es)| <= 1)
    else Copied(es, e, p)
  }

  function QueueOf(es: seq<Event>, c: Id): (q: seq<Message>)
    decreases |es|
  {
    if es == [] || Latest(es) == Join(c) then []
    else
      var q := QueueOf(Before(es), c);
      if Latest(es) == Write(c) then (if q == [] then [] else q[1..]) else Pushed(q, Sent(Before(es), Latest(es), c))
  }

  lemma {:induction false} PushedOne(q: seq<Message>, m: Message)
    ensures Pushed(q, [m]) == Enqueue(q, m) && Pushed(q, []) == q
  {
    assert [m][1..] == [];
  }

  lemma {:induction false} PushedAfterBye(q: seq<Message>, ms: seq<Message>)
    ensures Pushed(q, [Bye] + ms) == Pushed(Enqueue(q, Bye), ms)
  {
    assert ([Bye] + ms)[1..] == ms;
  }

  lemma {:induction false} CheckedQueue(p: Peer, k: Kind, ms: seq<Message>)
    ensures Pushed(Checked(p, k).queue, ms) ==
            Pushed(p.queue, (if Refuses(p.state, k) && !p.disconnected then [Bye] else []) + ms)
  {
    PushedAfterBye(p.queue, ms);
    assert [] + ms == ms;
  }

  /** The replies to a message whose state check has been made. */
  lemma AnswerIsQueued(s: Server, c: Id, m: Message, nameFree: bool)
    requires c in s.sessions
    ensures c in Dispatch(s, c, m, nameFree).sessions
    ensures Dispatch(s, c, m, nameFree).sessions[c].queue ==
            Pushed(s.sessions[c].queue, Answer(m, nameFree, s.sessions[c].nickName, s.active, Alone(s)))
  {
    var q := s.sessions[c].queue;
    match m {
      case Hello => PushedOne(q, NewNickname(s.sessions[c].nickName));
      case Nickname(field) =>
        PushedOne(q, NewNickname(Take(CString(field), 35)));
        PushedOne(q, Status(NICKNAME_ALREADY_REGISTERED));
      case Status(code) => StatusIsAnswered(s, c, code, nameFree);
      case FileRequest(_, _) => RequestIsAnswered(s, c, m, nameFree);
      case FileData(_, _, _) => assert RelayData(s, c, m).sessions[c].queue == q;
      case Chat(_, _) => PushedOne(q, Status(CHATTING_ALONE));
      case Bye =>
    }
  }

  lemma StatusIsAnswered(s: Server, c: Id, code: int32, nameFree: bool)
    requires c in s.sessions
    ensures var m, t := Status(code), Dispatch(s, c, Status(code), nameFree);
            && c in t.sessions
            && t.sessions[c].queue ==
               Pushed(s.sessions[c].queue, Answer(m, nameFree, s.sessions[c].nickName, s.active, Alone(s)))
  {
    PushedOne(s.sessions[c].queue, Status(FILE_TRANSFER_CANCELED));
    var answered := Update(s, c, s.sessions[c].(fileTransferStatus := code));
    assert Decide(answered, c).sessions[c] == answered.sessions[c];
  }

  lemma RequestIsAnswered(s: Server, c: Id, m: Message, nameFree: bool)
    requires c in s.sessions && m.FileRequest?
    ensures var t := Dispatch(s, c, m, nameFree);
            && c in t.sessions
            && t.sessions[c].queue ==
               Pushed(s.sessions[c].queue, Answer(m, nameFree, s.sessions[c].nickName, s.active, Alone(s)))
  {
    var q := s.sessions[c].queue;
    PushedOne(q, Status(FILE_TRANSFER_CANCELED));
    PushedOne(q, Status(CHATTING_ALONE));
    assert RelayRequest(s, c, m).sessions[c].queue == q;
  }

  lemma OwnQueueGets(s: Server, c: Id, m: Message, nameFree: bool)
    requires c in s.sessions
    ensures c in Handle(s, c, m, nameFree).sessions
    ensures var p := s.sessions[c];
            Handle(s, c, m, nameFree).sessions[c].queue ==
            Pushed(p.queue, (if Refuses(p.state, m.Kind()) && !p.disconnected then [Bye] else [])
                            + Answer(m, nameFree, p.nickName, s.active, Alone(s)))
  {
    var s1 := StateChecked(s, c, m.Kind());
    SameSize(s, c, Checked(s.sessions[c], m.Kind()));
    AnswerIsQueued(s1, c, m, nameFree);
    CheckedQueue(s.sessions[c], m.Kind(), Answer(m, nameFree, s.sessions[c].nickName, s.active, Alone(s)));
  }

  lemma {:induction false} WordOfChanges(es: seq<Event>, c: Id)
    ensures Changing(WordOf(es, c))
    decreases |es|
  {
    if es != [] && Latest(es) != Join(c) {
      WordOfChanges(Before(es), c);
    }
  }

  lemma {:induction false} GoodbyeIs(es: seq<Event>, e: Event, p: Peer)
    requires e.Deliver? && Describes(p, es, e.id)
    ensures Goodbye(es, e) == if Refuses(p.state, e.msg.Kind()) && !p.disconnected then [Bye] else []
  {
    var w, k := WordOf(es, e.id), e.msg.Kind();
    WordOfChanges(es, e.id);
    AutomatonLanguage(w);
    if e.msg.Hello? || e.msg.Nickname? || e.msg.Bye? {
      AutomatonLanguage(w + [k]);
      StateAfterMore(START, w, k);
    }
  }

  /** The verdict on an answer, as the code comes to it. */
  lemma DecisionIs(s: Server, c: Id, p: Id)
    requires c in s.sessions && p in s.sessions && c != p
    ensures Decide(s, c).sessions.Keys == s.sessions.Keys
    ensures Decide(s, c).sessions[p].queue ==
            if !SomeOther(s, c, FILE_TRANSFER_CANCELED) && p in OtherSenders(s, c)
               && (forall i :: i in OtherSenders(s, c) ==> i <= p)
            then Enqueue(s.sessions[p].queue, Status(StartCode(s, c))) else s.sessions[p].queue
  {
    TwoAreNotAlone(s, c, p);
  }

  lemma AnswerIsDecided(s: Server, c: Id, p: Id, code: int32, nameFree: bool)
    requires c in s.sessions && p in s.sessions && c != p
    ensures var t := Handle(s, c, Status(code), nameFree);
            && p in t.sessions
            && t.sessions[p].queue ==
               if code in {ACCEPT_FILE_TRANSFER, REJECT_FILE_TRANSFER} && s.active
                  && !SomeOther(s, c, FILE_TRANSFER_CANCELED) && p in Senders(s)
                  && (forall i :: i in Senders(s) && i != c ==> i <= p)
               then Enqueue(s.sessions[p].queue,
                            Status(if SomeOther(s, c, ACCEPT_FILE_TRANSFER) then ACCEPT_FILE_TRANSFER
                                   else REJECT_FILE_TRANSFER))
               else s.sessions[p].queue
  {
    OtherQueueOfStatus(s, c, Status(code), nameFree, p);
    if code in {ACCEPT_FILE_TRANSFER, REJECT_FILE_TRANSFER} && s.active {
      var s2 := Update(s, c, Checked(s.sessions[c], STATUS).(fileTransferStatus := code));
      ResponseIsRecorded(s, c, code, nameFree);
      SameSize(s, c, s2.sessions[c]);
      OthersUnchanged(s, s2, c);
      DecisionIs(s2, c, p);
      assert forall i :: i in OtherSenders(s2, c) <==> i in Senders(s) && i != c;
    }
  }

  /** The statuses of the others, as the events have them. */
  lemma OthersAre(s: Server, es: seq<Event>, c: Id)
    requires Described(s, es)
    ensures SomeOther(s, c, FILE_TRANSFER_CANCELED) <==> !OthersSpoke(es, c)
    ensures SomeOther(s, c, ACCEPT_FILE_TRANSFER) <==> SomeOtherAccepts(es, c)
  {
    assert forall i :: i in s.sessions <==> i in Members(es);
    forall i | i in s.sessions ensures s.sessions[i].fileTransferStatus == StatusOf(es, i) {
      assert Describes(s.sessions[i], es, i);
    }
  }

  lemma CopyIsQueued(s: Server, es: seq<Event>, e: Event, p: Id)
    requires Described(s, es) && Enabled(s, e)
    requires e.Deliver? && p in s.sessions && e.id != p
    ensures p in Exec(s, e).sessions && Exec(s, e).sessions[p].queue == Pushed(s.sessions[p].queue, Copied(es, e, p))
  {
    var q := s.sessions[p].queue;
    AloneIsOne(s, es, p);
    TwoAreNotAlone(s, e.id, p);
    assert q + [] == q && Describes(s.sessions[p], es, p) && Describes(s.sessions[e.id], es, e.id);
    if e.msg.Status? {
      AnswerIsDecided(s, e.id, p, e.msg.code, e.nameFree);
      OthersAre(s, es, e.id);
      PushedOne(q, Status(ACCEPT_FILE_TRANSFER));
      PushedOne(q, Status(REJECT_FILE_TRANSFER));
    } else {
      OtherQueue(s, e.id, e.msg, e.nameFree, p);
      RelayIsCopy(s, es, e, p);
    }
  }

  lemma {:induction false} RelayIsCopy(s: Server, es: seq<Event>, e: Event, p: Id)
    requires e.Deliver? && e.id in s.sessions && p in s.sessions && !e.msg.Status? && |Members(es)| > 1
    requires s.active == Held(es) && s.sessions[e.id].nickName == NameOf(es, e.id)
    requires s.sessions[p].fileTransferStatus == StatusOf(es, p)
    ensures s.sessions[p].queue + Relayed(s, e.id, e.msg, p) == Pushed(s.sessions[p].queue, Copied(es, e, p))
  {
    var q := s.sessions[p].queue;
    assert q + [] == q;
    match e.msg {
      case Chat(_, text) => PushedOne(q, NewChat(NameOf(es, e.id), CString(text)));
      case FileData(_, _, _) => PushedOne(q, e.msg);
      case FileRequest(_, path) => PushedOne(q, NewFileRequest(NameOf(es, e.id), BaseName(CString(path))));
      case _ =>
    }
  }

  lemma {:induction false} QueueGoesOn(s: Server, es: seq<Event>, e: Event, p: Id)
    requires Described(s, es) && Enabled(s, e)
    requires p in Exec(s, e).sessions && (p in s.sessions ==> s.sessions[p].queue == QueueOf(es, p))
    ensures Exec(s, e).sessions[p].queue == QueueOf(es + [e], p)
  {
    OneMore(es, e);
    if e != Join(p) {
      StaysOrJoins(s, e, p);
      if e.Deliver? && e.id == p {
        assert Describes(s.sessions[p], es, p);
        AloneIsOne(s, es, p);
        GoodbyeIs(es, e, s.sessions[p]);
        OwnQueueGets(s, p, e.msg, e.nameFree);
      } else if e.Deliver? {
        CopyIsQueued(s, es, e, p);
      }
    }
  }

  lemma {:induction false} QueueFollows(es: seq<Event>, e: Event, p: Id)
    requires Legal(INITIAL_SERVER, es) && Enabled(Run(INITIAL_SERVER, es), e)
    requires var s := Run(INITIAL_SERVER, es);
             p in Exec(s, e).sessions && (p in s.sessions ==> s.sessions[p].queue == QueueOf(es, p))
    ensures Exec(Run(INITIAL_SERVER, es), e).sessions[p].queue == QueueOf(es + [e], p)
  {
    ServerIsDescribed(es);
    QueueGoesOn(Run(INITIAL_SERVER, es), es, e, p);
  }

  /**
   * After every run each session's queue is what the events since its join make it: names, statuses and goodbyes in
   * reply to its own messages, copies of what the others sent, verdicts, each if there was room, less what was written.
   */
  lemma {:induction false} QueueIsHistory(es: seq<Event>, p: Id)
    requires Legal(INITIAL_SERVER, es) && p in Members(es)
    ensures p in Run(INITIAL_SERVER, es).sessions && Run(INITIAL_SERVER, es).sessions[p].queue == QueueOf(es, p)
    decreases |es|
  {
    var before, e := Before(es), Latest(es);
    LastStep(INITIAL_SERVER, es);
    MembersAreThere(es, p);
    MembersAreThere(before, p);
    if p in Members(before) {
      QueueIsHistory(before, p);
    }
    assert before + [e] == es;
    QueueFollows(before, e, p);
  }
}
