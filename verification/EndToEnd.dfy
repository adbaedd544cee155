/** Every step keeps the file intact on its way; so the peer ends up with the sender's file, byte for byte. */
module EndToEnd {
  import opened Bytes
  import opened Messages
  import opened Framing
  import Server = ServerModel
  import opened Relays
  import opened TransferLock
  import opened ClientModel
  import opened Splitting
  import opened Reassembly
  import opened Transfer

  /** The invariant holds, or the last block has been handled. */
  predicate Safe(sys: System, r: Route, t: Trail) {
    Invariant(sys, r, t) || (Arrived(sys, r) && !sys.aborted)
  }

  // ---------- lists of blocks ----------

  lemma DataOfOne(m: Message)
    ensures Data([m]) == if m.FileData? then [m] else []
  {
    assert [m][1..] == [];
    assert Only(FILE_DATA, [m]) == First(FILE_DATA, m) + Only(FILE_DATA, [m][1..]) == First(FILE_DATA, m);
  }

  lemma DataOfConcat(a: seq<Message>, b: seq<Message>)
    ensures Data(a + b) == Data(a) + Data(b)
  {
    OnlyOfConcat(FILE_DATA, a, b);
  }

  lemma DataOfFirst(ms: seq<Message>)
    requires ms != []
    ensures Data(ms) == (if ms[0].FileData? then [ms[0]] else []) + Data(ms[1..])
  {
  }

  /** Moving the head of one stage to the end of the stage in front of it changes nothing. */
  lemma Moved(a: seq<Message>, b: seq<Message>, m: Message)
    requires b != [] && b[0] == m
    ensures Data(a + [m]) + Data(b[1..]) == Data(a) + Data(b)
  {
    DataOfConcat(a, [m]);
    DataOfOne(m);
    DataOfFirst(b);
    assert (Data(a) + Data([m])) + Data(b[1..]) == Data(a) + (Data([m]) + Data(b[1..]));
  }

  // ---------- the sender ----------

  lemma SenderCyclesKeeps(sys: System, r: Route, t: Trail) returns (u: Trail)
    requires Underway(sys, r, t) && Allowed(sys, r, SenderCycles(true))
    ensures u == t.(k := u.k) && Underway(Next(sys, r, SenderCycles(true)), r, u)
    ensures t.k <= Final(r.file) && Server.CanSend(sys.sender.queue) ==> u.k == t.k + 1
  {
    var n := TickProgress(sys.sender, r.file, t.k, Cycled);
    if t.k <= Final(r.file) {
      CycleSendsNext(sys.sender, r.file, t.k);
    }
    u := t.(k := n);
    var c := Cycle(sys.sender, true);
    if n != t.k {
      OneMoreBlock(r.file, t.saved, t.k, n, Flow(sys, r, t), Contents(t.up), sys.sender.queue);
      OneMoreMild(Contents(t.up), sys.sender.queue, BlockAt(r.file, t.k));
    }
    SenderIsAt(sys, r, t, c, u);
  }

  /** A sender that only has queued more, or gone on, leaves everything else as it is. */
  lemma SenderIsAt(sys: System, r: Route, t: Trail, c: Client, u: Trail)
    requires Underway(sys, r, t) && u == t.(k := u.k) && u.k >= t.k
    requires Progress(c, r.file, u.k) && AllWell(c.queue) && AllMild(Contents(t.up) + c.queue)
    requires Balanced(r.file, t.saved, u.k, Flow(sys, r, t), Contents(t.up), c.queue)
    ensures Underway(sys.(sender := c), r, u)
  {
    assert Flow(sys.(sender := c), r, u) == Flow(sys, r, t);
    assert Replies(sys.(sender := c), r, u) == Replies(sys, r, t);
  }

  lemma OneMoreMild(up: seq<Message>, q: seq<Message>, m: Message)
    requires AllMild(up + q) && Mild(m)
    ensures AllMild(up + (q + [m]))
  {
    Associative(up, q, [m]);
  }

  lemma OneMoreBlock(file: seq<byte>, saved: nat, k: nat, n: nat, flow: seq<Message>, up: seq<Message>, q: seq<Message>)
    requires Balanced(file, saved, k, flow, up, q) && k <= Final(file) && n == k + 1
    ensures Balanced(file, saved, n, flow, up, q + [BlockAt(file, k)])
  {
    var b := BlockAt(file, k);
    DataOfConcat(q, [b]);
    DataOfOne(b);
    Extended(BlocksOf(file, saved), Data(flow), Data(up), Data(q), BlocksOf(file, k), b);
    NextBlock(file, k, n);
  }

  lemma NextBlock(file: seq<byte>, k: nat, n: nat)
    requires Storable(file) && k <= Final(file) && n == k + 1
    ensures BlocksOf(file, k) + [BlockAt(file, k)] == BlocksOf(file, n)
  {
  }

  lemma Extended(a: seq<Message>, b: seq<Message>, c: seq<Message>, d: seq<Message>, all: seq<Message>, m: Message)
    requires a + (b + (c + d)) == all
    ensures a + (b + (c + (d + [m]))) == all + [m]
  {
    assert a + (b + (c + (d + [m]))) == (a + (b + (c + d))) + [m];
  }

  lemma SenderSaysKeeps(sys: System, r: Route, t: Trail, m: Message)
    requires Underway(sys, r, t) && Allowed(sys, r, SenderSays(m))
    ensures Underway(Next(sys, r, SenderSays(m)), r, t)
  {
    NoDataAdded(sys.sender.queue, m);
    OneMoreMild(Contents(t.up), sys.sender.queue, m);
    SenderIsAt(sys, r, t, Queued(sys.sender, m), t);
  }

  lemma NoDataAdded(q: seq<Message>, m: Message)
    requires !m.FileData?
    ensures Data(q + [m]) == Data(q)
  {
    DataOfConcat(q, [m]);
    DataOfOne(m);
    assert Data(q) + [] == Data(q);
  }

  /** What the sender hears ends its program exactly if it is a go-ahead after it has cut the last block. */
  lemma HearsGently(c: Client, file: seq<byte>, k: nat, m: Message, answer: Answer, canOpen: bool)
    requires Progress(c, file, k) && Storable(file) && Gentle(m)
    ensures var heard := Receives(c, m, answer, canOpen);
            && (heard.Aborts? <==> k == Final(file) + 1 && m == Status(ACCEPT_FILE_TRANSFER))
            && (heard.Continues? ==> Progress(heard.client, file, k) && heard.client.queue == c.queue)
  {
  }

  lemma SenderReadsKeeps(sys: System, r: Route, t: Trail, n: nat, answer: Answer, canOpen: bool) returns (u: Trail)
    requires Underway(sys, r, t) && Allowed(sys, r, SenderReads(n, answer, canOpen))
    ensures u == t.(back := u.back) && Underway(Next(sys, r, SenderReads(n, answer, canOpen)), r, u)
  {
    var rest := ReadCarries(sys.back, t.back, n);
    u := t.(back := rest);
    var link := Read(sys.back, n);
    match News(sys.back, n) {
      case None => SenderHeard(sys, r, t, link, rest, sys.running, sys.sender);
      case Some(m) => SenderHears(sys, r, t, link, rest, m, answer, canOpen);
    }
  }

  lemma {:induction false} SenderHears(sys: System, r: Route, t: Trail, link: Link, rest: seq<Packet>, m: Message,
                                       answer: Answer, canOpen: bool)
    requires Underway(sys, r, t) && Carries(link, rest) && Contents(t.back) == [m] + Contents(rest)
    ensures Underway(match Receives(sys.sender, m, answer, canOpen)
                     case Continues(c) => sys.(back := link, sender := c)
                     case Aborts => sys.(back := link, running := false), r, t.(back := rest))
  {
    HeadIsGentle(sys, r, t, rest, m);
    HearsGently(sys.sender, r.file, t.k, m, answer, canOpen);
    match Receives(sys.sender, m, answer, canOpen) {
      case Continues(c) => SenderHeard(sys, r, t, link, rest, sys.running, c);
      case Aborts => SenderHeard(sys, r, t, link, rest, false, sys.sender);
    }
  }

  lemma {:induction false} HeadIsGentle(sys: System, r: Route, t: Trail, rest: seq<Packet>, m: Message)
    requires Underway(sys, r, t) && Contents(t.back) == [m] + Contents(rest)
    ensures Gentle(m) && AllGentle(Contents(rest) + sys.server.sessions[r.s].queue)
  {
    HeadOf(m, Contents(rest), sys.server.sessions[r.s].queue);
    assert Replies(sys, r, t)[0] == m && Replies(sys, r, t)[1..] == Contents(rest) + sys.server.sessions[r.s].queue;
  }

  lemma HeadOf(m: Message, rest: seq<Message>, q: seq<Message>)
    ensures (([m] + rest) + q)[0] == m && (([m] + rest) + q)[1..] == rest + q
  {
  }

  lemma {:induction false} SenderHeard(sys: System, r: Route, t: Trail, link: Link, rest: seq<Packet>, running: bool,
                                       c: Client)
    requires Underway(sys, r, t) && Carries(link, rest) && AllGentle(Contents(rest) + sys.server.sessions[r.s].queue)
    requires Progress(c, r.file, t.k) && c.queue == sys.sender.queue && (t.k <= Final(r.file) ==> running)
    ensures Underway(sys.(back := link, running := running, sender := c), r, t.(back := rest))
  {
    assert Flow(sys.(back := link, running := running, sender := c), r, t.(back := rest)) == Flow(sys, r, t);
  }

  lemma SenderWritesKeeps(sys: System, r: Route, t: Trail, pad: Padding) returns (u: Trail)
    requires Underway(sys, r, t) && Allowed(sys, r, SenderWrites(pad))
    ensures u == t.(up := t.up + [Packet(sys.sender.queue[0], pad)])
    ensures Contents(u.up) == Contents(t.up) + [sys.sender.queue[0]]
    ensures Underway(Next(sys, r, SenderWrites(pad)), r, u)
  {
    var q, m := sys.sender.queue, sys.sender.queue[0];
    u := t.(up := t.up + [Packet(m, pad)]);
    SentCarries(sys.up, t.up, m, pad);
    WrittenBalances(r.file, t.saved, t.k, Flow(sys, r, t), Contents(t.up), q);
    HeadMoves(Contents(t.up), q);
    SenderMoves(sys, r, t, sys.sender.(queue := q[1..]), Sent(sys.up, m, pad), u);
  }

  lemma HeadMoves(a: seq<Message>, b: seq<Message>)
    requires b != []
    ensures (a + [b[0]]) + b[1..] == a + b
  {
  }

  lemma WrittenBalances(file: seq<byte>, saved: nat, k: nat, flow: seq<Message>, up: seq<Message>, q: seq<Message>)
    requires Balanced(file, saved, k, flow, up, q) && q != []
    ensures Balanced(file, saved, k, flow, up + [q[0]], q[1..])
  {
    Moved(up, q, q[0]);
  }

  lemma SenderMoves(sys: System, r: Route, t: Trail, c: Client, link: Link, u: Trail)
    requires Underway(sys, r, t) && u == t.(up := u.up) && Carries(link, u.up)
    requires Progress(c, r.file, t.k) && AllWell(c.queue) && AllMild(Contents(u.up) + c.queue)
    requires Balanced(r.file, t.saved, t.k, Flow(sys, r, t), Contents(u.up), c.queue)
    ensures Underway(sys.(sender := c, up := link), r, u)
  {
    assert Flow(sys.(sender := c, up := link), r, u) == Flow(sys, r, t);
    assert Replies(sys.(sender := c, up := link), r, u) == Replies(sys, r, t);
  }

  // ---------- the server ----------

  /** The server steps that leave the transfer alone, apart from the sender's own blocks. */
  predicate Fair(e: Server.Event, r: Route) {
    && e != Server.Leave(r.p) && e != Server.Leave(r.s)
    && (e.Deliver? ==>
          && (e.id == r.s ==> Mild(e.msg))
          && (e.id != r.s ==> !e.msg.FileData?)
          && (e.id == r.p ==> !e.msg.FileRequest? && e.msg != Status(REJECT_FILE_TRANSFER)))
  }

  predicate EndsTransfer(e: Server.Event, r: Route) {
    e.Deliver? && e.id == r.s && IsLast(e.msg)
  }

  /** What one server step during the transfer does to the peer's queue and to the lock. */
  lemma ServerStep(s: Server.Server, e: Server.Event, r: Route)
    requires Server.Enabled(s, e) && Granted(s, r) && Fair(e, r)
    ensures forall x :: x in Gain(s, e, r.p) ==> x.WellFormed() && Harmless(x)
    ensures Data(Gain(s, e, r.p)) == if Passes(s, e, r.p) then [e.msg] else []
    ensures var t := Server.Exec(s, e);
            if EndsTransfer(e, r) then !t.active else t.active && Senders(t) == {r.s}
  {
    BlocksInGain(s, e, r.p);
    GainIsHarmless(s, e, r);
    LockStep(s, e);
    TwoAreNotAlone(s, r.s, r.p);
  }

  lemma GainIsHarmless(s: Server.Server, e: Server.Event, r: Route)
    requires Server.Enabled(s, e) && Granted(s, r) && Fair(e, r)
    ensures forall x :: x in Gain(s, e, r.p) ==> x.WellFormed() && Harmless(x)
  {
    GainIs(s, e, r.p);
    if e.Deliver? && e.id == r.p {
      OwnRepliesAreHarmless(s, r.p, e.msg, e.nameFree);
    } else if e.Deliver? && e.msg.Status? {
      OtherQueueOfStatus(s, e.id, e.msg, e.nameFree, r.p);
      assert r.p !in Senders(s);
    }
  }

  lemma OwnRepliesAreHarmless(s: Server.Server, p: Server.Id, m: Message, nameFree: bool)
    requires p in s.sessions && m.WellFormed() && s.active && !m.FileRequest?
    ensures forall x :: x in Gain(s, Server.Deliver(p, m, nameFree), p) ==> Harmless(x) && Reply(x)
  {
    GainIs(s, Server.Deliver(p, m, nameFree), p);
    match m {
      case Status(_) => NoReplyToStatus(s, p, m, nameFree);
      case Hello => ReplyToHello(s, p, nameFree);
      case Nickname(_) => ReplyToName(s, p, m, nameFree);
      case Chat(_, _) => ReplyToChat(s, p, m, nameFree);
      case FileData(_, _, _) => NoReplyToData(s, p, m, nameFree);
      case Bye =>
    }
  }

  /** During a transfer a response is not answered to the session it comes from. */
  lemma NoReplyToStatus(s: Server.Server, p: Server.Id, m: Message, nameFree: bool)
    requires p in s.sessions && s.active && m.Status?
    ensures p in Server.Handle(s, p, m, nameFree).sessions
    ensures Server.Handle(s, p, m, nameFree).sessions[p].queue == s.sessions[p].queue
  {
    var me := Server.Checked(s.sessions[p], STATUS);
    var s2 := Server.Update(Server.Update(s, p, me), p, me.(fileTransferStatus := m.code));
    assert Server.Decide(s2, p).sessions[p] == s2.sessions[p];
  }

  lemma NoReplyToData(s: Server.Server, p: Server.Id, m: Message, nameFree: bool)
    requires p in s.sessions && m.FileData?
    ensures p in Server.Handle(s, p, m, nameFree).sessions
    ensures Server.Handle(s, p, m, nameFree).sessions[p].queue == s.sessions[p].queue
  {
    var s1 := Server.StateChecked(s, p, FILE_DATA);
    assert Server.RelayData(s1, p, m).sessions[p].queue == s.sessions[p].queue;
  }

  lemma ReplyToHello(s: Server.Server, p: Server.Id, nameFree: bool)
    requires p in s.sessions
    ensures forall x :: x in Gain(s, Server.Deliver(p, Hello, nameFree), p) ==> Harmless(x)
  {
    var me := Server.Checked(s.sessions[p], HELLO);
    OneReply(s, Server.Deliver(p, Hello, nameFree), p, me.queue, NewNickname(me.nickName));
  }

  lemma ReplyToName(s: Server.Server, p: Server.Id, m: Message, nameFree: bool)
    requires p in s.sessions && m.WellFormed() && m.Nickname?
    ensures forall x :: x in Gain(s, Server.Deliver(p, m, nameFree), p) ==> Harmless(x)
  {
    var me, name := Server.Checked(s.sessions[p], NICKNAME), Server.Truncated(CString(m.nickname));
    QueueAfterName(s, p, m, nameFree, name);
    OneReply(s, Server.Deliver(p, m, nameFree), p, me.queue, NameReply(name, nameFree));
  }

  function NameReply(name: seq<byte>, nameFree: bool): (r: Message)
    ensures Harmless(r)
  {
    if nameFree then NewNickname(name) else Status(NICKNAME_ALREADY_REGISTERED)
  }

  lemma QueueAfterName(s: Server.Server, p: Server.Id, m: Message, nameFree: bool, name: seq<byte>)
    requires p in s.sessions && m.Nickname? && name == Server.Truncated(CString(m.nickname))
    ensures var t := Server.Handle(s, p, m, nameFree);
            p in t.sessions
            && t.sessions[p].queue ==
              Server.Enqueue(Server.Checked(s.sessions[p], NICKNAME).queue, NameReply(name, nameFree))
  {
    var s1 := Server.StateChecked(s, p, NICKNAME);
    if nameFree {
      assert Server.Handle(s, p, m, nameFree) ==
             Server.SendTo(Server.Update(s1, p, s1.sessions[p].(nickName := name)), p, NewNickname(name));
    } else {
      assert Server.Handle(s, p, m, nameFree) == Server.SendTo(s1, p, Status(NICKNAME_ALREADY_REGISTERED));
    }
  }

  /** A step that answers once, after the goodbye of a refused state message, if there is one. */
  lemma OneReply(s: Server.Server, e: Server.Event, p: Server.Id, w: seq<Message>, reply: Message)
    requires Server.Enabled(s, e) && p in s.sessions && e.Deliver? && p in Server.Exec(s, e).sessions
    requires w == s.sessions[p].queue || w == s.sessions[p].queue + [Bye]
    requires Server.Exec(s, e).sessions[p].queue == Server.Enqueue(w, reply)
    ensures forall x :: x in Gain(s, e, p) ==> x == Bye || x == reply
  {
    AtMostTwo(s.sessions[p].queue, w, reply);
  }

  lemma AtMostTwo(q: seq<Message>, w: seq<Message>, reply: Message)
    requires w == q || w == q + [Bye]
    ensures q <= Server.Enqueue(w, reply)
    ensures forall x :: x in Server.Enqueue(w, reply)[|q|..] ==> x == Bye || x == reply
  {
  }

  lemma ReplyToChat(s: Server.Server, p: Server.Id, m: Message, nameFree: bool)
    requires p in s.sessions && m.WellFormed() && m.Chat?
    ensures forall x :: x in Gain(s, Server.Deliver(p, m, nameFree), p) ==> Harmless(x)
  {
    var q, t := s.sessions[p].queue, Server.Handle(s, p, m, nameFree);
    assert t.sessions[p].queue == q || t.sessions[p].queue == q + [Status(CHATTING_ALONE)];
  }

  /** The sender of a transfer is told nothing that changes it: at most that it may start, which it already knows. */
  lemma SenderIsToldGently(s: Server.Server, e: Server.Event, r: Route)
    requires Server.Enabled(s, e) && Granted(s, r) && Fair(e, r)
    ensures forall x :: x in Gain(s, e, r.s) ==> x.WellFormed() && Gentle(x)
  {
    GainIs(s, e, r.s);
    if e.Deliver? && e.id == r.s {
      OwnRepliesAreHarmless(s, r.s, e.msg, e.nameFree);
    } else if e.Deliver? && e.msg.Status? {
      VerdictIsAccept(s, e.id, e.msg, e.nameFree, r);
    }
  }

  lemma VerdictIsAccept(s: Server.Server, c: Server.Id, m: Message, nameFree: bool, r: Route)
    requires Granted(s, r) && c in s.sessions && c != r.s && m.Status?
    ensures Gain(s, Server.Deliver(c, m, nameFree), r.s) == []
            || Gain(s, Server.Deliver(c, m, nameFree), r.s) == [Status(ACCEPT_FILE_TRANSFER)]
  {
    var q, t := s.sessions[r.s].queue, Server.Handle(s, c, m, nameFree);
    TwoAreNotAlone(s, c, r.s);
    OtherQueueOfStatus(s, c, m, nameFree, r.s);
    if m.code == ACCEPT_FILE_TRANSFER || m.code == REJECT_FILE_TRANSFER {
      StartDecision(s, c, m.code, nameFree);
      SenderHearsAccept(s, t, c, m.code, r);
    }
  }

  lemma SenderHearsAccept(s: Server.Server, t: Server.Server, c: Server.Id, code: int32, r: Route)
    requires Granted(s, r) && c != r.s && Decided(s, t, c, code)
    ensures r.s in t.sessions
    ensures var q := s.sessions[r.s].queue;
            t.sessions[r.s].queue == q || t.sessions[r.s].queue == Server.Enqueue(q, Status(ACCEPT_FILE_TRANSFER))
  {
    assert Server.SomeOther(s, c, ACCEPT_FILE_TRANSFER);
  }

  /** The sender's and the peer's own statuses stay Accept. */
  lemma BothKeepAccepting(s: Server.Server, e: Server.Event, r: Route)
    requires Server.Enabled(s, e) && Granted(s, r) && Fair(e, r) && !EndsTransfer(e, r)
    ensures Granted(Server.Exec(s, e), r)
  {
    ServerStep(s, e, r);
    KeepsAccepting(s, e, r.p);
    KeepsAccepting(s, e, r.s);
  }

  lemma KeepsAccepting(s: Server.Server, e: Server.Event, c: Server.Id)
    requires Server.Enabled(s, e) && c in s.sessions && s.sessions[c].fileTransferStatus == ACCEPT_FILE_TRANSFER
    requires e != Server.Leave(c)
    requires e.Deliver? && e.id == c ==>
             !e.msg.FileRequest? && e.msg != Status(REJECT_FILE_TRANSFER) && (e.msg.FileData? ==> !e.msg.isLast)
    ensures c in Server.Exec(s, e).sessions
    ensures Server.Exec(s, e).sessions[c].fileTransferStatus == ACCEPT_FILE_TRANSFER
  {
    if e.Deliver? {
      if e.id == c {
        OwnMessageKeepsAccepting(s, c, e.msg, e.nameFree);
      } else if e.msg.Status? {
        OtherQueueOfStatus(s, e.id, e.msg, e.nameFree, c);
      } else {
        OtherQueue(s, e.id, e.msg, e.nameFree, c);
      }
    }
  }

  lemma OwnMessageKeepsAccepting(s: Server.Server, c: Server.Id, m: Message, nameFree: bool)
    requires c in s.sessions && s.sessions[c].fileTransferStatus == ACCEPT_FILE_TRANSFER
    requires !m.FileRequest? && m != Status(REJECT_FILE_TRANSFER) && (m.FileData? ==> !m.isLast)
    ensures c in Server.Handle(s, c, m, nameFree).sessions
    ensures Server.Handle(s, c, m, nameFree).sessions[c].fileTransferStatus == ACCEPT_FILE_TRANSFER
  {
    if m.Status? {
      var me := Server.Checked(s.sessions[c], STATUS);
      var s2 := Server.Update(Server.Update(s, c, me), c, me.(fileTransferStatus := m.code));
      assert Server.Decide(s2, c).sessions[c] == s2.sessions[c];
    }
  }

  /** The queue of a session, and with it everything on its way to the session, grows by the gain of the step. */
  lemma QueueGains(s: Server.Server, e: Server.Event, c: Server.Id, front: seq<Message>)
    requires Server.Enabled(s, e) && c in s.sessions && e != Server.Leave(c) && e != Server.Write(c)
    ensures c in Server.Exec(s, e).sessions
    ensures front + Server.Exec(s, e).sessions[c].queue == (front + s.sessions[c].queue) + Gain(s, e, c)
    ensures AllWell(s.sessions[c].queue) ==> AllWell(Server.Exec(s, e).sessions[c].queue)
  {
    QueueGrows(s, e, c);
    GainIsWellFormed(s, e, c);
    var q, g := s.sessions[c].queue, Gain(s, e, c);
    assert Server.Exec(s, e).sessions[c].queue == q + g;
    Associative(front, q, g);
    AllWellTogether(q, g);
  }

  lemma GainIsWellFormed(s: Server.Server, e: Server.Event, p: Server.Id)
    requires Server.Enabled(s, e) && p in s.sessions && e != Server.Leave(p)
    ensures forall x :: x in Gain(s, e, p) ==> x.WellFormed()
  {
    GainIs(s, e, p);
  }

  lemma AllWellTogether(q: seq<Message>, g: seq<Message>)
    requires forall x :: x in g ==> x.WellFormed()
    ensures AllWell(q) ==> AllWell(q + g)
  {
  }

  lemma ServerDoesKeeps(sys: System, r: Route, t: Trail, e: Server.Event)
    requires Underway(sys, r, t) && Allowed(sys, r, ServerDoes(e))
    ensures Underway(Next(sys, r, ServerDoes(e)), r, t)
  {
    ServerStep(sys.server, e, r);
    StaysClear(Flow(sys, r, t), Gain(sys.server, e, r.p), sys.waiting);
    NothingAdded(r.file, t.saved, t.k, Flow(sys, r, t), Gain(sys.server, e, r.p), Contents(t.up), sys.sender.queue);
    ServerGoesOn(sys, r, t, sys.up, e, t);
  }

  lemma NothingAdded(file: seq<byte>, saved: nat, k: nat, f: seq<Message>, g: seq<Message>, up: seq<Message>,
                     q: seq<Message>)
    requires Balanced(file, saved, k, f, up, q) && Data(g) == []
    ensures Balanced(file, saved, k, f + g, up, q)
  {
    DataOfConcat(f, g);
    assert Data(f) + [] == Data(f);
  }

  lemma {:induction false} StaysClear(ms: seq<Message>, more: seq<Message>, waiting: bool)
    requires Clear(ms, waiting) && forall x :: x in more ==> Harmless(x)
    ensures Clear(ms + more, waiting)
    decreases |ms|
  {
    if waiting {
      assert (ms + more)[0] == ms[0] && (ms + more)[1..] == ms[1..] + more;
      StaysClear(ms[1..], more, !ms[0].FileRequest?);
    }
  }

  lemma ServerIsAt(sys: System, r: Route, t: Trail, link: Link, after: Server.Server, u: Trail)
    requires Underway(sys, r, t) && u == t.(up := u.up) && Carries(link, u.up) && Granted(after, r)
    requires AllWell(after.sessions[r.p].queue) && AllWell(after.sessions[r.s].queue)
    requires Clear(Contents(t.down) + after.sessions[r.p].queue, sys.waiting)
    requires Balanced(r.file, t.saved, t.k, Contents(t.down) + after.sessions[r.p].queue, Contents(u.up),
             sys.sender.queue)
    requires AllGentle(Contents(t.back) + after.sessions[r.s].queue) && AllMild(Contents(u.up) + sys.sender.queue)
    ensures Underway(sys.(up := link, server := after), r, u)
  {
  }

  /** The next block behind the `n` blocks in front of it. */
  lemma BlockInPlace(file: seq<byte>, a: seq<Message>, m: Message, b: seq<Message>, k: nat)
    requires Storable(file) && k <= Final(file) + 1 && a + ([m] + b) == BlocksOf(file, k)
    ensures |a| < k && m == BlockAt(file, |a|)
    ensures |a| == Final(file) <==> m.isLast
    ensures m.isLast ==> b == [] && k == Final(file) + 1
  {
    assert (a + ([m] + b))[|a|] == m;
  }

  lemma ServerReadsKeeps(sys: System, r: Route, t: Trail, n: nat, nameFree: bool) returns (u: Trail)
    requires Underway(sys, r, t) && Allowed(sys, r, ServerReads(n, nameFree))
    ensures u == t.(up := u.up) && Invariant(Next(sys, r, ServerReads(n, nameFree)), r, u)
    ensures News(sys.up, n).Some? ==> Contents(t.up) == [News(sys.up, n).value] + Contents(u.up)
    ensures Underway(Next(sys, r, ServerReads(n, nameFree)), r, u)
            || (News(sys.up, n).Some? && IsLast(News(sys.up, n).value))
  {
    var rest := ReadCarries(sys.up, t.up, n);
    u := t.(up := rest);
    AfterServerRead(sys, r, n, nameFree);
    match News(sys.up, n) {
      case None => ServerIsAt(sys, r, t, Read(sys.up, n), sys.server, u);
      case Some(m) => ServerHandles(sys, r, t, Read(sys.up, n), rest, m, nameFree);
    }
  }

  lemma AfterServerRead(sys: System, r: Route, n: nat, nameFree: bool)
    requires Possible(sys, r, ServerReads(n, nameFree)) && !sys.handed
    ensures News(sys.up, n).None? ==> Next(sys, r, ServerReads(n, nameFree)) == sys.(up := Read(sys.up, n))
    ensures News(sys.up, n).Some? ==>
              var m := News(sys.up, n).value;
              && m.WellFormed()
              && Next(sys, r, ServerReads(n, nameFree)) ==
                   sys.(up := Read(sys.up, n), handed := IsLast(m),
                        server := Server.Exec(sys.server, Server.Deliver(r.s, m, nameFree)))
  {
    NewsIsWellFormed(sys.up, n);
  }

  /** The server handles the next message of the sender. */
  lemma {:induction false} ServerHandles(sys: System, r: Route, t: Trail, link: Link, rest: seq<Packet>, m: Message,
                                         nameFree: bool)
    requires Underway(sys, r, t) && m.WellFormed()
    requires Contents(t.up) == [m] + Contents(rest) && Carries(link, rest)
    requires m.FileData? ==> Server.CanSend(sys.server.sessions[r.p].queue)
    ensures var next := sys.(up := link, handed := IsLast(m),
                             server := Server.Exec(sys.server, Server.Deliver(r.s, m, nameFree)));
            if IsLast(m) then Delivering(next, r, t.(up := rest)) else Underway(next, r, t.(up := rest))
  {
    var e := Server.Deliver(r.s, m, nameFree);
    HeadIsMild(sys, t, rest, m);
    ServerStep(sys.server, e, r);
    StaysClear(Flow(sys, r, t), Gain(sys.server, e, r.p), sys.waiting);
    HandedOn(r.file, t.saved, Flow(sys, r, t), Gain(sys.server, e, r.p), m, Contents(t.up), Contents(rest),
      sys.sender.queue, t.k);
    if m.FileData? && m.isLast {
      LastIsHandled(sys, r, t, link, e, t.(up := rest));
    } else {
      ServerGoesOn(sys, r, t, link, e, t.(up := rest));
    }
  }

  lemma {:induction false} HeadIsMild(sys: System, t: Trail, rest: seq<Packet>, m: Message)
    requires Contents(t.up) == [m] + Contents(rest) && AllMild(Said(sys, t))
    ensures Mild(m) && AllMild(Contents(rest) + sys.sender.queue)
  {
    HeadOf(m, Contents(rest), sys.sender.queue);
    assert Said(sys, t)[0] == m && Said(sys, t)[1..] == Contents(rest) + sys.sender.queue;
  }

  lemma LastIsHandled(sys: System, r: Route, t: Trail, link: Link, e: Server.Event, u: Trail)
    requires Underway(sys, r, t) && Server.Enabled(sys.server, e) && e != Server.Leave(r.p) && u == t.(up := u.up)
    requires Clear(Flow(sys, r, t) + Gain(sys.server, e, r.p), sys.waiting)
    requires Data(Flow(sys, r, t) + Gain(sys.server, e, r.p)) == Rest(r.file, t.saved)
    requires e != Server.Write(r.p)
    ensures Delivering(sys.(up := link, handed := true, server := Server.Exec(sys.server, e)), r, u)
  {
    QueueGains(sys.server, e, r.p, Contents(t.down));
    ClearExpects(Flow(sys, r, t) + Gain(sys.server, e, r.p), Rest(r.file, t.saved), sys.waiting);
  }

  lemma ServerGoesOn(sys: System, r: Route, t: Trail, link: Link, e: Server.Event, u: Trail)
    requires Underway(sys, r, t) && Server.Enabled(sys.server, e) && Fair(e, r) && !EndsTransfer(e, r)
    requires e != Server.Write(r.p) && e != Server.Write(r.s)
    requires u == t.(up := u.up) && Carries(link, u.up) && AllMild(Contents(u.up) + sys.sender.queue)
    requires Clear(Flow(sys, r, t) + Gain(sys.server, e, r.p), sys.waiting)
    requires Balanced(r.file, t.saved, t.k, Flow(sys, r, t) + Gain(sys.server, e, r.p), Contents(u.up),
             sys.sender.queue)
    ensures Underway(sys.(up := link, server := Server.Exec(sys.server, e)), r, u)
  {
    BothKeepAccepting(sys.server, e, r);
    SenderIsToldGently(sys.server, e, r);
    QueueGains(sys.server, e, r.p, Contents(t.down));
    QueueGains(sys.server, e, r.s, Contents(t.back));
    StaysGentle(Replies(sys, r, t), Gain(sys.server, e, r.s));
    ServerIsAt(sys, r, t, link, Server.Exec(sys.server, e), u);
  }

  lemma StaysGentle(ms: seq<Message>, more: seq<Message>)
    requires AllGentle(ms) && forall x :: x in more ==> Gentle(x)
    ensures AllGentle(ms + more)
  {
  }

  /** A block handed from the front of the stream to the end of the flow; the last one completes the flow. */
  lemma HandedOn(file: seq<byte>, saved: nat, f: seq<Message>, g: seq<Message>, m: Message,
                 up: seq<Message>, rest: seq<Message>, q: seq<Message>, k: nat)
    requires Balanced(file, saved, k, f, up, q)
    requires up == [m] + rest && Data(g) == if m.FileData? then [m] else []
    ensures if m.FileData? && m.isLast then Data(f + g) == Rest(file, saved)
            else Balanced(file, saved, k, f + g, rest, q)
  {
    DataOfConcat(f, g);
    DataOfFirst(up);
    assert up[1..] == rest;
    var a := BlocksOf(file, saved);
    Handed(a, Data(f), m, Data(rest), Data(q), Data(up), Data(g));
    if m.FileData? {
      HandedBlock(file, a, Data(f), m, Data(rest), Data(q), k);
    } else {
      assert Data(f) + [] == Data(f);
    }
  }

  lemma HandedBlock(file: seq<byte>, a: seq<Message>, f: seq<Message>, m: Message, rest: seq<Message>, q: seq<Message>,
                    k: nat)
    requires Storable(file) && k <= Final(file) + 1 && m.FileData?
    requires a + (f + (([m] + rest) + q)) == BlocksOf(file, k)
    ensures |a| + |f| == Final(file) <==> m.isLast
    ensures |a| + |f| <= Final(file)
    ensures m.isLast ==> f + [m] == BlocksOf(file, Final(file) + 1)[|a|..]
  {
    assert (a + f) + ([m] + (rest + q)) == a + (f + (([m] + rest) + q));
    BlockInPlace(file, a + f, m, rest + q, k);
    if m.isLast {
      LastOne(a, f, m, BlocksOf(file, k));
    }
  }

  lemma LastOne(a: seq<Message>, f: seq<Message>, m: Message, all: seq<Message>)
    requires (a + f) + ([m] + []) == all
    ensures f + [m] == all[|a|..]
  {
    assert all == a + (f + [m]);
  }

  lemma Handed(a: seq<Message>, f: seq<Message>, m: Message, rest: seq<Message>, q: seq<Message>, up: seq<Message>,
               g: seq<Message>)
    requires up == (if m.FileData? then [m] else []) + rest
    requires g == if m.FileData? then [m] else []
    ensures a + ((f + g) + (rest + q)) == a + (f + (up + q))
  {
    assert (f + g) + (rest + q) == f + ((g + rest) + q);
  }

  lemma {:induction false} HarmlessBrings(ms: seq<Message>, bs: seq<Message>)
    requires AllHarmless(ms) && Data(ms) == bs && bs != []
    ensures Brings(ms, bs)
    decreases |ms|
  {
    DataOfFirst(ms);
    assert forall i :: 0 <= i < |ms[1..]| ==> ms[1..][i] == ms[i + 1];
    if ms[0].FileData? {
      assert bs[1..] == Data(ms[1..]);
      if |bs| > 1 {
        HarmlessBrings(ms[1..], bs[1..]);
      }
    } else {
      assert [] + Data(ms[1..]) == bs;
      HarmlessBrings(ms[1..], bs);
    }
  }

  lemma {:induction false} BringsMore(ms: seq<Message>, bs: seq<Message>, more: seq<Message>)
    requires Brings(ms, bs)
    ensures Brings(ms + more, bs)
    decreases |ms|
  {
    assert (ms + more)[0] == ms[0] && (ms + more)[1..] == ms[1..] + more;
    if ms[0].FileData? {
      if |bs| > 1 {
        BringsMore(ms[1..], bs[1..], more);
      }
    } else {
      BringsMore(ms[1..], bs, more);
    }
  }

  lemma {:induction false} ClearExpects(ms: seq<Message>, bs: seq<Message>, waiting: bool)
    requires Clear(ms, waiting) && Data(ms) == bs && bs != []
    ensures Expects(ms, bs, waiting)
    decreases |ms|
  {
    if waiting {
      DataOfFirst(ms);
      assert [] + Data(ms[1..]) == bs;
      ClearExpects(ms[1..], bs, !ms[0].FileRequest?);
    } else {
      HarmlessBrings(ms, bs);
    }
  }

  lemma {:induction false} ExpectsMore(ms: seq<Message>, bs: seq<Message>, more: seq<Message>, waiting: bool)
    requires Expects(ms, bs, waiting)
    ensures Expects(ms + more, bs, waiting)
    decreases |ms|
  {
    if waiting {
      assert (ms + more)[0] == ms[0] && (ms + more)[1..] == ms[1..] + more;
      ExpectsMore(ms[1..], bs, more, !ms[0].FileRequest?);
    } else {
      BringsMore(ms, bs, more);
    }
  }

  predicate LeavesPeer(sys: System, sys': System) {
    sys'.down == sys.down && sys'.peer == sys.peer && sys'.aborted == sys.aborted && sys'.waiting == sys.waiting
  }

  /** After the last block passed the server, no server step can hurt what is on its way to the peer. */
  lemma ServerCannotHurt(sys: System, r: Route, t: Trail, e: Server.Event, sys': System)
    requires Delivering(sys, r, t) && Server.Enabled(sys.server, e)
    requires e != Server.Leave(r.p) && e != Server.Write(r.p)
    requires sys'.server == Server.Exec(sys.server, e)
    requires LeavesPeer(sys, sys')
    ensures Delivering(sys', r, t)
    ensures Flow(sys', r, t) == Flow(sys, r, t) + Gain(sys.server, e, r.p)
  {
    QueueGains(sys.server, e, r.p, Contents(t.down));
    ExpectsMore(Flow(sys, r, t), Rest(r.file, t.saved), Gain(sys.server, e, r.p), sys.waiting);
  }

  lemma WritingKeepsGrant(s: Server.Server, c: Server.Id, r: Route)
    requires Granted(s, r) && Server.Enabled(s, Server.Write(c))
    ensures Granted(Server.Exec(s, Server.Write(c)), r)
  {
    LockStep(s, Server.Write(c));
  }

  lemma QueueAfterWrite(s: Server.Server, c: Server.Id)
    requires Server.Enabled(s, Server.Write(c))
    ensures var t := Server.Exec(s, Server.Write(c));
            && t.sessions.Keys == s.sessions.Keys && t.sessions[c].queue == s.sessions[c].queue[1..]
            && (AllWell(s.sessions[c].queue) ==> AllWell(t.sessions[c].queue))
            && forall i :: i in s.sessions && i != c ==> t.sessions[i] == s.sessions[i]
  {
  }

  /** The front message of a session's queue goes onto the wire, and the transfer stays granted. */
  lemma PacketLeaves(s: Server.Server, c: Server.Id, r: Route, l: Link, ws: seq<Packet>, pad: Padding)
    returns (ws': seq<Packet>)
    requires Granted(s, r) && CanWrite(s, c) && AllWell(s.sessions[c].queue) && Carries(l, ws)
    ensures var q, t := s.sessions[c].queue, Server.Exec(s, Server.Write(c));
            && Carries(Sent(l, q[0], pad), ws')
            && Granted(t, r) && c in t.sessions && AllWell(t.sessions[c].queue)
            && Contents(ws') + t.sessions[c].queue == Contents(ws) + q
            && forall i :: i in s.sessions && i != c ==> i in t.sessions && t.sessions[i] == s.sessions[i]
  {
    var q := s.sessions[c].queue;
    ws' := ws + [Packet(q[0], pad)];
    SentCarries(l, ws, q[0], pad);
    HeadMoves(Contents(ws), q);
    WritingKeepsGrant(s, c, r);
    QueueAfterWrite(s, c);
  }

  lemma ServerAnswersKeeps(sys: System, r: Route, t: Trail, pad: Padding) returns (u: Trail)
    requires Underway(sys, r, t) && Allowed(sys, r, ServerAnswers(pad))
    ensures u == t.(back := u.back) && Underway(Next(sys, r, ServerAnswers(pad)), r, u)
  {
    var ws := PacketLeaves(sys.server, r.s, r, sys.back, t.back, pad);
    u := t.(back := ws);
    AnswerMoves(sys, r, t, Sent(sys.back, sys.server.sessions[r.s].queue[0], pad),
                Server.Exec(sys.server, Server.Write(r.s)), u, Next(sys, r, ServerAnswers(pad)));
  }

  lemma AnswerMoves(sys: System, r: Route, t: Trail, link: Link, after: Server.Server, u: Trail, next: System)
    requires next == sys.(server := after, back := link)
    requires Underway(sys, r, t) && u == t.(back := u.back) && Carries(link, u.back) && Granted(after, r)
    requires after.sessions[r.p].queue == sys.server.sessions[r.p].queue && AllWell(after.sessions[r.s].queue)
    requires Contents(u.back) + after.sessions[r.s].queue == Replies(sys, r, t)
    ensures Underway(next, r, u)
  {
    assert Flow(next, r, u) == Flow(sys, r, t);
  }

  lemma ServerWritesUnderway(sys: System, r: Route, t: Trail, pad: Padding) returns (u: Trail)
    requires Underway(sys, r, t) && Allowed(sys, r, ServerWrites(pad))
    ensures u == t.(down := u.down) && Underway(Next(sys, r, ServerWrites(pad)), r, u)
  {
    var ws := PacketLeaves(sys.server, r.p, r, sys.down, t.down, pad);
    u := t.(down := ws);
    MovesDown(sys, r, t, Sent(sys.down, sys.server.sessions[r.p].queue[0], pad),
              Server.Exec(sys.server, Server.Write(r.p)), u, Next(sys, r, ServerWrites(pad)));
  }

  lemma ServerWritesRest(sys: System, r: Route, t: Trail, pad: Padding) returns (u: Trail)
    requires Delivering(sys, r, t) && Allowed(sys, r, ServerWrites(pad))
    ensures Delivering(Next(sys, r, ServerWrites(pad)), r, u)
    ensures Flow(Next(sys, r, ServerWrites(pad)), r, u) == Flow(sys, r, t)
  {
    var q := sys.server.sessions[r.p].queue;
    u := t.(down := t.down + [Packet(q[0], pad)]);
    SentCarries(sys.down, t.down, q[0], pad);
    HeadMoves(Contents(t.down), q);
    MovesDownRest(sys, r, t, Sent(sys.down, q[0], pad), Server.Exec(sys.server, Server.Write(r.p)), u);
  }

  lemma MovesDown(sys: System, r: Route, t: Trail, link: Link, after: Server.Server, u: Trail, next: System)
    requires next == sys.(server := after, down := link)
    requires Underway(sys, r, t) && u == t.(down := u.down) && Carries(link, u.down) && Granted(after, r)
    requires after.sessions[r.s].queue == sys.server.sessions[r.s].queue && AllWell(after.sessions[r.p].queue)
    requires Contents(u.down) + after.sessions[r.p].queue == Flow(sys, r, t)
    ensures Underway(next, r, u)
  {
    assert Replies(next, r, u) == Replies(sys, r, t);
  }

  lemma MovesDownRest(sys: System, r: Route, t: Trail, link: Link, after: Server.Server, u: Trail)
    requires Delivering(sys, r, t) && u == t.(down := u.down) && Carries(link, u.down)
    requires r.p in after.sessions && AllWell(after.sessions[r.p].queue)
    requires Contents(u.down) + after.sessions[r.p].queue == Flow(sys, r, t)
    ensures Delivering(sys.(server := after, down := link), r, u)
    ensures Flow(sys.(server := after, down := link), r, u) == Flow(sys, r, t)
  {
  }

  // ---------- the peer ----------

  lemma HarmlessKeepsOrder(c: Client, file: seq<byte>, path: Path, k: nat, m: Message, answer: Answer)
    requires InOrder(c, file, path, k) && Harmless(m) && !m.FileData?
    ensures Receives(c, m, answer, true).Continues?
    ensures InOrder(Receives(c, m, answer, true).client, file, path, k)
  {
  }

  /** Whether the peer still waits for the request once it has handled `m`. */
  predicate StillWaits(waiting: bool, m: Message) {
    waiting && !m.FileRequest?
  }

  /** The peer accepts the request, if it is that which it handles. */
  predicate Agrees(waiting: bool, m: Message, answer: Answer, path: Path) {
    waiting && m.FileRequest? ==> answer == Answer(true, path)
  }

  /** The state of the peer after the request, a block or a harmless message. */
  lemma PeerGoesOn(c: Client, waiting: bool, file: seq<byte>, path: Path, k: nat, m: Message, answer: Answer)
    requires PeerAt(c, waiting, file, path, k) && Storable(file) && Fits(m, waiting) && Agrees(waiting, m, answer, path)
    requires m.FileData? ==> k < Final(file) && m == BlockAt(file, k)
    ensures Receives(c, m, answer, true).Continues?
    ensures PeerAt(Receives(c, m, answer, true).client, StillWaits(waiting, m), file, path, SavedAfter(k, m))
  {
    if waiting {
    } else if m.FileData? {
      NextInOrder(c, file, path, k, answer);
    } else {
      HarmlessKeepsOrder(c, file, path, k, m, answer);
    }
  }

  lemma PeerReadsUnderway(sys: System, r: Route, t: Trail, n: nat, answer: Answer) returns (u: Trail)
    requires Underway(sys, r, t) && Allowed(sys, r, PeerReads(n, answer, true))
    ensures Underway(Next(sys, r, PeerReads(n, answer, true)), r, u)
  {
    var rest := ReadCarries(sys.down, t.down, n);
    var link := Read(sys.down, n);
    match News(sys.down, n) {
      case None =>
        u := t.(down := rest);
        PeerMoves(sys, r, t, link, sys.peer, sys.waiting, u);
      case Some(m) => u := PeerHandles(sys, r, t, link, rest, m, answer);
    }
  }

  /** The peer handles a message in front of the last block. */
  lemma PeerHandles(sys: System, r: Route, t: Trail, link: Link, rest: seq<Packet>, m: Message, answer: Answer)
    returns (u: Trail)
    requires Underway(sys, r, t) && Agrees(sys.waiting, m, answer, r.path)
    requires Contents(t.down) == [m] + Contents(rest) && Carries(link, rest)
    ensures Receives(sys.peer, m, answer, true).Continues?
    ensures Underway(sys.(down := link, peer := Receives(sys.peer, m, answer, true).client,
                          waiting := StillWaits(sys.waiting, m)), r, u)
  {
    var n := SavedAfter(t.saved, m);
    PeerSettles(sys, r, t, rest, m, answer, n);
    u := t.(down := rest, saved := n);
    PeerMoves(sys, r, t, link, Receives(sys.peer, m, answer, true).client, StillWaits(sys.waiting, m), u);
  }

  /** The blocks saved once `m` is handled. */
  function SavedAfter(saved: nat, m: Message): (r: nat) {
    saved + if m.FileData? then 1 else 0
  }

  lemma {:induction false} PeerSettles(sys: System, r: Route, t: Trail, rest: seq<Packet>, m: Message, answer: Answer,
                                       n: nat)
    requires Underway(sys, r, t) && Agrees(sys.waiting, m, answer, r.path)
    requires Contents(t.down) == [m] + Contents(rest) && n == SavedAfter(t.saved, m)
    ensures Receives(sys.peer, m, answer, true).Continues?
    ensures PeerAt(Receives(sys.peer, m, answer, true).client, StillWaits(sys.waiting, m), r.file, r.path, n)
    ensures Clear(Contents(rest) + sys.server.sessions[r.p].queue, StillWaits(sys.waiting, m))
    ensures Balanced(r.file, n, t.k, Contents(rest) + sys.server.sessions[r.p].queue, Contents(t.up), sys.sender.queue)
  {
    var g := Contents(rest) + sys.server.sessions[r.p].queue;
    FlowShrinks(sys, r, t, m, rest);
    HeadAndRest(m, g, sys.waiting);
    TakenOff(r.file, t.saved, m, g, Contents(t.up), sys.sender.queue, t.k);
    PeerGoesOn(sys.peer, sys.waiting, r.file, r.path, t.saved, m, answer);
  }

  lemma {:induction false} PeerMoves(sys: System, r: Route, t: Trail, link: Link, c: Client, waiting: bool, u: Trail)
    requires Underway(sys, r, t) && u == t.(down := u.down, saved := u.saved) && Carries(link, u.down)
    requires PeerAt(c, waiting, r.file, r.path, u.saved)
    requires Clear(Contents(u.down) + sys.server.sessions[r.p].queue, waiting)
    requires Balanced(r.file, u.saved, t.k, Contents(u.down) + sys.server.sessions[r.p].queue, Contents(t.up),
             sys.sender.queue)
    ensures Underway(sys.(down := link, peer := c, waiting := waiting), r, u)
  {
    assert Replies(sys.(down := link, peer := c, waiting := waiting), r, u) == Replies(sys, r, t);
  }

  lemma {:induction false} PeerMovesRest(sys: System, r: Route, t: Trail, link: Link, c: Client, waiting: bool,
                                         u: Trail)
    requires Delivering(sys, r, t) && Carries(link, u.down) && u.saved <= Final(r.file)
    requires PeerAt(c, waiting, r.file, r.path, u.saved)
    requires Expects(Contents(u.down) + sys.server.sessions[r.p].queue, Rest(r.file, u.saved), waiting)
    ensures Delivering(sys.(down := link, peer := c, waiting := waiting), r, u)
  {
  }

  lemma {:induction false} FlowShrinks(sys: System, r: Route, t: Trail, m: Message, rest: seq<Packet>)
    requires r.p in sys.server.sessions && Contents(t.down) == [m] + Contents(rest)
    ensures Flow(sys, r, t) == [m] + (Contents(rest) + sys.server.sessions[r.p].queue)
  {
    Associative([m], Contents(rest), sys.server.sessions[r.p].queue);
  }

  lemma TakenOff(file: seq<byte>, saved: nat, m: Message, g: seq<Message>, up: seq<Message>, q: seq<Message>, k: nat)
    requires Balanced(file, saved, k, [m] + g, up, q)
    ensures m.FileData? ==> saved < Final(file) && m == BlockAt(file, saved)
    ensures Balanced(file, SavedAfter(saved, m), k, g, up, q)
  {
    DataOfHead(m, g);
    if m.FileData? {
      TakenBlock(file, saved, SavedAfter(saved, m), m, Data(g), Data(up) + Data(q), k);
    }
  }

  lemma DataOfHead(m: Message, g: seq<Message>)
    ensures Data([m] + g) == if m.FileData? then [m] + Data(g) else Data(g)
  {
    var f := [m] + g;
    assert f[1..] == g && f[0] == m;
    DataOfFirst(f);
    assert [] + Data(g) == Data(g);
  }

  lemma {:induction false} HeadAndRest(m: Message, g: seq<Message>, waiting: bool)
    requires Clear([m] + g, waiting)
    ensures Fits(m, waiting) && Clear(g, StillWaits(waiting, m))
  {
    var f := [m] + g;
    assert f[1..] == g && f[0] == m;
    assert forall i :: 0 <= i < |g| ==> g[i] == f[i + 1];
  }

  lemma TakenBlock(file: seq<byte>, saved: nat, n: nat, m: Message, d: seq<Message>, tail: seq<Message>, k: nat)
    requires Storable(file) && saved + 1 + |d| <= Final(file) && k <= Final(file) + 1 && n == saved + 1
    requires BlocksOf(file, saved) + (([m] + d) + tail) == BlocksOf(file, k)
    ensures m == BlockAt(file, saved) && BlocksOf(file, n) + (d + tail) == BlocksOf(file, k)
  {
    var a := BlocksOf(file, saved);
    Associative([m], d, tail);
    BlockInPlace(file, a, m, d + tail, k);
    assert a + [m] == BlocksOf(file, n);
    Associative(a, [m], d + tail);
  }

  lemma PeerReadsDelivering(sys: System, r: Route, t: Trail, n: nat, answer: Answer) returns (u: Trail)
    requires Delivering(sys, r, t) && Allowed(sys, r, PeerReads(n, answer, true))
    ensures DeliversOn(Next(sys, r, PeerReads(n, answer, true)), r, u)
    ensures News(sys.down, n).Some? && Delivering(Next(sys, r, PeerReads(n, answer, true)), r, u) ==>
              Contents(t.down) == [News(sys.down, n).value] + Contents(u.down) && !IsLast(News(sys.down, n).value)
  {
    var rest := ReadCarries(sys.down, t.down, n);
    var link := Read(sys.down, n);
    match News(sys.down, n) {
      case None =>
        u := t.(down := rest);
        PeerMovesRest(sys, r, t, link, sys.peer, sys.waiting, u);
      case Some(m) => u := PeerHandlesRest(sys, r, t, link, rest, m, answer);
    }
  }

  /** The rest of the file is still on its way, or all of it has arrived. */
  predicate DeliversOn(sys: System, r: Route, t: Trail) {
    Delivering(sys, r, t) || (Arrived(sys, r) && !sys.aborted)
  }

  lemma PeerHandlesRest(sys: System, r: Route, t: Trail, link: Link, rest: seq<Packet>, m: Message, answer: Answer)
    returns (u: Trail)
    requires Delivering(sys, r, t) && Agrees(sys.waiting, m, answer, r.path)
    requires Contents(t.down) == [m] + Contents(rest) && Carries(link, rest)
    ensures Receives(sys.peer, m, answer, true).Continues?
    ensures var next := sys.(down := link, peer := Receives(sys.peer, m, answer, true).client,
                             waiting := StillWaits(sys.waiting, m));
            DeliversOn(next, r, u) && (IsLast(m) ==> !Unfinished(next)) && (Unfinished(next) ==> u.down == rest)
  {
    NextOfRest(sys, r, t, m, rest);
    if m.FileData? && t.saved == Final(r.file) {
      NextInOrder(sys.peer, r.file, r.path, t.saved, answer);
      u := t;
    } else {
      u := t.(down := rest, saved := SavedAfter(t.saved, m));
      PeerGoesOn(sys.peer, sys.waiting, r.file, r.path, t.saved, m, answer);
      PeerMovesRest(sys, r, t, link, Receives(sys.peer, m, answer, true).client, StillWaits(sys.waiting, m), u);
    }
  }

  /** The next message for the peer fits, and is the next block if it is one; then the remaining blocks remain. */
  lemma {:induction false} NextOfRest(sys: System, r: Route, t: Trail, m: Message, rest: seq<Packet>)
    requires Delivering(sys, r, t) && Contents(t.down) == [m] + Contents(rest)
    ensures Fits(m, sys.waiting) && (m.FileData? ==> m == BlockAt(r.file, t.saved))
    ensures var n := SavedAfter(t.saved, m);
            n <= Final(r.file) ==>
              Expects(Contents(rest) + sys.server.sessions[r.p].queue, Rest(r.file, n), StillWaits(sys.waiting, m))
  {
    FlowShrinks(sys, r, t, m, rest);
    ExpectedHead(m, Contents(rest) + sys.server.sessions[r.p].queue, Rest(r.file, t.saved), sys.waiting);
    RestShrinks(r.file, t.saved, SavedAfter(t.saved, m));
  }

  lemma RestShrinks(file: seq<byte>, saved: nat, n: nat)
    requires Storable(file) && saved <= Final(file) && saved <= n <= saved + 1
    ensures |Rest(file, saved)| == Final(file) + 1 - saved && Rest(file, saved)[0] == BlockAt(file, saved)
    ensures n <= Final(file) ==> Rest(file, n) == Rest(file, saved)[n - saved..]
  {
  }

  lemma {:induction false} ExpectedHead(m: Message, g: seq<Message>, bs: seq<Message>, waiting: bool)
    requires Expects([m] + g, bs, waiting)
    ensures Fits(m, waiting) && (m.FileData? ==> bs != [] && m == bs[0])
    ensures !m.FileData? ==> Expects(g, bs, StillWaits(waiting, m))
    ensures m.FileData? && |bs| > 1 ==> Expects(g, bs[1..], StillWaits(waiting, m))
  {
    assert ([m] + g)[0] == m && ([m] + g)[1..] == g;
  }

  // ---------- all steps ----------

  lemma StepKeeps(sys: System, r: Route, t: Trail, step: Step) returns (u: Trail)
    requires Invariant(sys, r, t) && Allowed(sys, r, step)
    ensures Safe(Next(sys, r, step), r, u)
  {
    if Underway(sys, r, t) {
      u := UnderwayStep(sys, r, t, step);
    } else {
      u := DeliveringStep(sys, r, t, step);
    }
  }

  lemma UnderwayStep(sys: System, r: Route, t: Trail, step: Step) returns (u: Trail)
    requires Underway(sys, r, t) && Allowed(sys, r, step)
    ensures Invariant(Next(sys, r, step), r, u)
    ensures !step.ServerReads? ==> Underway(Next(sys, r, step), r, u)
  {
    u := t;
    match step {
      case SenderCycles(_) => u := SenderCyclesKeeps(sys, r, t);
      case SenderSays(m) => SenderSaysKeeps(sys, r, t, m);
      case SenderReads(n, answer, canOpen) => u := SenderReadsKeeps(sys, r, t, n, answer, canOpen);
      case SenderWrites(pad) => u := SenderWritesKeeps(sys, r, t, pad);
      case ServerReads(n, nameFree) => u := ServerReadsKeeps(sys, r, t, n, nameFree);
      case ServerDoes(e) => ServerDoesKeeps(sys, r, t, e);
      case ServerAnswers(pad) => u := ServerAnswersKeeps(sys, r, t, pad);
      case ServerWrites(pad) => u := ServerWritesUnderway(sys, r, t, pad);
      case PeerReads(n, answer, _) => u := PeerReadsUnderway(sys, r, t, n, answer);
    }
  }

  lemma DeliveringStep(sys: System, r: Route, t: Trail, step: Step) returns (u: Trail)
    requires Delivering(sys, r, t) && Allowed(sys, r, step)
    ensures DeliversOn(Next(sys, r, step), r, u)
  {
    u := t;
    match step {
      case ServerReads(n, nameFree) => ServerReadsRest(sys, r, t, n, nameFree);
      case ServerDoes(e) => ServerCannotHurt(sys, r, t, e, Next(sys, r, step));
      case ServerAnswers(_) => ServerCannotHurt(sys, r, t, Server.Write(r.s), Next(sys, r, step));
      case ServerWrites(pad) => u := ServerWritesRest(sys, r, t, pad);
      case PeerReads(n, answer, _) => u := PeerReadsDelivering(sys, r, t, n, answer);
      case _ => SenderCannotHurt(sys, r, t, Next(sys, r, step));
    }
  }

  lemma ServerReadsRest(sys: System, r: Route, t: Trail, n: nat, nameFree: bool)
    requires Delivering(sys, r, t) && Allowed(sys, r, ServerReads(n, nameFree))
    ensures Delivering(Next(sys, r, ServerReads(n, nameFree)), r, t)
  {
    var next := Next(sys, r, ServerReads(n, nameFree));
    NewsIsWellFormed(sys.up, n);
    match News(sys.up, n) {
      case None => SenderCannotHurt(sys, r, t, next);
      case Some(m) => ServerCannotHurt(sys, r, t, Server.Deliver(r.s, m, nameFree), next);
    }
  }

  lemma SenderCannotHurt(sys: System, r: Route, t: Trail, sys': System)
    requires Delivering(sys, r, t)
    requires sys'.server == sys.server && LeavesPeer(sys, sys')
    ensures Delivering(sys', r, t)
  {
    assert Flow(sys', r, t) == Flow(sys, r, t);
  }

  // ---------- runs ----------

  /** A run of allowed steps that ends, at the latest, when the peer has handled the last block. */
  ghost predicate AllowedRun(sys: System, r: Route, steps: seq<Step>)
    decreases |steps|
  {
    steps == []
      || (Unfinished(sys) && Allowed(sys, r, steps[0]) && AllowedRun(Next(sys, r, steps[0]), r, steps[1..]))
  }

  ghost function Reached(sys: System, r: Route, steps: seq<Step>): (result: System)
    requires AllowedRun(sys, r, steps)
    decreases |steps|
  {
    if steps == [] then sys else Reached(Next(sys, r, steps[0]), r, steps[1..])
  }

  /**
   * The start of a transfer: the server has given its go-ahead to the one sender, which has read it; the peer is in
   * Accept status and has accepted the request, or the request is on its way to it; and nothing that would disturb the
   * transfer is under way. Other messages may be, anywhere, and in the middle of being received.
   */
  predicate Ready(sys: System, r: Route, up: seq<Packet>, back: seq<Packet>, down: seq<Packet>) {
    && Sending(sys.sender, r.file, 0) && sys.running && AllWell(sys.sender.queue) && Data(sys.sender.queue) == []
    && Carries(sys.up, up) && Data(Contents(up)) == [] && AllMild(Contents(up) + sys.sender.queue)
    && Granted(sys.server, r) && !sys.handed
    && AllWell(sys.server.sessions[r.s].queue) && AllWell(sys.server.sessions[r.p].queue)
    && Carries(sys.back, back) && AllGentle(Contents(back) + sys.server.sessions[r.s].queue)
    && Carries(sys.down, down) && Data(Contents(down) + sys.server.sessions[r.p].queue) == []
    && Clear(Contents(down) + sys.server.sessions[r.p].queue, sys.waiting)
    && PeerAt(sys.peer, sys.waiting, r.file, r.path, 0) && !sys.aborted
  }

  lemma ReadyIsUnderway(sys: System, r: Route, up: seq<Packet>, back: seq<Packet>, down: seq<Packet>)
    requires Ready(sys, r, up, back, down)
    ensures Underway(sys, r, Trail(0, 0, up, back, down))
  {
    var t := Trail(0, 0, up, back, down);
    assert Flow(sys, r, t) == Contents(down) + sys.server.sessions[r.p].queue;
    assert Replies(sys, r, t) == Contents(back) + sys.server.sessions[r.s].queue;
    assert BlocksOf(r.file, 0) + ([] + ([] + [])) == BlocksOf(r.file, 0);
  }

  lemma {:induction false} InvariantHolds(sys: System, r: Route, t: Trail, steps: seq<Step>) returns (u: Trail)
    requires Invariant(sys, r, t) && AllowedRun(sys, r, steps)
    ensures Safe(Reached(sys, r, steps), r, u)
    decreases |steps|
  {
    u := t;
    if steps != [] {
      var next := Next(sys, r, steps[0]);
      u := StepKeeps(sys, r, t, steps[0]);
      if Invariant(next, r, u) {
        u := InvariantHolds(next, r, u, steps[1..]);
      }
    }
  }

  /**
   * End-to-end file integrity: for every file, every cutting of the three byte streams into received pieces and every
   * interleaving with other sessions, other messages and other queues, the peer is never aborted; from the request on
   * its file is the source up to the end of some block; and once it has handled the last block, its file is the source.
   */
  lemma {:induction false} FileArrivesIntact(sys: System, r: Route, up: seq<Packet>, back: seq<Packet>,
                                             down: seq<Packet>, steps: seq<Step>)
    requires Ready(sys, r, up, back, down) && AllowedRun(sys, r, steps)
    ensures var z := Reached(sys, r, steps);
            && !z.aborted
            && (z.waiting ==> z.peer.handle.Closed?)
            && (!z.waiting && z.peer.isReceiving ==> exists k: nat :: InOrder(z.peer, r.file, r.path, k))
            && (!z.waiting && !z.peer.isReceiving ==> r.path in z.peer.disk && z.peer.disk[r.path] == r.file)
  {
    ReadyIsUnderway(sys, r, up, back, down);
    var u := InvariantHolds(sys, r, Trail(0, 0, up, back, down), steps);
  }
}
