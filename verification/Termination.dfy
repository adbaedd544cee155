/**
 * Where nothing but blocks travels, a transfer does not only stay possible: it ends. Only so many productive steps can
 * be made, in whatever order and with whatever pieces, and there always is one until the file has arrived.
 */
module Termination {
  import opened Bytes
  import opened Messages
  import opened Framing
  import Server = ServerModel
  import opened Relays
  import opened ClientModel
  import opened Splitting
  import opened Reassembly
  import opened Transfer
  import opened EndToEnd
  import opened Completion
  import opened Quiescence

  /** The step cuts, writes or reads something on the way from the sender to the peer. */
  predicate Productive(sys: System, step: Step) {
    match step
    case SenderCycles(_) => sys.sender.isSending && Server.CanSend(sys.sender.queue)
    case SenderWrites(_) => true
    case ServerReads(_, _) => true
    case ServerWrites(_) => true
    case PeerReads(_, _, _) => true
    case _ => false
  }

  /** Nothing but blocks is queued by the sender or on its way. */
  predicate Clean(sys: System, r: Route) {
    Pure(sys, r) && OnlyBlocks(sys.sender.queue)
  }

  /** Blocks come from the sender's cycles only. */
  predicate NoOtherBlocks(step: Step) {
    match step
    case SenderSays(m) => !m.FileData?
    case ServerDoes(e) => e.Deliver? ==> !e.msg.FileData?
    case _ => true
  }

  ghost predicate CleanRun(sys: System, r: Route, steps: seq<Step>)
    requires AllowedRun(sys, r, steps)
    decreases |steps|
  {
    Clean(sys, r) && (steps == [] || (NoOtherBlocks(steps[0]) && CleanRun(Next(sys, r, steps[0]), r, steps[1..])))
  }

  /** How many steps of a run are productive. */
  ghost function Productives(sys: System, r: Route, steps: seq<Step>): (n: nat)
    requires AllowedRun(sys, r, steps)
    decreases |steps|
  {
    if steps == [] then 0
    else (if Productive(sys, steps[0]) then 1 else 0) + Productives(Next(sys, r, steps[0]), r, steps[1..])
  }

  // ---------- the work that is left ----------

  // A byte to the peer is worth one step, a queued message one more than its bytes, a byte to the server one more than
  // the message it may complete, and so on up to a block that is still to be cut.
  const RELAYED: nat := MAX_MESSAGE_SIZE + 1
  const SENT: nat := RELAYED + 1
  const QUEUED: nat := MAX_MESSAGE_SIZE * SENT + 1
  const CUT: nat := QUEUED + 1

  /** The blocks the sender has still to cut. */
  function Uncut(c: Client, file: seq<byte>): (n: nat) {
    if c.isSending && c.offset / BLOCK <= Final(file) then Final(file) + 1 - c.offset / BLOCK else 0
  }

  function QueueOf(s: Server.Server, p: Server.Id): (q: seq<Message>) {
    if p in s.sessions then s.sessions[p].queue else []
  }

  /** Blocks to cut, messages queued, bytes to the server, messages relayed, bytes to the peer. */
  function Total(uncut: nat, queued: nat, sent: nat, relayed: nat, down: nat): (n: nat) {
    uncut * CUT + queued * QUEUED + sent * SENT + relayed * RELAYED + down
  }

  function Work(sys: System, r: Route): (n: nat) {
    Total(Uncut(sys.sender, r.file), |sys.sender.queue|, |sys.up.wire|, |QueueOf(sys.server, r.p)|, |sys.down.wire|)
  }

  /** A productive step leaves less work, and no other leaves more. */
  predicate Works(sys: System, r: Route, step: Step, next: System) {
    Work(next, r) + (if Productive(sys, step) then 1 else 0) <= Work(sys, r)
  }

  lemma CutCounts(uncut: nat, queued: nat, sent: nat, relayed: nat, down: nat)
    requires uncut > 0
    ensures Total(uncut - 1, queued + 1, sent, relayed, down) < Total(uncut, queued, sent, relayed, down)
  {
  }

  lemma WriteCounts(uncut: nat, queued: nat, sent: nat, relayed: nat, down: nat, frame: nat)
    requires queued > 0 && frame <= MAX_MESSAGE_SIZE
    ensures Total(uncut, queued - 1, sent + frame, relayed, down) < Total(uncut, queued, sent, relayed, down)
  {
  }

  lemma ReadCounts(uncut: nat, queued: nat, sent: nat, relayed: nat, down: nat, n: nat, gained: nat)
    requires 0 < n <= sent && gained <= 1
    ensures Total(uncut, queued, sent - n, relayed + gained, down) < Total(uncut, queued, sent, relayed, down)
  {
  }

  lemma RelayCounts(uncut: nat, queued: nat, sent: nat, relayed: nat, down: nat, frame: nat)
    requires relayed > 0 && frame <= MAX_MESSAGE_SIZE
    ensures Total(uncut, queued, sent, relayed - 1, down + frame) < Total(uncut, queued, sent, relayed, down)
  {
  }

  lemma UncutIs(c: Client, file: seq<byte>, k: nat)
    requires Progress(c, file, k) && Storable(file)
    ensures Uncut(c, file) == Final(file) + 1 - k
  {
    if k <= Final(file) {
      assert c.offset / BLOCK == k;
    }
  }

  // ---------- once the sender has done its part ----------

  predicate SenderDone(sys: System) {
    !sys.sender.isSending && sys.sender.queue == [] && sys.up.wire == [] && sys.up.input.buf == []
  }

  /** The invariant: a whole block never waits in a buffer, and behind the last block nothing comes. */
  predicate Going(sys: System, r: Route, t: Trail) {
    PromptlyUnderway(sys, r, t) || (PromptlyDelivering(sys, r, t) && SenderDone(sys))
  }

  lemma {:induction false} HeadIsBlock(m: Message, rest: seq<Message>)
    requires OnlyBlocks([m] + rest)
    ensures m.FileData? && OnlyBlocks(rest)
  {
    var all := [m] + rest;
    assert all[0] == m && forall i :: 0 <= i < |rest| ==> rest[i] == all[i + 1];
  }

  lemma {:induction false} EmptyContents(l: Link, ws: seq<Packet>)
    requires Carries(l, ws) && Contents(ws) == []
    ensures l.wire == [] && l.input.buf == []
  {
    assert |l.input.buf + l.wire| == 0;
  }

  // ---------- the sender's steps ----------

  /** A cycle cuts the next block, or does nothing that counts. */
  lemma CycleCuts(c: Client, file: seq<byte>, k: nat)
    requires Progress(c, file, k) && Storable(file)
    ensures var d := Cycle(c, true);
            if c.isSending && Server.CanSend(c.queue) then
              && Uncut(c, file) == Uncut(d, file) + 1
              && |d.queue| == |c.queue| + 1 && (OnlyBlocks(c.queue) ==> OnlyBlocks(d.queue))
            else Uncut(d, file) == Uncut(c, file) && d.queue == c.queue
  {
    UncutIs(c, file, k);
    if k <= Final(file) {
      CycleSendsNext(c, file, k);
      UncutIs(Cycle(c, true), file, if Server.CanSend(c.queue) then k + 1 else k);
    }
  }

  lemma CycleWorks(sys: System, r: Route, t: Trail)
    requires Underway(sys, r, t) && Possible(sys, r, SenderCycles(true)) && Clean(sys, r)
    ensures var next := Next(sys, r, SenderCycles(true));
            Works(sys, r, SenderCycles(true), next) && Clean(next, r)
  {
    CycleCuts(sys.sender, r.file, t.k);
    SenderCutsWork(sys, r, Cycle(sys.sender, true));
  }

  lemma SenderCutsWork(sys: System, r: Route, d: Client)
    requires Clean(sys, r)
    requires var c := sys.sender;
             if c.isSending && Server.CanSend(c.queue) then
               && Uncut(c, r.file) == Uncut(d, r.file) + 1
               && |d.queue| == |c.queue| + 1 && (OnlyBlocks(c.queue) ==> OnlyBlocks(d.queue))
             else Uncut(d, r.file) == Uncut(c, r.file) && d.queue == c.queue
    ensures Works(sys, r, SenderCycles(true), sys.(sender := d)) && Clean(sys.(sender := d), r)
  {
    if sys.sender.isSending && Server.CanSend(sys.sender.queue) {
      CutCounts(Uncut(sys.sender, r.file), |sys.sender.queue|, |sys.up.wire|, |QueueOf(sys.server, r.p)|,
        |sys.down.wire|);
    }
  }

  /** If the queue holds only blocks afterwards, nothing else has been queued. */
  lemma NothingQueued(q: seq<Message>, m: Message)
    requires !m.FileData? && OnlyBlocks(Server.Enqueue(q, m))
    ensures Server.Enqueue(q, m) == q
  {
    if Server.CanSend(q) {
      LastIsBlock(q, m);
    }
  }

  lemma LastIsBlock(q: seq<Message>, m: Message)
    ensures OnlyBlocks(q + [m]) ==> m.FileData?
  {
    assert (q + [m])[|q|] == m;
  }

  lemma SayingIsNoWork(sys: System, r: Route, m: Message)
    requires Possible(sys, r, SenderSays(m)) && !m.FileData? && Clean(Next(sys, r, SenderSays(m)), r)
    ensures Next(sys, r, SenderSays(m)) == sys
  {
    NothingQueued(sys.sender.queue, m);
  }

  /** A client that is not sending is not made to send by what it hears. */
  lemma HearsAtRest(c: Client, m: Message, answer: Answer, canOpen: bool)
    requires c.Valid() && !c.isSending
    ensures var heard := Receives(c, m, answer, canOpen);
            heard.Continues? ==>
              && !heard.client.isSending
              && (OnlyBlocks(heard.client.queue) ==> heard.client.queue == c.queue)
  {
    if m.FileRequest? {
      LastIsBlock(c.queue, Status(if answer.accept then ACCEPT_FILE_TRANSFER else REJECT_FILE_TRANSFER));
    }
  }

  /** Reading what the server tells the sender changes no more than this. */
  lemma AfterHearing(sys: System, r: Route, n: nat, answer: Answer, canOpen: bool)
    requires Possible(sys, r, SenderReads(n, answer, canOpen))
    ensures var next := Next(sys, r, SenderReads(n, answer, canOpen));
            && next.up == sys.up && next.server == sys.server && next.down == sys.down && next.peer == sys.peer
            && next.waiting == sys.waiting
            && (next.sender == sys.sender
                || (News(sys.back, n).Some?
                    && Receives(sys.sender, News(sys.back, n).value, answer, canOpen) == Continues(next.sender)))
  {
  }

  lemma WriteWorks(sys: System, r: Route, t: Trail, pad: Padding)
    requires Underway(sys, r, t) && Possible(sys, r, SenderWrites(pad)) && Clean(sys, r)
    ensures var next := Next(sys, r, SenderWrites(pad));
            Works(sys, r, SenderWrites(pad), next) && Clean(next, r)
  {
    var q := sys.sender.queue;
    QueueIsBlocks(q);
    SendsBlock(sys.up, t.up, q[0], pad);
    SenderWritesWork(sys, r, sys.sender.(queue := q[1..]), Sent(sys.up, q[0], pad), pad);
  }

  lemma QueueIsBlocks(q: seq<Message>)
    requires OnlyBlocks(q) && q != []
    ensures q[0].FileData? && OnlyBlocks(q[1..])
  {
  }

  /** A block more on the link. */
  lemma {:induction false} SendsBlock(l: Link, ws: seq<Packet>, m: Message, pad: Padding)
    requires Carries(l, ws) && OnlyBlocks(Coming(l)) && m.FileData? && m.WellFormed()
    ensures OnlyBlocks(Coming(Sent(l, m, pad)))
    ensures |Sent(l, m, pad).wire| <= |l.wire| + MAX_MESSAGE_SIZE
  {
    SentCarries(l, ws, m, pad);
    ComingIs(l, ws);
    ComingIs(Sent(l, m, pad), ws + [Packet(m, pad)]);
    BlocksAndBlock(Contents(ws), m);
  }

  lemma SenderWritesWork(sys: System, r: Route, c: Client, link: Link, pad: Padding)
    requires Clean(sys, r) && sys.sender.queue != [] && c == sys.sender.(queue := sys.sender.queue[1..])
    requires OnlyBlocks(c.queue) && OnlyBlocks(Coming(link))
    requires |sys.up.wire| <= |link.wire| <= |sys.up.wire| + MAX_MESSAGE_SIZE
    ensures Works(sys, r, SenderWrites(pad), sys.(sender := c, up := link)) && Clean(sys.(sender := c, up := link), r)
  {
    WriteCounts(Uncut(sys.sender, r.file), |sys.sender.queue|, |sys.up.wire|, |QueueOf(sys.server, r.p)|,
      |sys.down.wire|, |link.wire| - |sys.up.wire|);
  }

  lemma BlocksAndBlock(ms: seq<Message>, m: Message)
    requires OnlyBlocks(ms) && m.FileData?
    ensures OnlyBlocks(ms + [m])
  {
  }

  // ---------- the server's steps ----------

  /** Of a block, a session's queue gains the block or nothing. */
  lemma BlockIsGained(s: Server.Server, c: Server.Id, p: Server.Id, m: Message, nameFree: bool)
    requires c in s.sessions && p in s.sessions && c != p && m.FileData? && m.WellFormed()
    ensures var t := Server.Exec(s, Server.Deliver(c, m, nameFree));
            && p in t.sessions
            && (t.sessions[p].queue == s.sessions[p].queue || t.sessions[p].queue == s.sessions[p].queue + [m])
  {
    OtherQueue(s, c, m, nameFree, p);
    assert s.sessions[p].queue + [] == s.sessions[p].queue;
  }

  /** What is left on a link of blocks after a read, and what was read. */
  lemma {:induction false} ReadsBlock(l: Link, ws: seq<Packet>, n: nat) returns (rest: seq<Packet>)
    requires Carries(l, ws) && CanRead(l, n) && OnlyBlocks(Coming(l))
    ensures Carries(Read(l, n), rest) && OnlyBlocks(Contents(rest)) && Coming(Read(l, n)) == Contents(rest)
    ensures News(l, n).Some? ==>
              && News(l, n).value.FileData? && News(l, n).value.WellFormed()
              && Contents(ws) == [News(l, n).value] + Contents(rest)
  {
    rest := ReadCarries(l, ws, n);
    ComingIs(l, ws);
    ComingIs(Read(l, n), rest);
    if News(l, n).Some? {
      HeadIsBlock(News(l, n).value, Contents(rest));
    }
  }

  lemma ReadWorks(sys: System, r: Route, t: Trail, n: nat, nameFree: bool)
    requires Underway(sys, r, t) && Possible(sys, r, ServerReads(n, nameFree)) && Clean(sys, r)
    ensures var next := Next(sys, r, ServerReads(n, nameFree));
            && Works(sys, r, ServerReads(n, nameFree), next) && Clean(next, r)
            && (News(sys.up, n).Some? && IsLast(News(sys.up, n).value) ==> SenderDone(next))
  {
    var rest := ReadsBlock(sys.up, t.up, n);
    AfterServerRead(sys, r, n, nameFree);
    match News(sys.up, n) {
      case None => ServerReadsWork(sys, r, n, nameFree, Next(sys, r, ServerReads(n, nameFree)));
      case Some(m) =>
        BlockIsGained(sys.server, r.s, r.p, m, nameFree);
        BlocksAndBlock(sys.server.sessions[r.p].queue, m);
        ServerReadsWork(sys, r, n, nameFree, Next(sys, r, ServerReads(n, nameFree)));
        if IsLast(m) {
          NothingBehindLast(sys, r, t, m, Contents(rest));
          EmptyContents(Read(sys.up, n), rest);
        }
    }
  }

  lemma ServerReadsWork(sys: System, r: Route, n: nat, nameFree: bool, next: System)
    requires Clean(sys, r) && CanRead(sys.up, n) && next.up == Read(sys.up, n) && OnlyBlocks(Coming(next.up))
    requires next.sender == sys.sender && next.down == sys.down
    requires r.p in sys.server.sessions && r.p in next.server.sessions
    requires var (q, q') := (sys.server.sessions[r.p].queue, next.server.sessions[r.p].queue);
             OnlyBlocks(q') && |q| <= |q'| <= |q| + 1
    ensures Works(sys, r, ServerReads(n, nameFree), next) && Clean(next, r)
  {
    ReadCounts(Uncut(sys.sender, r.file), |sys.sender.queue|, |sys.up.wire|, |QueueOf(sys.server, r.p)|,
      |sys.down.wire|, n, |QueueOf(next.server, r.p)| - |QueueOf(sys.server, r.p)|);
  }

  /** Behind the last block the sender has queued nothing, and cuts nothing. */
  lemma NothingBehindLast(sys: System, r: Route, t: Trail, m: Message, rest: seq<Message>)
    requires Underway(sys, r, t) && Contents(t.up) == [m] + rest && IsLast(m)
    requires OnlyBlocks(rest) && OnlyBlocks(sys.sender.queue)
    ensures rest == [] && sys.sender.queue == [] && !sys.sender.isSending
  {
    DataOfHead(m, rest);
    BlocksAreData(rest);
    BlocksAreData(sys.sender.queue);
    var a, f, q := BlocksOf(r.file, t.saved), Data(Flow(sys, r, t)), sys.sender.queue;
    Associative(a, f, ([m] + rest) + q);
    Associative([m], rest, q);
    BlockInPlace(r.file, a + f, m, rest + q, t.k);
  }

  lemma {:induction false} NothingGained(s: Server.Server, e: Server.Event, p: Server.Id)
    requires Server.Enabled(s, e) && p in s.sessions && e != Server.Leave(p) && e != Server.Write(p)
    requires e.Deliver? ==> !e.msg.FileData?
    requires p in Server.Exec(s, e).sessions && OnlyBlocks(Server.Exec(s, e).sessions[p].queue)
    ensures Server.Exec(s, e).sessions[p].queue == s.sessions[p].queue
  {
    QueueGrows(s, e, p);
    BlocksInGain(s, e, p);
    assert Server.Exec(s, e).sessions[p].queue == s.sessions[p].queue + Gain(s, e, p);
    NoBlocksAdded(s.sessions[p].queue, Gain(s, e, p));
  }

  lemma {:induction false} NoBlocksAdded(q: seq<Message>, gain: seq<Message>)
    requires OnlyBlocks(q + gain) && Data(gain) == []
    ensures q + gain == q
  {
    assert forall i :: 0 <= i < |gain| ==> gain[i] == (q + gain)[|q| + i];
    BlocksAreData(gain);
  }

  lemma RelayWorks(sys: System, r: Route, t: Trail, pad: Padding)
    requires Wired(sys, r, t) && Possible(sys, r, ServerWrites(pad)) && Clean(sys, r)
    ensures var next := Next(sys, r, ServerWrites(pad));
            Works(sys, r, ServerWrites(pad), next) && Clean(next, r)
  {
    var q := sys.server.sessions[r.p].queue;
    QueueIsBlocks(q);
    SendsBlock(sys.down, t.down, q[0], pad);
    QueueAfterWrite(sys.server, r.p);
    ServerWritesWork(sys, r, Server.Exec(sys.server, Server.Write(r.p)), Sent(sys.down, q[0], pad), pad);
  }

  lemma ServerWritesWork(sys: System, r: Route, after: Server.Server, link: Link, pad: Padding)
    requires Clean(sys, r) && r.p in sys.server.sessions && sys.server.sessions[r.p].queue != []
    requires r.p in after.sessions && after.sessions[r.p].queue == sys.server.sessions[r.p].queue[1..]
    requires OnlyBlocks(after.sessions[r.p].queue) && OnlyBlocks(Coming(link))
    requires |sys.down.wire| <= |link.wire| <= |sys.down.wire| + MAX_MESSAGE_SIZE
    ensures var next := sys.(server := after, down := link);
            Works(sys, r, ServerWrites(pad), next) && Clean(next, r)
  {
    RelayCounts(Uncut(sys.sender, r.file), |sys.sender.queue|, |sys.up.wire|, |QueueOf(sys.server, r.p)|,
      |sys.down.wire|, |link.wire| - |sys.down.wire|);
  }

  // ---------- the peer's steps ----------

  lemma PeerWorks(sys: System, r: Route, t: Trail, n: nat, answer: Answer, canOpen: bool)
    requires Wired(sys, r, t) && Possible(sys, r, PeerReads(n, answer, canOpen)) && Clean(sys, r)
    ensures var next := Next(sys, r, PeerReads(n, answer, canOpen));
            Works(sys, r, PeerReads(n, answer, canOpen), next) && Clean(next, r)
  {
    var rest := ReadsBlock(sys.down, t.down, n);
  }

  // ---------- all steps ----------

  /** The steps that are not productive leave everything that counts as it is. */
  predicate Same(sys: System, r: Route, next: System) {
    && next.sender.queue == sys.sender.queue && Uncut(next.sender, r.file) == Uncut(sys.sender, r.file)
    && next.up == sys.up && QueueOf(next.server, r.p) == QueueOf(sys.server, r.p) && next.down == sys.down
  }

  lemma SameWork(sys: System, r: Route, next: System)
    requires Same(sys, r, next)
    ensures Work(next, r) == Work(sys, r)
  {
  }

  lemma HearingIsNoWork(sys: System, r: Route, t: Trail, n: nat, answer: Answer, canOpen: bool)
    requires Underway(sys, r, t) && Possible(sys, r, SenderReads(n, answer, canOpen))
    ensures Same(sys, r, Next(sys, r, SenderReads(n, answer, canOpen)))
  {
    AfterHearing(sys, r, n, answer, canOpen);
    UncutIs(sys.sender, r.file, t.k);
    if News(sys.back, n).Some? {
      var m := News(sys.back, n).value;
      var rest := ReadCarries(sys.back, t.back, n);
      HeadIsGentle(sys, r, t, rest, m);
      HearsGently(sys.sender, r.file, t.k, m, answer, canOpen);
      UncutIs(Next(sys, r, SenderReads(n, answer, canOpen)).sender, r.file, t.k);
    }
  }

  lemma EventIsNoWork(sys: System, r: Route, t: Trail, e: Server.Event)
    requires Wired(sys, r, t) && Allowed(sys, r, ServerDoes(e)) && NoOtherBlocks(ServerDoes(e))
    requires Clean(Next(sys, r, ServerDoes(e)), r)
    ensures Same(sys, r, Next(sys, r, ServerDoes(e)))
  {
    QueueGains(sys.server, e, r.p, []);
    NothingGained(sys.server, e, r.p);
  }

  lemma AnswerIsNoWork(sys: System, r: Route, t: Trail, pad: Padding)
    requires Wired(sys, r, t) && Possible(sys, r, ServerAnswers(pad))
    ensures Same(sys, r, Next(sys, r, ServerAnswers(pad)))
  {
    QueueAfterWrite(sys.server, r.s);
  }

  lemma UnderwayWorks(sys: System, r: Route, t: Trail, step: Step)
    requires Underway(sys, r, t) && Clean(sys, r) && Allowed(sys, r, step) && NoOtherBlocks(step)
    requires Productive(sys, step) || Clean(Next(sys, r, step), r)
    ensures Works(sys, r, step, Next(sys, r, step)) && Clean(Next(sys, r, step), r)
  {
    match step {
      case SenderCycles(_) => CycleWorks(sys, r, t);
      case SenderSays(m) => SayingIsNoWork(sys, r, m);
      case SenderReads(n, answer, canOpen) =>
        HearingIsNoWork(sys, r, t, n, answer, canOpen);
        SameWork(sys, r, Next(sys, r, step));
      case SenderWrites(pad) => WriteWorks(sys, r, t, pad);
      case ServerReads(n, nameFree) => ReadWorks(sys, r, t, n, nameFree);
      case ServerDoes(e) =>
        EventIsNoWork(sys, r, t, e);
        SameWork(sys, r, Next(sys, r, step));
      case ServerAnswers(pad) =>
        AnswerIsNoWork(sys, r, t, pad);
        SameWork(sys, r, Next(sys, r, step));
      case ServerWrites(pad) => RelayWorks(sys, r, t, pad);
      case PeerReads(n, answer, canOpen) => PeerWorks(sys, r, t, n, answer, canOpen);
    }
  }

  lemma DoneSenderHears(sys: System, r: Route, n: nat, answer: Answer, canOpen: bool)
    requires SenderDone(sys) && Possible(sys, r, SenderReads(n, answer, canOpen))
    requires Clean(Next(sys, r, SenderReads(n, answer, canOpen)), r)
    ensures var next := Next(sys, r, SenderReads(n, answer, canOpen)); Same(sys, r, next) && SenderDone(next)
  {
    AfterHearing(sys, r, n, answer, canOpen);
    if News(sys.back, n).Some? {
      HearsAtRest(sys.sender, News(sys.back, n).value, answer, canOpen);
    }
  }

  lemma DoneSenderCycles(sys: System, r: Route, canOpen: bool)
    requires SenderDone(sys) && Possible(sys, r, SenderCycles(canOpen))
    ensures Next(sys, r, SenderCycles(canOpen)) == sys
  {
  }

  lemma DeliveringRests(sys: System, r: Route, t: Trail, step: Step, next: System)
    requires Wired(sys, r, t) && SenderDone(sys) && Allowed(sys, r, step) && NoOtherBlocks(step)
    requires next == Next(sys, r, step) && !step.ServerWrites? && !step.PeerReads? && Clean(next, r)
    ensures Same(sys, r, next) && SenderDone(next)
  {
    match step {
      case SenderCycles(canOpen) => DoneSenderCycles(sys, r, canOpen);
      case SenderSays(m) => SayingIsNoWork(sys, r, m);
      case SenderReads(n, answer, canOpen) => DoneSenderHears(sys, r, n, answer, canOpen);
      case ServerDoes(e) => EventIsNoWork(sys, r, t, e);
      case ServerAnswers(pad) => AnswerIsNoWork(sys, r, t, pad);
      case _ =>
    }
  }

  lemma DownIsDown(sys: System, r: Route, step: Step, next: System)
    requires Possible(sys, r, step) && next == Next(sys, r, step) && (step.ServerWrites? || step.PeerReads?)
    ensures next.sender == sys.sender && next.up == sys.up
  {
  }

  lemma DeliveringWorks(sys: System, r: Route, t: Trail, step: Step, next: System)
    requires Wired(sys, r, t) && SenderDone(sys)
    requires Clean(sys, r) && Allowed(sys, r, step) && NoOtherBlocks(step) && next == Next(sys, r, step)
    requires Productive(sys, step) || Clean(next, r)
    ensures Works(sys, r, step, next) && Clean(next, r) && SenderDone(next)
  {
    if step.ServerWrites? {
      RelayWorks(sys, r, t, step.pad);
      DownIsDown(sys, r, step, next);
    } else if step.PeerReads? {
      PeerWorks(sys, r, t, step.n, step.answer, step.canOpen);
      DownIsDown(sys, r, step, next);
    } else {
      DeliveringRests(sys, r, t, step, next);
      SameWork(sys, r, next);
    }
  }

  lemma UnderwayGoesOn(sys: System, r: Route, t: Trail, step: Step) returns (u: Trail)
    requires PromptlyUnderway(sys, r, t) && Clean(sys, r) && Allowed(sys, r, step)
    ensures Going(Next(sys, r, step), r, u)
  {
    ReceivesPromptly(sys, r, t, step);
    if step.ServerReads? {
      u := ServerReadsKeeps(sys, r, t, step.n, step.nameFree);
      ReadWorks(sys, r, t, step.n, step.nameFree);
    } else {
      u := UnderwayStep(sys, r, t, step);
    }
  }

  /** Every step keeps the invariant, and a productive one keeps the ways clean and leaves less work. */
  lemma GoingOn(sys: System, r: Route, t: Trail, step: Step) returns (u: Trail)
    requires Going(sys, r, t) && Clean(sys, r) && Allowed(sys, r, step) && NoOtherBlocks(step)
    requires Productive(sys, step) || Clean(Next(sys, r, step), r)
    ensures Works(sys, r, step, Next(sys, r, step)) && Clean(Next(sys, r, step), r)
    ensures Going(Next(sys, r, step), r, u) || Arrived(Next(sys, r, step), r)
  {
    if PromptlyUnderway(sys, r, t) {
      UnderwayWorks(sys, r, t, step);
      u := UnderwayGoesOn(sys, r, t, step);
    } else {
      DeliveringWorks(sys, r, t, step, Next(sys, r, step));
      u := DeliveringStaysPrompt(sys, r, t, step);
    }
  }

  // ---------- runs ----------

  lemma {:induction false} WorkIsUsedUp(sys: System, r: Route, t: Trail, steps: seq<Step>) returns (u: Trail)
    requires Going(sys, r, t) && AllowedRun(sys, r, steps) && CleanRun(sys, r, steps)
    ensures var z := Reached(sys, r, steps);
            && Productives(sys, r, steps) + Work(z, r) <= Work(sys, r) && Clean(z, r)
            && (Going(z, r, u) || Arrived(z, r))
    decreases |steps|
  {
    u := t;
    if steps != [] {
      var next := Next(sys, r, steps[0]);
      assert Clean(next, r);
      u := GoingOn(sys, r, t, steps[0]);
      if Going(next, r, u) {
        u := WorkIsUsedUp(next, r, u, steps[1..]);
      } else {
        assert steps[1..] == [];
      }
    }
  }

  lemma DownIsProductive(sys: System, r: Route, t: Trail) returns (step: Step)
    requires Wired(sys, r, t) && (sys.server.sessions[r.p].queue != [] || sys.down.wire != [])
    ensures Goes(sys, r, step) && Productive(sys, step) && NoOtherBlocks(step)
  {
    if sys.server.sessions[r.p].queue != [] {
      step := ServerWrites(NO_PADDING);
    } else {
      PeerIsValid(sys, r, t);
      var n := CanPop(sys.down, t.down);
      step := PeerReads(n, Answer(true, r.path), true);
    }
  }

  lemma PeerIsValid(sys: System, r: Route, t: Trail)
    requires Wired(sys, r, t)
    ensures sys.peer.Valid()
  {
  }

  lemma SenderIsProductive(sys: System, r: Route, t: Trail) returns (step: Step)
    requires Underway(sys, r, t) && sys.running && (sys.sender.isSending || sys.sender.queue != [])
    ensures Goes(sys, r, step) && Productive(sys, step) && NoOtherBlocks(step)
  {
    step := if sys.sender.isSending && Server.CanSend(sys.sender.queue) then SenderCycles(true)
            else SenderWrites(NO_PADDING);
  }

  lemma UpIsProductive(sys: System, r: Route, t: Trail) returns (step: Step)
    requires Underway(sys, r, t) && sys.server.sessions[r.p].queue == [] && sys.up.wire != []
    ensures Goes(sys, r, step) && Productive(sys, step) && NoOtherBlocks(step)
  {
    var n := CanPop(sys.up, t.up);
    step := ServerReads(n, true);
  }

  lemma GoingIsWired(sys: System, r: Route, t: Trail)
    requires Going(sys, r, t)
    ensures Wired(sys, r, t) && Unfinished(sys) && !Quiet(sys, r)
  {
    if Quiet(sys, r) {
      QuietIsNeither(sys, r, t);
    }
  }

  /** There is a productive step until the file has arrived. */
  lemma SomethingIsLeft(sys: System, r: Route, t: Trail) returns (step: Step)
    requires Going(sys, r, t) && sys.running
    ensures Goes(sys, r, step) && Productive(sys, step) && NoOtherBlocks(step)
  {
    GoingIsWired(sys, r, t);
    if sys.server.sessions[r.p].queue != [] || sys.down.wire != [] {
      step := DownIsProductive(sys, r, t);
    } else if sys.sender.isSending || sys.sender.queue != [] {
      step := SenderIsProductive(sys, r, t);
    } else {
      step := UpIsProductive(sys, r, t);
    }
  }

  /**
   * Termination: over every run in which nothing but blocks travels, whatever its order, its pieces and what else
   * happens in between, the sender, the server and the peer make at most as many productive steps as there is work at
   * the start; and as long as the file has not arrived and the sender's program runs, a productive step is possible,
   * after which still nothing but blocks travels.
   */
  lemma {:induction false} TransferTerminates(sys: System, r: Route, up: seq<Packet>, back: seq<Packet>,
                                              down: seq<Packet>, steps: seq<Step>)
    requires Ready(sys, r, up, back, down) && Prompt(sys.up.input) && Prompt(sys.down.input)
    requires AllowedRun(sys, r, steps) && CleanRun(sys, r, steps)
    ensures Productives(sys, r, steps) <= Work(sys, r)
    ensures var z := Reached(sys, r, steps);
            z.running && !Arrived(z, r) ==>
              && Unfinished(z)
              && exists step :: Goes(z, r, step) && Productive(z, step) && Clean(Next(z, r, step), r)
  {
    ReadyIsUnderway(sys, r, up, back, down);
    var t := Trail(0, 0, up, back, down);
    var u := WorkIsUsedUp(sys, r, t, steps);
    var z := Reached(sys, r, steps);
    if z.running && !Arrived(z, r) {
      GoingIsWired(z, r, u);
      var step := SomethingIsLeft(z, r, u);
      var v := GoingOn(z, r, u, step);
    }
  }

  // ---------- runs of productive steps only ----------

  ghost predicate ProductiveRun(sys: System, r: Route, steps: seq<Step>)
    decreases |steps|
  {
    steps == []
    || (Unfinished(sys) && Allowed(sys, r, steps[0]) && Productive(sys, steps[0])
        && ProductiveRun(Next(sys, r, steps[0]), r, steps[1..]))
  }

  /** The peer has finished, or nothing productive can be done any more. */
  ghost predicate Exhausted(sys: System, r: Route) {
    Unfinished(sys) ==> forall step :: Allowed(sys, r, step) ==> !Productive(sys, step)
  }

  lemma {:induction false} ProductiveRunIsAllowed(sys: System, r: Route, steps: seq<Step>)
    requires ProductiveRun(sys, r, steps)
    ensures AllowedRun(sys, r, steps) && Productives(sys, r, steps) == |steps|
    ensures Reached(sys, r, steps).running == sys.running
    decreases |steps|
  {
    if steps != [] {
      ProductiveKeepsRunning(sys, r, steps[0]);
      ProductiveRunIsAllowed(Next(sys, r, steps[0]), r, steps[1..]);
    }
  }

  lemma ProductiveKeepsRunning(sys: System, r: Route, step: Step)
    requires Allowed(sys, r, step) && Productive(sys, step)
    ensures Next(sys, r, step).running == sys.running
  {
  }

  lemma {:induction false} ProductiveRunIsClean(sys: System, r: Route, t: Trail, steps: seq<Step>)
    requires Going(sys, r, t) && Clean(sys, r) && ProductiveRun(sys, r, steps) && AllowedRun(sys, r, steps)
    ensures CleanRun(sys, r, steps)
    decreases |steps|
  {
    if steps != [] {
      var next := Next(sys, r, steps[0]);
      var u := GoingOn(sys, r, t, steps[0]);
      if Going(next, r, u) {
        ProductiveRunIsClean(next, r, u, steps[1..]);
      } else {
        assert steps[1..] == [];
      }
    }
  }

  /**
   * So a transfer ends by itself: cutting, writing and reading in any order and in any pieces, with nothing but blocks
   * on the way at the start, comes to an end after so many steps, and when nothing is left to do the file has arrived.
   */
  lemma {:induction false} EveryMaximalRunArrives(sys: System, r: Route, up: seq<Packet>, back: seq<Packet>,
                                                  down: seq<Packet>, steps: seq<Step>)
    requires Ready(sys, r, up, back, down) && Prompt(sys.up.input) && Prompt(sys.down.input) && Clean(sys, r)
    requires ProductiveRun(sys, r, steps)
    ensures AllowedRun(sys, r, steps) && |steps| <= Work(sys, r)
    ensures Exhausted(Reached(sys, r, steps), r) ==> Arrived(Reached(sys, r, steps), r)
  {
    ReadyIsUnderway(sys, r, up, back, down);
    ProductiveRunIsAllowed(sys, r, steps);
    ProductiveRunIsClean(sys, r, Trail(0, 0, up, back, down), steps);
    TransferTerminates(sys, r, up, back, down, steps);
  }
}
