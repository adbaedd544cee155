/** What each assumption of `Transfer.Undisturbed` is there for: what happens to a transfer without it. */
module Disturbances {
  import opened Bytes
  import opened Messages
  import opened Framing
  import Server = ServerModel
  import opened Relays
  import opened TransferLock
  import opened ClientModel
  import opened Splitting
  import opened Reassembly
  import opened Transfer
  import opened EndToEnd
  import opened Completion

  // ---------- blocks of somebody else ----------

  /**
   * A block that another session marks as its last is relayed to an accepting peer as if it were the sender's; it ends
   * the peer's transfer, with a file that is not the source.
   */
  lemma ForeignBlockSpoils(s: Server.Server, q: Server.Id, p: Server.Id, c: Client, file: seq<byte>, path: Path,
                           k: nat, x: byte)
    requires q in s.sessions && p in s.sessions && q != p && s.sessions[p].fileTransferStatus == ACCEPT_FILE_TRANSFER
    requires Server.CanSend(s.sessions[p].queue)
    requires InOrder(c, file, path, k) && |file| > BLOCK * k && |file| > 1
    ensures Gain(s, Server.Deliver(q, FileData(0, true, [x]), true), p) == [FileData(0, true, [x])]
    ensures var r := Receives(c, FileData(0, true, [x]), ANY_ANSWER, true);
            r.Continues? && Ended(r.client, path) && r.client.disk[path] != file
  {
    GainIs(s, Server.Deliver(q, FileData(0, true, [x]), true), p);
    var content := if c.handle.Closed? then [] else c.disk[path];
    assert |content| == BLOCK * k;
    assert |Overwrite(content, 0, [x])| < |file|;
  }

  // ---------- a sender that leaves ----------

  predicate OnlyBlocksOf(es: seq<Server.Event>, q: Server.Id) {
    forall i :: 0 <= i < |es| && es[i].Deliver? && es[i].msg.FileData? ==> es[i].id == q
  }

  lemma StaysAway(s: Server.Server, e: Server.Event, q: Server.Id)
    requires Server.Enabled(s, e) && q !in s.sessions && e != Server.Join(q)
    ensures q !in Server.Exec(s, e).sessions
  {
    if e.Deliver? {
      OwnQueue(s, e.id, e.msg, e.nameFree);
    }
  }

  /** After the sender has left, no peer gets a further block: the transfer stays as it is. */
  lemma {:induction false} DepartureStrands(s: Server.Server, es: seq<Server.Event>, q: Server.Id, p: Server.Id)
    requires Server.Legal(s, es) && Present(s, es, p) && q !in s.sessions && Server.Join(q) !in es
    requires OnlyBlocksOf(es, q)
    ensures Only(FILE_DATA, Accepted(s, es, p)) == []
    decreases |es|
  {
    if es != [] {
      StaysPresent(s, es, p);
      StaysAway(s, es[0], q);
      assert es[0] != Server.Join(q);
      assert forall i :: 0 <= i < |es[1..]| ==> es[1..][i] == es[i + 1];
      BlocksInGain(s, es[0], p);
      DepartureStrands(Server.Exec(s, es[0]), es[1..], q, p);
      OnlyOfConcat(FILE_DATA, Gain(s, es[0], p), Accepted(Server.Exec(s, es[0]), es[1..], p));
    }
  }

  // ---------- a peer that leaves ----------

  /** Nobody sends this block. */
  predicate Unsent(es: seq<Server.Event>, m: Message) {
    forall i :: 0 <= i < |es| && es[i].Deliver? ==> es[i].msg != m
  }

  lemma {:induction false} IsOnly(k: Kind, ms: seq<Message>, m: Message)
    requires m.Kind() == k
    ensures m in ms ==> m in Only(k, ms)
  {
    if ms != [] {
      IsOnly(k, ms[1..], m);
    }
  }

  lemma {:induction false} UnsentIsNotAccepted(s: Server.Server, es: seq<Server.Event>, p: Server.Id, m: Message)
    requires Server.Legal(s, es) && Present(s, es, p) && m.FileData? && Unsent(es, m)
    ensures m !in Accepted(s, es, p)
    decreases |es|
  {
    if es != [] {
      StaysPresent(s, es, p);
      BlocksInGain(s, es[0], p);
      IsOnly(FILE_DATA, Gain(s, es[0], p), m);
      assert forall i :: 0 <= i < |es[1..]| ==> es[1..][i] == es[i + 1];
      UnsentIsNotAccepted(Server.Exec(s, es[0]), es[1..], p, m);
    }
  }

  /**
   * A block that is in a peer's queue when the peer leaves is lost: if it joins again, the block is never written to
   * it, in any run in which nobody sends this block once more.
   */
  lemma {:induction false} DepartureDrops(s: Server.Server, p: Server.Id, m: Message, es: seq<Server.Event>)
    requires p in s.sessions && m in s.sessions[p].queue && m.FileData? && Unsent(es, m)
    requires Server.Enabled(Server.Removed(s, p), Server.Join(p))
    requires var t := Server.Added(Server.Removed(s, p), p); Server.Legal(t, es) && Present(t, es, p)
    ensures m !in Written(Server.Added(Server.Removed(s, p), p), es, p)
  {
    var t := Server.Added(Server.Removed(s, p), p);
    QueueConservation(t, es, p);
    assert [] + Accepted(t, es, p) == Accepted(t, es, p);
    UnsentIsNotAccepted(t, es, p, m);
  }

  // ---------- a peer that withdraws, or has no room ----------

  /** A block reaches the peer exactly if the peer accepts and has room at that moment; otherwise it is lost. */
  lemma BlockIsLost(s: Server.Server, q: Server.Id, p: Server.Id, m: Message, nameFree: bool)
    requires q in s.sessions && p in s.sessions && q != p && m.FileData? && m.WellFormed()
    ensures Gain(s, Server.Deliver(q, m, nameFree), p) ==
            if s.sessions[p].fileTransferStatus == ACCEPT_FILE_TRANSFER && Server.CanSend(s.sessions[p].queue) then [m]
              else []
  {
    GainIs(s, Server.Deliver(q, m, nameFree), p);
  }

  /** Nobody with this session accepts a file, or offers one. */
  predicate NeverAccepts(es: seq<Server.Event>, p: Server.Id) {
    forall i :: 0 <= i < |es| && es[i].Deliver? && es[i].id == p ==>
      !es[i].msg.FileRequest? && es[i].msg != Status(ACCEPT_FILE_TRANSFER)
  }

  lemma StaysUnwilling(s: Server.Server, e: Server.Event, p: Server.Id)
    requires Server.Enabled(s, e) && p in s.sessions && p in Server.Exec(s, e).sessions && NeverAccepts([e], p)
    requires s.sessions[p].fileTransferStatus != ACCEPT_FILE_TRANSFER
    ensures Server.Exec(s, e).sessions[p].fileTransferStatus != ACCEPT_FILE_TRANSFER
  {
    if e.Deliver? {
      assert [e][0] == e;
      if e.id == p {
        OwnMessageStaysUnwilling(s, p, e.msg, e.nameFree);
      } else if e.msg.Status? {
        OtherQueueOfStatus(s, e.id, e.msg, e.nameFree, p);
      } else {
        OtherQueue(s, e.id, e.msg, e.nameFree, p);
      }
    }
  }

  lemma OwnMessageStaysUnwilling(s: Server.Server, p: Server.Id, m: Message, nameFree: bool)
    requires p in s.sessions && !m.FileRequest? && m != Status(ACCEPT_FILE_TRANSFER)
    requires s.sessions[p].fileTransferStatus != ACCEPT_FILE_TRANSFER
    ensures p in Server.Handle(s, p, m, nameFree).sessions
    ensures Server.Handle(s, p, m, nameFree).sessions[p].fileTransferStatus != ACCEPT_FILE_TRANSFER
  {
    if m.Status? {
      var me := Server.Checked(s.sessions[p], STATUS);
      var s2 := Server.Update(Server.Update(s, p, me), p, me.(fileTransferStatus := m.code));
      assert Server.Decide(s2, p).sessions[p] == s2.sessions[p];
    }
  }

  lemma {:induction false} UnwillingGetsNothing(s: Server.Server, es: seq<Server.Event>, p: Server.Id)
    requires Server.Legal(s, es) && Present(s, es, p) && NeverAccepts(es, p)
    requires s.sessions[p].fileTransferStatus != ACCEPT_FILE_TRANSFER
    ensures Only(FILE_DATA, Accepted(s, es, p)) == []
    decreases |es|
  {
    if es != [] {
      var t := Server.Exec(s, es[0]);
      StaysPresent(s, es, p);
      assert NeverAccepts([es[0]], p);
      assert forall i :: 0 <= i < |es[1..]| ==> es[1..][i] == es[i + 1];
      StaysUnwilling(s, es[0], p);
      BlocksInGain(s, es[0], p);
      UnwillingGetsNothing(t, es[1..], p);
      OnlyOfConcat(FILE_DATA, Gain(s, es[0], p), Accepted(t, es[1..], p));
    }
  }

  lemma WithdrawalIsRecorded(s: Server.Server, p: Server.Id, nameFree: bool)
    requires p in s.sessions && s.active
    ensures var t := Server.Exec(s, Server.Deliver(p, Status(REJECT_FILE_TRANSFER), nameFree));
            p in t.sessions && t.sessions[p].fileTransferStatus == REJECT_FILE_TRANSFER
  {
    var me := Server.Checked(s.sessions[p], STATUS);
    var s2 := Server.Update(Server.Update(s, p, me), p, me.(fileTransferStatus := REJECT_FILE_TRANSFER));
    assert Server.Decide(s2, p).sessions[p] == s2.sessions[p];
  }

  /** A peer that answers Reject during the transfer gets no further block, unless it accepts or offers a file again. */
  lemma {:induction false} WithdrawalStrands(s: Server.Server, es: seq<Server.Event>, p: Server.Id)
    requires Server.Legal(s, es) && Present(s, es, p) && s.active
    requires es != [] && es[0].Deliver? && es[0].id == p && es[0].msg == Status(REJECT_FILE_TRANSFER)
    requires NeverAccepts(es[1..], p)
    ensures Only(FILE_DATA, Accepted(s, es, p)) == []
  {
    var t := Server.Exec(s, es[0]);
    StaysPresent(s, es, p);
    WithdrawalIsRecorded(s, p, es[0].nameFree);
    BlocksInGain(s, es[0], p);
    UnwillingGetsNothing(t, es[1..], p);
    OnlyOfConcat(FILE_DATA, Gain(s, es[0], p), Accepted(t, es[1..], p));
  }

  // ---------- files that cannot be opened, and requests during a transfer ----------

  lemma {:induction false} FinishedCutsNothing(c: Client, ts: seq<Tick>)
    requires Finished(c)
    ensures Emitted(c, ts) == []
  {
    var n := SplitsInOrder(c, [], 1, ts);
    assert BlocksOf([], 1) + Emitted(c, ts) == BlocksOf([], 1);
  }

  lemma {:induction false} IdleSavesNothing(c: Client, file: seq<byte>, order: seq<nat>)
    requires c.Valid() && !c.isReceiving && Storable(file) && Numbers(file, order)
    ensures Arrive(c, file, order) == c
    decreases |order|
  {
    if order != [] {
      IdleSavesNothing(Receives(c, BlockAt(file, order[0]), ANY_ANSWER, true).client, file, order[1..]);
    }
  }

  /** A peer that cannot open its file at the first block saves nothing of the file, whichever blocks follow. */
  lemma {:induction false} PeerCannotOpen(c: Client, file: seq<byte>, path: Path, answer: Answer, order: seq<nat>)
    requires InOrder(c, file, path, 0) && c.handle.Closed? && Numbers(file, order)
    ensures var r := Receives(c, BlockAt(file, 0), answer, false);
            r.Continues? && Arrive(r.client, file, order).disk == c.disk
  {
    IdleSavesNothing(Receives(c, BlockAt(file, 0), answer, false).client, file, order);
  }

  /** A sender that cannot open its file never cuts a block, whatever its cycles and its queue do later. */
  lemma {:induction false} SenderCannotOpen(c: Client, file: seq<byte>, ts: seq<Tick>)
    requires Sending(c, file, 0) && c.handle.Closed?
    ensures Cycle(c, false).queue == c.queue && Emitted(Cycle(c, false), ts) == []
  {
    FinishedCutsNothing(Cycle(c, false), ts);
  }

  /**
   * A request during a transfer, of the sender or of a peer, is answered with the cancel status. A client that is not
   * sending ends its program on it; one that is never cuts and never saves a block again.
   */
  lemma {:induction false} RequestEndsTransfer(s: Server.Server, p: Server.Id, m: Message, c: Client, file: seq<byte>,
                                               order: seq<nat>, ts: seq<Tick>)
    requires p in s.sessions && s.active && m.FileRequest? && m.WellFormed() && Server.CanSend(s.sessions[p].queue)
    requires c.Valid() && Storable(file) && Numbers(file, order)
    ensures Gain(s, Server.Deliver(p, m, true), p) == [Status(FILE_TRANSFER_CANCELED)]
    ensures var r := Receives(c, Status(FILE_TRANSFER_CANCELED), ANY_ANSWER, true);
            if c.isSending then
              r.Continues? && Emitted(r.client, ts) == [] && Arrive(r.client, file, order).disk == c.disk
            else r.Aborts?
  {
    GainIs(s, Server.Deliver(p, m, true), p);
    var q := s.sessions[p].queue;
    assert Server.Handle(s, p, m, true).sessions[p].queue == q + [Status(FILE_TRANSFER_CANCELED)];
    if c.isSending {
      FinishedCutsNothing(Disabled(c), ts);
      IdleSavesNothing(Disabled(c), file, order);
    }
  }

  // ---------- a sender whose program ends ----------

  /** During the transfer the sender's program ends exactly if it reads a go-ahead after it has cut the last block. */
  lemma GoAheadEndsProgram(sys: System, r: Route, t: Trail, n: nat, answer: Answer, canOpen: bool)
    requires Underway(sys, r, t) && Allowed(sys, r, SenderReads(n, answer, canOpen))
    ensures !Next(sys, r, SenderReads(n, answer, canOpen)).running <==>
            News(sys.back, n) == Some(Status(ACCEPT_FILE_TRANSFER)) && !sys.sender.isSending
  {
    if News(sys.back, n).Some? {
      var rest := ReadCarries(sys.back, t.back, n);
      HeadIsGentle(sys, r, t, rest, News(sys.back, n).value);
      HearsGently(sys.sender, r.file, t.k, News(sys.back, n).value, answer, canOpen);
    }
  }

  /** An answer of the peer or of a third session that leaves the peer in Accept status. */
  predicate IsAnswer(r: Route, q: Server.Id, code: int32) {
    q != r.s && (code == ACCEPT_FILE_TRANSFER || (code == REJECT_FILE_TRANSFER && q != r.p))
  }

  /** No session but this one is in Canceled status. */
  predicate OthersAnswered(s: Server.Server, q: Server.Id) {
    q in s.sessions && !Server.SomeOther(s, q, FILE_TRANSFER_CANCELED)
  }

  /**
   * It can come to that. Once nobody else is in Canceled status, which after an earlier transfer need not take an
   * answer, each further answer tells the sender to start again: of a third session, or of the peer itself if its
   * Accept was one from before. If the sender has cut all its blocks by then, the three steps end its program, with
   * whatever is still in its queue.
   */
  lemma LateAnswerEndsProgram(sys: System, r: Route, t: Trail, q: Server.Id, code: int32)
    returns (z: System, u: Trail)
    requires Underway(sys, r, t) && sys.running && !sys.sender.isSending && Silent(sys.back)
    requires sys.server.sessions[r.s].queue == [] && IsAnswer(r, q, code) && OthersAnswered(sys.server, q)
    ensures LeadsTo(sys, r, Deciding(q, code), z)
    ensures !z.running && z.sender == sys.sender && Underway(z, r, u)
  {
    var sys1, u1 := AnswerComesLate(sys, r, t, q, code);
    z, u := GoAheadGoesBack(sys1, r, u1);
    IsUnfinished(sys, r, t);
    LeadsOn(sys, r, ServerDoes(Server.Deliver(q, Status(code), true)), Telling(), z);
  }

  lemma GoAheadGoesBack(sys: System, r: Route, t: Trail) returns (z: System, u: Trail)
    requires Underway(sys, r, t) && sys.running && !sys.sender.isSending && Silent(sys.back)
    requires sys.server.sessions[r.s].queue == [Status(ACCEPT_FILE_TRANSFER)]
    ensures LeadsTo(sys, r, Telling(), z) && !z.running && z.sender == sys.sender && Underway(z, r, u)
  {
    var sys2, u2 := GoAheadIsRepeated(sys, r, t);
    var read := SenderReads(|sys2.back.wire|, ANY_ANSWER, true);
    u := GoAheadIsRead(sys2, r, u2);
    z := Next(sys2, r, read);
    IsUnfinished(sys2, r, u2);
    LeadsOn(sys2, r, read, [], z);
    IsUnfinished(sys, r, t);
    LeadsOn(sys, r, ServerAnswers(NO_PADDING), [read] + [], z);
  }

  lemma IsUnfinished(sys: System, r: Route, t: Trail)
    requires Underway(sys, r, t)
    ensures Unfinished(sys)
  {
  }

  lemma AnswerComesLate(sys: System, r: Route, t: Trail, q: Server.Id, code: int32) returns (next: System, u: Trail)
    requires Underway(sys, r, t) && Silent(sys.back)
    requires sys.server.sessions[r.s].queue == [] && IsAnswer(r, q, code) && OthersAnswered(sys.server, q)
    ensures var step := ServerDoes(Server.Deliver(q, Status(code), true));
            Allowed(sys, r, step) && next == Next(sys, r, step)
    ensures Underway(next, r, u) && next == sys.(server := next.server)
    ensures next.server.sessions[r.s].queue == [Status(ACCEPT_FILE_TRANSFER)]
  {
    var step := ServerDoes(Server.Deliver(q, Status(code), true));
    AnswerIsForwarded(sys.server, r, q, code);
    ServerDoesKeeps(sys, r, t, step.e);
    next, u := Next(sys, r, step), t;
  }

  lemma AnswerIsForwarded(s: Server.Server, r: Route, q: Server.Id, code: int32)
    requires Granted(s, r) && s.sessions[r.s].queue == [] && IsAnswer(r, q, code) && OthersAnswered(s, q)
    ensures var t := Server.Exec(s, Server.Deliver(q, Status(code), true));
            r.s in t.sessions && t.sessions[r.s].queue == [Status(ACCEPT_FILE_TRANSFER)]
  {
    TwoAreNotAlone(s, r.s, q);
    StartDecision(s, q, code, true);
    SenderIsTold(s, Server.Handle(s, q, Status(code), true), r, q, code);
  }

  lemma SenderIsTold(s: Server.Server, t: Server.Server, r: Route, q: Server.Id, code: int32)
    requires Granted(s, r) && s.sessions[r.s].queue == [] && q != r.s && OthersAnswered(s, q) && Decided(s, t, q, code)
    ensures r.s in t.sessions && t.sessions[r.s].queue == [Status(ACCEPT_FILE_TRANSFER)]
  {
    assert Senders(s) - {q} == {r.s} && Server.SomeOther(s, q, ACCEPT_FILE_TRANSFER);
    assert [] + [Status(ACCEPT_FILE_TRANSFER)] == [Status(ACCEPT_FILE_TRANSFER)];
  }

  lemma GoAheadIsRepeated(sys: System, r: Route, t: Trail) returns (next: System, u: Trail)
    requires Underway(sys, r, t) && Silent(sys.back) && sys.server.sessions[r.s].queue == [Status(ACCEPT_FILE_TRANSFER)]
    ensures Allowed(sys, r, ServerAnswers(NO_PADDING)) && next == Next(sys, r, ServerAnswers(NO_PADDING))
    ensures Underway(next, r, u) && next == sys.(server := next.server, back := next.back)
    ensures Bears(next.back, Status(ACCEPT_FILE_TRANSFER))
  {
    u := ServerAnswersKeeps(sys, r, t, NO_PADDING);
    next := Next(sys, r, ServerAnswers(NO_PADDING));
    FrameIsWritten(sys.back, Status(ACCEPT_FILE_TRANSFER));
  }

  lemma GoAheadIsRead(sys: System, r: Route, t: Trail) returns (u: Trail)
    requires Underway(sys, r, t) && sys.running && !sys.sender.isSending
    requires Bears(sys.back, Status(ACCEPT_FILE_TRANSFER))
    ensures var step := SenderReads(|sys.back.wire|, ANY_ANSWER, true);
            && Allowed(sys, r, step) && !Next(sys, r, step).running && Next(sys, r, step).sender == sys.sender
            && Underway(Next(sys, r, step), r, u)
  {
    WholeFrameIsRead(sys.back, Status(ACCEPT_FILE_TRANSFER));
    GoAheadEndsProgram(sys, r, t, |sys.back.wire|, ANY_ANSWER, true);
    u := SenderReadsKeeps(sys, r, t, |sys.back.wire|, ANY_ANSWER, true);
  }

  /** The sender cuts the one block of a small file, and then an answer comes late. */
  function LosingRun(q: Server.Id, code: int32): (r: seq<Step>) {
    [SenderCycles(true)] + Deciding(q, code)
  }

  /**
   * A file that is lost in this way: from the start of its transfer, with nothing under way, the four steps lead to
   * where the sender's program has ended with its block unwritten, and from there the file can never arrive.
   */
  lemma LateAnswerLosesFile(sys: System, r: Route, q: Server.Id, code: int32) returns (z: System)
    requires Ready(sys, r, [], [], []) && |r.file| < BLOCK && sys.sender.queue == []
    requires sys.server.sessions[r.s].queue == [] && IsAnswer(r, q, code) && OthersAnswered(sys.server, q)
    ensures LeadsTo(sys, r, LosingRun(q, code), z)
    ensures !z.running && z.sender.queue == [BlockAt(r.file, 0)] && !CanArrive(z, r)
  {
    ReadyIsUnderway(sys, r, [], [], []);
    IsUnfinished(sys, r, Trail(0, 0, [], [], []));
    var cut, u := OnlyBlockIsCut(sys, r);
    var v;
    z, v := LateAnswerEndsProgram(cut, r, u, q, code);
    LeadsOn(sys, r, SenderCycles(true), Deciding(q, code), z);
    DataOfOne(BlockAt(r.file, 0));
    DeadSenderExactly(z, r, v);
  }

  lemma OnlyBlockIsCut(sys: System, r: Route) returns (next: System, u: Trail)
    requires Ready(sys, r, [], [], []) && |r.file| < BLOCK && sys.sender.queue == []
    requires Underway(sys, r, Trail(0, 0, [], [], []))
    ensures Allowed(sys, r, SenderCycles(true)) && next == Next(sys, r, SenderCycles(true)) && Underway(next, r, u)
    ensures next == sys.(sender := next.sender) && !next.sender.isSending
    ensures next.sender.queue == [BlockAt(r.file, 0)] && Silent(next.back)
  {
    u := SenderCyclesKeeps(sys, r, Trail(0, 0, [], [], []));
    next := Next(sys, r, SenderCycles(true));
    CycleSendsNext(sys.sender, r.file, 0);
    assert [] + [BlockAt(r.file, 0)] == [BlockAt(r.file, 0)];
  }
}
