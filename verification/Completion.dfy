/**
 * Exactly when a transfer can be carried through from where it is: full queues, half-received frames and waiting ones
 * included.
 */
module Completion {
  import opened Bytes
  import opened Messages
  import opened Framing
  import Server = ServerModel
  import opened Relays
  import opened TransferLock
  import opened ClientModel
  import opened Splitting
  import opened Reassembly
  import opened Transfer
  import opened EndToEnd

  const NO_PADDING: Padding := [0, 0, 0]

  /** A request for the name "a". */
  const ASK: Message := NewNickname([97])

  /** What a client program says once it has said hello. */
  predicate Sayable(m: Message) {
    !m.Hello? && (m.Status? ==> m.code in {ACCEPT_FILE_TRANSFER, REJECT_FILE_TRANSFER})
  }

  /** The clients of the step say nothing else. */
  predicate Sensible(step: Step) {
    match step
    case SenderSays(m) => Sayable(m)
    case ServerDoes(e) => e.Deliver? ==> Sayable(e.msg)
    case _ => true
  }

  /** An allowed step of what client programs do. */
  predicate Goes(sys: System, r: Route, step: Step) {
    Allowed(sys, r, step) && Sensible(step)
  }

  predicate AllSensible(steps: seq<Step>) {
    forall i :: 0 <= i < |steps| ==> Sensible(steps[i])
  }

  /** The run is one of allowed steps of client programs, and this is where it ends. */
  ghost predicate LeadsTo(sys: System, r: Route, steps: seq<Step>, z: System) {
    AllowedRun(sys, r, steps) && AllSensible(steps) && Reached(sys, r, steps) == z
  }

  lemma {:induction false} LeadsHere(sys: System, r: Route)
    ensures LeadsTo(sys, r, [], sys)
  {
  }

  lemma {:induction false} LeadsOn(sys: System, r: Route, step: Step, steps: seq<Step>, z: System)
    requires Unfinished(sys) && Goes(sys, r, step) && LeadsTo(Next(sys, r, step), r, steps, z)
    ensures LeadsTo(sys, r, [step] + steps, z)
  {
    StepThenRun(sys, r, step, steps);
    StepIsSensible(step, steps);
  }

  lemma StepIsSensible(step: Step, more: seq<Step>)
    requires Sensible(step) && AllSensible(more)
    ensures AllSensible([step] + more)
  {
  }

  lemma {:induction false} StepThenRun(sys: System, r: Route, step: Step, more: seq<Step>)
    requires Unfinished(sys) && Allowed(sys, r, step) && AllowedRun(Next(sys, r, step), r, more)
    ensures AllowedRun(sys, r, [step] + more) && Reached(sys, r, [step] + more) == Reached(Next(sys, r, step), r, more)
  {
    assert ([step] + more)[1..] == more;
  }

  /** Some such run goes on to where the peer has the file. */
  ghost predicate CanArrive(sys: System, r: Route) {
    exists steps, z :: LeadsTo(sys, r, steps, z) && Arrived(z, r)
  }

  lemma AlreadyArrived(sys: System, r: Route)
    requires Arrived(sys, r)
    ensures CanArrive(sys, r)
  {
    LeadsHere(sys, r);
  }

  lemma OneStepFurther(sys: System, r: Route, step: Step)
    requires Unfinished(sys) && Goes(sys, r, step) && CanArrive(Next(sys, r, step), r)
    ensures CanArrive(sys, r)
  {
    var steps, z :| LeadsTo(Next(sys, r, step), r, steps, z) && Arrived(z, r);
    LeadsOn(sys, r, step, steps, z);
  }

  // ---------- reading the next message ----------

  /** With bytes on the wire, some piece of them makes the next message come out. */
  lemma CanPop(l: Link, ws: seq<Packet>) returns (n: nat)
    requires Carries(l, ws) && l.wire != []
    ensures ws != [] && CanRead(l, n) && News(l, n) == Some(ws[0].msg)
    ensures n == 1 || Read(l, n).input.buf == []
  {
    n := Missing(l.input.buf, l.wire, ws);
    var piece, rest := l.wire[..n], l.wire[n..];
    SplitWire(l.input.buf, l.wire, n);
    HeadOfStream(l.input.buf + piece, rest, ws);
    TakesFront(l.input, piece, ws[0].msg, |Frame(ws[0].msg, ws[0].pad)|);
  }

  /** The bytes that complete the next frame, or one byte more if it is complete. */
  lemma Missing(buf: seq<byte>, wire: seq<byte>, ws: seq<Packet>) returns (n: nat)
    requires AllWellFormed(ws) && buf + wire == Stream(ws) && wire != [] && |buf| < MAX_MESSAGE_SIZE
    ensures ws != [] && 0 < n <= |wire| && |Frame(ws[0].msg, ws[0].pad)| <= |buf| + n <= MAX_MESSAGE_SIZE
    ensures n == 1 || |buf| + n == |Frame(ws[0].msg, ws[0].pad)|
  {
    assert |buf + wire| == |buf| + |wire| && ws != [];
    var f := Frame(ws[0].msg, ws[0].pad);
    n := if |buf| < |f| then |f| - |buf| else 1;
  }

  lemma SplitWire(buf: seq<byte>, wire: seq<byte>, n: nat)
    requires n <= |wire|
    ensures (buf + wire[..n]) + wire[n..] == buf + wire
  {
  }

  lemma TakesFront(i: Input, piece: seq<byte>, m: Message, used: nat)
    requires CanReceive(i, piece) && piece != [] && |i.buf + piece| >= HEADER_SIZE
    requires Parse(i.buf + piece) == Parsed(m, used)
    ensures Receive(i, piece).delivered == i.delivered + [m]
    ensures used == |i.buf| + |piece| ==> Receive(i, piece).buf == []
  {
  }

  // ---------- whole frames on silent links ----------

  /** A link that carries just this one frame. */
  predicate Bears(l: Link, m: Message) {
    m.WellFormed() && l.wire == Frame(m, NO_PADDING) && l.input.buf == [] && !l.input.failed
  }

  lemma WholeFrameIsRead(l: Link, m: Message)
    requires Bears(l, m)
    ensures CanRead(l, |l.wire|) && News(l, |l.wire|) == Some(m) && Silent(Read(l, |l.wire|))
  {
    var f := Frame(m, NO_PADDING);
    ReceivesWhole(l.input, m);
    assert l.wire[..|f|] == f && l.wire[|f|..] == [];
  }

  lemma ReceivesWhole(i: Input, m: Message)
    requires m.WellFormed() && i.buf == [] && !i.failed
    ensures Receive(i, Frame(m, NO_PADDING)) == Input([], i.delivered + [m], false)
  {
    var f := Frame(m, NO_PADDING);
    RoundTrip(m, NO_PADDING, []);
    assert f + [] == f && i.buf + f == f && f[|f|..] == [];
  }

  lemma FrameIsWritten(l: Link, m: Message)
    requires Silent(l) && m.WellFormed()
    ensures Bears(Sent(l, m, NO_PADDING), m)
  {
    assert [] + Frame(m, NO_PADDING) == Frame(m, NO_PADDING);
  }

  /** The sender is told the verdict. */
  function Telling(): (r: seq<Step>) {
    [ServerAnswers(NO_PADDING)]
    + ([SenderReads(|Frame(Status(ACCEPT_FILE_TRANSFER), NO_PADDING)|, ANY_ANSWER, true)] + [])
  }

  /** Somebody answers, and the sender is told the verdict. */
  function Deciding(c: Server.Id, code: int32): (r: seq<Step>) {
    [ServerDoes(Server.Deliver(c, Status(code), true))] + Telling()
  }

  // ---------- the distance to the last block ----------

  /** The messages up to the first last block. */
  function Ahead(ms: seq<Message>): (r: nat) {
    if ms == [] then 0 else if IsLast(ms[0]) then 1 else 1 + Ahead(ms[1..])
  }

  predicate HasLast(ms: seq<Message>) {
    ms != [] && (IsLast(ms[0]) || HasLast(ms[1..]))
  }

  lemma {:induction false} AheadOfMore(ms: seq<Message>, more: seq<Message>)
    requires HasLast(ms)
    ensures HasLast(ms + more) && Ahead(ms + more) == Ahead(ms)
  {
    assert (ms + more)[0] == ms[0] && (ms + more)[1..] == ms[1..] + more;
    if !IsLast(ms[0]) {
      AheadOfMore(ms[1..], more);
    }
  }

  lemma {:induction false} OneLessAhead(m: Message, rest: seq<Message>)
    requires !IsLast(m)
    ensures Ahead([m] + rest) == 1 + Ahead(rest)
  {
    assert ([m] + rest)[1..] == rest;
  }

  lemma {:induction false} BringsLast(ms: seq<Message>, bs: seq<Message>)
    requires Brings(ms, bs) && IsLast(bs[|bs| - 1])
    ensures HasLast(ms)
  {
    if !IsLast(ms[0]) {
      if ms[0].FileData? {
        BringsLast(ms[1..], bs[1..]);
      } else {
        BringsLast(ms[1..], bs);
      }
    }
  }

  lemma {:induction false} ExpectsLast(ms: seq<Message>, bs: seq<Message>, waiting: bool)
    requires Expects(ms, bs, waiting) && bs != [] && IsLast(bs[|bs| - 1])
    ensures HasLast(ms)
    decreases |ms|
  {
    if waiting {
      ExpectsLast(ms[1..], bs, !ms[0].FileRequest?);
    } else {
      BringsLast(ms, bs);
    }
  }

  lemma FlowHasLast(sys: System, r: Route, t: Trail)
    requires Delivering(sys, r, t)
    ensures HasLast(Flow(sys, r, t))
  {
    var bs := Rest(r.file, t.saved);
    assert bs[|bs| - 1] == BlockAt(r.file, Final(r.file));
    ExpectsLast(Flow(sys, r, t), bs, sys.waiting);
  }

  lemma {:induction false} LastAmongData(ms: seq<Message>)
    requires Data(ms) != [] && IsLast(Data(ms)[|Data(ms)| - 1])
    ensures HasLast(ms)
  {
    DataOfFirst(ms);
    if !IsLast(ms[0]) {
      assert [] + Data(ms[1..]) == Data(ms[1..]);
      LastAmongData(ms[1..]);
    }
  }

  /** Once all blocks are cut, the last one is in front of the server. */
  lemma SaidHasLast(sys: System, r: Route, t: Trail)
    requires Underway(sys, r, t) && t.k == Final(r.file) + 1
    ensures HasLast(Said(sys, t))
  {
    BalancedHasLast(r.file, t.saved, t.k, Flow(sys, r, t), Contents(t.up), sys.sender.queue);
  }

  lemma {:induction false} BalancedHasLast(file: seq<byte>, saved: nat, k: nat, flow: seq<Message>,
                                           up: seq<Message>, q: seq<Message>)
    requires Balanced(file, saved, k, flow, up, q) && k == Final(file) + 1
    ensures HasLast(up + q)
  {
    DataOfConcat(up, q);
    LastIsBehind(file, BlocksOf(file, saved), Data(flow), Data(up) + Data(q));
    LastAmongData(up + q);
  }

  lemma LastIsBehind(file: seq<byte>, a: seq<Message>, f: seq<Message>, rest: seq<Message>)
    requires Storable(file) && |a| + |f| <= Final(file) && a + (f + rest) == BlocksOf(file, Final(file) + 1)
    ensures rest != [] && IsLast(rest[|rest| - 1])
  {
    assert rest[|rest| - 1] == (a + (f + rest))[Final(file)];
  }

  // ---------- behind the server ----------

  lemma AskIsAnswered(s: Server.Server, p: Server.Id)
    requires p in s.sessions && s.sessions[p].queue == []
    ensures var t := Server.Handle(s, p, ASK, true); p in t.sessions && t.sessions[p].queue != []
  {
    QueueAfterName(s, p, ASK, true, Server.Truncated(CString(ASK.nickname)));
  }

  /** How far the peer is from reading the next byte. */
  function Idleness(sys: System, r: Route): (result: nat) {
    if sys.down.wire != [] then 0
    else if r.p in sys.server.sessions && sys.server.sessions[r.p].queue != [] then 1
    else 2
  }

  lemma PeerReadsOn(sys: System, r: Route, t: Trail) returns (step: Step, u: Trail)
    requires Delivering(sys, r, t) && sys.down.wire != []
    ensures Goes(sys, r, step) && DeliversOn(Next(sys, r, step), r, u)
    ensures Delivering(Next(sys, r, step), r, u) ==> Ahead(Flow(Next(sys, r, step), r, u)) < Ahead(Flow(sys, r, t))
  {
    var n := CanPop(sys.down, t.down);
    step := PeerReads(n, Answer(true, r.path), true);
    u := PeerReadsDelivering(sys, r, t, n, Answer(true, r.path));
    var m := News(sys.down, n).value;
    if Delivering(Next(sys, r, step), r, u) {
      FlowShrinks(sys, r, t, m, u.down);
      OneLessAhead(m, Contents(u.down) + sys.server.sessions[r.p].queue);
      assert Flow(Next(sys, r, step), r, u) == Contents(u.down) + sys.server.sessions[r.p].queue;
    }
  }

  lemma ServerWritesOn(sys: System, r: Route, t: Trail) returns (step: Step, u: Trail)
    requires Delivering(sys, r, t) && sys.down.wire == [] && sys.server.sessions[r.p].queue != []
    ensures Goes(sys, r, step) && Delivering(Next(sys, r, step), r, u)
    ensures Flow(Next(sys, r, step), r, u) == Flow(sys, r, t) && Idleness(Next(sys, r, step), r) < Idleness(sys, r)
  {
    step := ServerWrites(NO_PADDING);
    u := ServerWritesRest(sys, r, t, NO_PADDING);
  }

  /**
   * A message that waits in the buffer behind another one needs a further byte: the peer asks for a name.
   */
  lemma PeerAsksOn(sys: System, r: Route, t: Trail) returns (step: Step)
    requires Delivering(sys, r, t) && sys.down.wire == [] && sys.server.sessions[r.p].queue == []
    ensures Goes(sys, r, step) && Delivering(Next(sys, r, step), r, t)
    ensures Ahead(Flow(Next(sys, r, step), r, t)) == Ahead(Flow(sys, r, t))
    ensures Idleness(Next(sys, r, step), r) < Idleness(sys, r)
  {
    var e := Server.Deliver(r.p, ASK, true);
    step := ServerDoes(e);
    FlowHasLast(sys, r, t);
    AskIsAnswered(sys.server, r.p);
    ServerCannotHurt(sys, r, t, e, Next(sys, r, step));
    AheadOfMore(Flow(sys, r, t), Gain(sys.server, e, r.p));
  }

  lemma {:induction false} DeliveringArrives(sys: System, r: Route, t: Trail)
    requires Delivering(sys, r, t)
    ensures CanArrive(sys, r)
    decreases Ahead(Flow(sys, r, t)), Idleness(sys, r)
  {
    var step, u;
    if sys.down.wire != [] {
      step, u := PeerReadsOn(sys, r, t);
      if Delivering(Next(sys, r, step), r, u) {
        DeliveringArrives(Next(sys, r, step), r, u);
      } else {
        AlreadyArrived(Next(sys, r, step), r);
      }
    } else if sys.server.sessions[r.p].queue != [] {
      step, u := ServerWritesOn(sys, r, t);
      DeliveringArrives(Next(sys, r, step), r, u);
    } else {
      step := PeerAsksOn(sys, r, t);
      DeliveringArrives(Next(sys, r, step), r, t);
    }
    OneStepFurther(sys, r, step);
  }

  // ---------- in front of the server ----------

  /** Neither bytes nor messages that could be written are on their way from the sender. */
  function Stuck(sys: System): (r: nat) {
    if sys.up.wire == [] && sys.sender.queue == [] then 1 else 0
  }

  /** Nearer to where the server handles the last block, in the order of the five measures. */
  predicate Nearer(sys: System, r: Route, t: Trail, next: System, u: Trail)
    requires r.p in sys.server.sessions && r.p in next.server.sessions
  {
    var (a, b) := (Ahead(Said(sys, t)), Ahead(Said(next, u)));
    u.k > t.k
    || (u.k == t.k && (b < a
        || (b == a && (Stuck(next) < Stuck(sys)
            || (Stuck(next) == Stuck(sys) && (|next.sender.queue| < |sys.sender.queue|
                || (|next.sender.queue| == |sys.sender.queue|
                    && |next.server.sessions[r.p].queue| < |sys.server.sessions[r.p].queue|)))))))
  }

  lemma CutsOn(sys: System, r: Route, t: Trail) returns (step: Step, u: Trail)
    requires Underway(sys, r, t) && sys.running && t.k <= Final(r.file) && Server.CanSend(sys.sender.queue)
    ensures Goes(sys, r, step) && Underway(Next(sys, r, step), r, u)
    ensures Next(sys, r, step).running && Nearer(sys, r, t, Next(sys, r, step), u)
  {
    step := SenderCycles(true);
    u := SenderCyclesKeeps(sys, r, t);
  }

  lemma SenderWritesOn(sys: System, r: Route, t: Trail) returns (step: Step, u: Trail)
    requires Underway(sys, r, t) && sys.running && sys.sender.queue != []
    ensures Goes(sys, r, step) && Underway(Next(sys, r, step), r, u)
    ensures Next(sys, r, step).running && Nearer(sys, r, t, Next(sys, r, step), u)
  {
    step := SenderWrites(NO_PADDING);
    u := SenderWritesKeeps(sys, r, t, NO_PADDING);
    HeadMoves(Contents(t.up), sys.sender.queue);
    assert Said(Next(sys, r, step), u) == Said(sys, t);
  }

  lemma MakesRoom(sys: System, r: Route, t: Trail) returns (step: Step, u: Trail)
    requires Underway(sys, r, t) && sys.running && !Server.CanSend(sys.server.sessions[r.p].queue)
    ensures Goes(sys, r, step) && Underway(Next(sys, r, step), r, u)
    ensures Next(sys, r, step).running && Nearer(sys, r, t, Next(sys, r, step), u)
  {
    step := ServerWrites(NO_PADDING);
    u := ServerWritesUnderway(sys, r, t, NO_PADDING);
    assert Said(Next(sys, r, step), u) == Said(sys, t);
  }

  /**
   * A frame that waits in the server's buffer behind another one needs a further byte: the sender asks for a name.
   */
  lemma SaysOn(sys: System, r: Route, t: Trail) returns (step: Step)
    requires Underway(sys, r, t) && sys.running && t.k == Final(r.file) + 1 && Stuck(sys) == 1
    ensures Goes(sys, r, step) && Underway(Next(sys, r, step), r, t)
    ensures Next(sys, r, step).running && Nearer(sys, r, t, Next(sys, r, step), t)
  {
    step := SenderSays(ASK);
    SenderSaysKeeps(sys, r, t, ASK);
    SaidHasLast(sys, r, t);
    AheadOfMore(Said(sys, t), [ASK]);
    Associative(Contents(t.up), sys.sender.queue, [ASK]);
    assert Said(Next(sys, r, step), t) == Said(sys, t) + [ASK];
  }

  lemma ServerReadsOn(sys: System, r: Route, t: Trail) returns (step: Step, u: Trail)
    requires Underway(sys, r, t) && sys.running && sys.up.wire != [] && Server.CanSend(sys.server.sessions[r.p].queue)
    ensures Goes(sys, r, step) && Next(sys, r, step).running && Invariant(Next(sys, r, step), r, u)
    ensures Underway(Next(sys, r, step), r, u) ==> Nearer(sys, r, t, Next(sys, r, step), u)
  {
    var n := CanPop(sys.up, t.up);
    step := ServerReads(n, true);
    u := ServerReadsKeeps(sys, r, t, n, true);
    if Underway(Next(sys, r, step), r, u) {
      var m := News(sys.up, n).value;
      HeadOf(m, Contents(u.up), sys.sender.queue);
      LastReleases(sys, r, t, m, u.up);
      Associative([m], Contents(u.up), sys.sender.queue);
      OneLessAhead(m, Contents(u.up) + sys.sender.queue);
      assert Said(Next(sys, r, step), u) == Contents(u.up) + sys.sender.queue;
    }
  }

  lemma {:induction false} LastReleases(sys: System, r: Route, t: Trail, m: Message, rest: seq<Packet>)
    requires Underway(sys, r, t) && Contents(t.up) == [m] + Contents(rest) && m.WellFormed()
    requires Server.Exec(sys.server, Server.Deliver(r.s, m, true)).active
    ensures !IsLast(m)
  {
    HeadIsMild(sys, t, rest, m);
    ServerStep(sys.server, Server.Deliver(r.s, m, true), r);
  }

  /** The next step of a run that carries the last block to the server. */
  lemma GoesOn(sys: System, r: Route, t: Trail) returns (step: Step, u: Trail)
    requires Underway(sys, r, t) && sys.running
    ensures Goes(sys, r, step) && Next(sys, r, step).running && Invariant(Next(sys, r, step), r, u)
    ensures Underway(Next(sys, r, step), r, u) ==> Nearer(sys, r, t, Next(sys, r, step), u)
  {
    if t.k <= Final(r.file) && Server.CanSend(sys.sender.queue) {
      step, u := CutsOn(sys, r, t);
    } else if sys.sender.queue != [] {
      step, u := SenderWritesOn(sys, r, t);
    } else if !Server.CanSend(sys.server.sessions[r.p].queue) {
      step, u := MakesRoom(sys, r, t);
    } else if sys.up.wire == [] {
      step := SaysOn(sys, r, t);
      u := t;
    } else {
      step, u := ServerReadsOn(sys, r, t);
    }
  }

  lemma {:induction false} UnderwayArrives(sys: System, r: Route, t: Trail)
    requires Underway(sys, r, t) && sys.running
    ensures CanArrive(sys, r)
    decreases Final(r.file) + 1 - t.k, Ahead(Said(sys, t)), Stuck(sys), |sys.sender.queue|,
      |sys.server.sessions[r.p].queue|
  {
    var step, u := GoesOn(sys, r, t);
    if Underway(Next(sys, r, step), r, u) {
      UnderwayArrives(Next(sys, r, step), r, u);
    } else {
      DeliveringArrives(Next(sys, r, step), r, u);
    }
    OneStepFurther(sys, r, step);
  }

  // ---------- a sender whose program has ended ----------

  /** The last block is on its way to the server, with bytes enough behind it to make it come out. */
  predicate Drains(sys: System, r: Route, t: Trail) {
    Underway(sys, r, t) && HasLast(Contents(t.up)) && Ahead(Contents(t.up)) <= |sys.up.wire|
  }

  lemma {:induction false} AheadIsShort(ws: seq<Packet>)
    requires AllWellFormed(ws)
    ensures Ahead(Contents(ws)) <= |Stream(ws)|
  {
    if ws != [] {
      AheadIsShort(ws[1..]);
      assert Contents(ws)[1..] == Contents(ws[1..]);
    }
  }

  /** Reading no more bytes than it takes leaves enough for the rest. */
  lemma {:induction false} StillEnough(l: Link, ws: seq<Packet>, m: Message, n: nat, rest: seq<Packet>)
    requires CanRead(l, n) && Carries(Read(l, n), rest) && Contents(ws) == [m] + Contents(rest) && !IsLast(m)
    requires n == 1 || Read(l, n).input.buf == []
    requires HasLast(Contents(ws)) && Ahead(Contents(ws)) <= |l.wire|
    ensures HasLast(Contents(rest)) && Ahead(Contents(rest)) <= |Read(l, n).wire|
  {
    OneLessAhead(m, Contents(rest));
    assert Contents(ws)[0] == m && Contents(ws)[1..] == Contents(rest);
    if n != 1 {
      AheadIsShort(rest);
      assert [] + Read(l, n).wire == Read(l, n).wire;
    }
  }

  lemma ServerDrains(sys: System, r: Route, t: Trail) returns (step: Step, u: Trail)
    requires Drains(sys, r, t) && Server.CanSend(sys.server.sessions[r.p].queue)
    ensures Goes(sys, r, step) && |Contents(u.up)| < |Contents(t.up)|
    ensures Drains(Next(sys, r, step), r, u) || Delivering(Next(sys, r, step), r, u)
  {
    var n := CanPop(sys.up, t.up);
    step := ServerReads(n, true);
    u := ServerReadsKeeps(sys, r, t, n, true);
    if Underway(Next(sys, r, step), r, u) {
      var m := News(sys.up, n).value;
      LastReleases(sys, r, t, m, u.up);
      StillEnough(sys.up, t.up, m, n, u.up);
    }
  }

  lemma DrainsAfterWrite(sys: System, r: Route, t: Trail) returns (step: Step, u: Trail)
    requires Drains(sys, r, t) && !Server.CanSend(sys.server.sessions[r.p].queue)
    ensures Goes(sys, r, step) && Drains(Next(sys, r, step), r, u) && u.up == t.up
    ensures |Next(sys, r, step).server.sessions[r.p].queue| < |sys.server.sessions[r.p].queue|
  {
    step := ServerWrites(NO_PADDING);
    assert Allowed(sys, r, step);
    WriteShortens(sys, r);
    u := ServerWritesUnderway(sys, r, t, NO_PADDING);
    var next := Next(sys, r, step);
    assert Underway(next, r, u);
  }

  lemma WriteShortens(sys: System, r: Route)
    requires CanWrite(sys.server, r.p)
    ensures var next := Next(sys, r, ServerWrites(NO_PADDING));
            && next.up == sys.up && r.p in next.server.sessions
            && |next.server.sessions[r.p].queue| < |sys.server.sessions[r.p].queue|
  {
  }

  lemma {:induction false} DrainsArrives(sys: System, r: Route, t: Trail)
    requires Drains(sys, r, t)
    ensures CanArrive(sys, r)
    decreases |Contents(t.up)|, |sys.server.sessions[r.p].queue|
  {
    var step, u;
    if Server.CanSend(sys.server.sessions[r.p].queue) {
      step, u := ServerDrains(sys, r, t);
    } else {
      step, u := DrainsAfterWrite(sys, r, t);
    }
    if Drains(Next(sys, r, step), r, u) {
      DrainsArrives(Next(sys, r, step), r, u);
    } else {
      DeliveringArrives(Next(sys, r, step), r, u);
    }
    OneStepFurther(sys, r, step);
  }

  /** Nobody writes the last block any more, or nobody writes the bytes any more that would make it come out. */
  predicate Stranded(sys: System, r: Route, t: Trail) {
    && Underway(sys, r, t) && !sys.running
    && (Data(sys.sender.queue) != [] || Ahead(Coming(sys.up)) > |sys.up.wire|)
  }

  lemma DeadSenderStays(sys: System, r: Route, step: Step)
    requires !sys.running && Allowed(sys, r, step)
    ensures var next := Next(sys, r, step);
            !next.running && next.sender == sys.sender && (!step.ServerReads? ==> next.up == sys.up)
  {
  }

  lemma StrandedStep(sys: System, r: Route, t: Trail, step: Step) returns (u: Trail)
    requires Stranded(sys, r, t) && Allowed(sys, r, step)
    ensures Stranded(Next(sys, r, step), r, u)
  {
    DeadSenderStays(sys, r, step);
    if step.ServerReads? {
      u := StrandedRead(sys, r, t, step.n, step.nameFree);
    } else {
      u := UnderwayStep(sys, r, t, step);
    }
  }

  /** A read takes a byte at least and a message at most. */
  lemma StrandedRead(sys: System, r: Route, t: Trail, n: nat, nameFree: bool) returns (u: Trail)
    requires Stranded(sys, r, t) && Allowed(sys, r, ServerReads(n, nameFree))
    ensures Stranded(Next(sys, r, ServerReads(n, nameFree)), r, u)
  {
    u := ServerReadsKeeps(sys, r, t, n, nameFree);
    ComingIs(sys.up, t.up);
    var next := Next(sys, r, ServerReads(n, nameFree));
    if News(sys.up, n).Some? {
      var m := News(sys.up, n).value;
      NotTheLast(sys, r, t, m, Contents(u.up));
      OneLessAhead(m, Contents(u.up));
    } else {
      var rest := ReadCarries(sys.up, t.up, n);
      ComingIs(Read(sys.up, n), rest);
    }
    ComingIs(next.up, u.up);
  }

  lemma NotTheLast(sys: System, r: Route, t: Trail, m: Message, rest: seq<Message>)
    requires Stranded(sys, r, t) && Contents(t.up) == [m] + rest && Coming(sys.up) == Contents(t.up)
    requires sys.up.wire != []
    ensures !IsLast(m)
  {
    if Data(sys.sender.queue) != [] {
      LastIsInQueue(sys, r, t, m, rest);
    } else {
      assert Contents(t.up)[0] == m;
    }
  }

  lemma LastIsInQueue(sys: System, r: Route, t: Trail, m: Message, rest: seq<Message>)
    requires Underway(sys, r, t) && Data(sys.sender.queue) != [] && Contents(t.up) == [m] + rest
    ensures !IsLast(m)
  {
    DataOfHead(m, rest);
    if IsLast(m) {
      var a, f, q := BlocksOf(r.file, t.saved), Data(Flow(sys, r, t)), Data(sys.sender.queue);
      Associative(a, f, ([m] + Data(rest)) + q);
      Associative([m], Data(rest), q);
      BlockInPlace(r.file, a + f, m, Data(rest) + q, t.k);
    }
  }

  /** However such a run goes on, the file never arrives. */
  lemma {:induction false} DeadSenderStrands(sys: System, r: Route, t: Trail, steps: seq<Step>)
    requires Stranded(sys, r, t) && AllowedRun(sys, r, steps)
    ensures Unfinished(Reached(sys, r, steps))
    decreases |steps|
  {
    if steps != [] {
      var u := StrandedStep(sys, r, t, steps[0]);
      DeadSenderStrands(Next(sys, r, steps[0]), r, u, steps[1..]);
    }
  }

  /**
   * The file of a sender whose program has ended during its transfer can still arrive if and only if no block was left
   * in its queue and at least as many bytes are unread on the wire as messages are in front of the server up to the
   * last block. It takes at most one message off its buffer with each `recv`, so frames that wait there need one more
   * byte each.
   */
  lemma DeadSenderExactly(sys: System, r: Route, t: Trail)
    requires Underway(sys, r, t) && !sys.running
    ensures CanArrive(sys, r) <==> Data(sys.sender.queue) == [] && Ahead(Coming(sys.up)) <= |sys.up.wire|
  {
    if Stranded(sys, r, t) {
      if CanArrive(sys, r) {
        var more, z :| LeadsTo(sys, r, more, z) && Arrived(z, r);
        DeadSenderStrands(sys, r, t, more);
      }
    } else {
      ComingIs(sys.up, t.up);
      LastIsWritten(sys, r, t);
      DrainsArrives(sys, r, t);
    }
  }

  lemma LastIsWritten(sys: System, r: Route, t: Trail)
    requires Underway(sys, r, t) && t.k == Final(r.file) + 1 && Data(sys.sender.queue) == []
    ensures HasLast(Contents(t.up))
  {
    WrittenHasLast(r.file, t.saved, t.k, Flow(sys, r, t), Contents(t.up), sys.sender.queue);
  }

  lemma {:induction false} WrittenHasLast(file: seq<byte>, saved: nat, k: nat, flow: seq<Message>,
                                          up: seq<Message>, q: seq<Message>)
    requires Balanced(file, saved, k, flow, up, q) && k == Final(file) + 1 && Data(q) == []
    ensures HasLast(up)
  {
    assert Data(up) + [] == Data(up);
    LastIsBehind(file, BlocksOf(file, saved), Data(flow), Data(up));
    LastAmongData(up);
  }

  // ---------- every reachable state ----------

  lemma {:induction false} RunsCompose(sys: System, r: Route, steps: seq<Step>, more: seq<Step>)
    requires AllowedRun(sys, r, steps) && AllowedRun(Reached(sys, r, steps), r, more)
    ensures AllowedRun(sys, r, steps + more)
    ensures Reached(sys, r, steps + more) == Reached(Reached(sys, r, steps), r, more)
    decreases |steps|
  {
    Regroup(steps, more);
    if steps != [] {
      RunsCompose(Next(sys, r, steps[0]), r, steps[1..], more);
      StepThenRun(sys, r, steps[0], steps[1..] + more);
    }
  }

  lemma Regroup<T>(a: seq<T>, b: seq<T>)
    ensures a + b == if a == [] then b else [a[0]] + (a[1..] + b)
  {
  }

  /** The last block is behind the server, can still be cut and written, or is written with bytes enough. */
  predicate MayArrive(sys: System, r: Route) {
    || !Unfinished(sys)
    || (r.p in sys.server.sessions && HasLast(Coming(sys.down) + sys.server.sessions[r.p].queue))
    || sys.running
    || (Data(sys.sender.queue) == [] && Ahead(Coming(sys.up)) <= |sys.up.wire|)
  }

  lemma {:induction false} LastIsData(ms: seq<Message>) returns (i: nat)
    requires HasLast(ms)
    ensures i < |Data(ms)| && IsLast(Data(ms)[i])
  {
    DataOfFirst(ms);
    if IsLast(ms[0]) {
      i := 0;
    } else {
      i := LastIsData(ms[1..]);
      i := if ms[0].FileData? then i + 1 else i;
    }
  }

  lemma LastIsAhead(sys: System, r: Route, t: Trail)
    requires Underway(sys, r, t)
    ensures !HasLast(Coming(sys.down) + sys.server.sessions[r.p].queue)
  {
    ComingIs(sys.down, t.down);
    if HasLast(Flow(sys, r, t)) {
      var i := LastIsData(Flow(sys, r, t));
      IsBlockAt(r.file, t.saved, Data(Flow(sys, r, t)), Data(Contents(t.up)) + Data(sys.sender.queue), t.k, i);
    }
  }

  lemma IsBlockAt(file: seq<byte>, saved: nat, f: seq<Message>, rest: seq<Message>, k: nat, i: nat)
    requires Storable(file) && saved <= Final(file) && k <= Final(file) + 1 && i < |f| && saved + |f| <= Final(file)
    requires BlocksOf(file, saved) + (f + rest) == BlocksOf(file, k)
    ensures !IsLast(f[i])
  {
    assert (BlocksOf(file, saved) + (f + rest))[saved + i] == f[i];
  }

  /**
   * Progress, exactly: wherever a run has got to, and whatever it has left in queues, on wires and in buffers, it can
   * be continued to where the peer has the file if and only if the last block is behind the server, or the sender's
   * program still runs, or it has written the last block with bytes enough.
   */
  lemma {:induction false} ArrivalExactly(sys: System, r: Route, up: seq<Packet>, back: seq<Packet>,
                                          down: seq<Packet>, steps: seq<Step>)
    requires Ready(sys, r, up, back, down) && AllowedRun(sys, r, steps)
    ensures CanArrive(Reached(sys, r, steps), r) <==> MayArrive(Reached(sys, r, steps), r)
  {
    ReadyIsUnderway(sys, r, up, back, down);
    var z := Reached(sys, r, steps);
    var u := InvariantHolds(sys, r, Trail(0, 0, up, back, down), steps);
    if Underway(z, r, u) {
      LastIsAhead(z, r, u);
      if z.running {
        UnderwayArrives(z, r, u);
      } else {
        DeadSenderExactly(z, r, u);
      }
    } else if Delivering(z, r, u) {
      ComingIs(z.down, u.down);
      FlowHasLast(z, r, u);
      DeliveringArrives(z, r, u);
    } else {
      AlreadyArrived(z, r);
    }
  }

  /** So every run can be carried through whose sender's program still runs, or has done its part. */
  lemma {:induction false} ArrivalStaysPossible(sys: System, r: Route, up: seq<Packet>, back: seq<Packet>,
                                                down: seq<Packet>, steps: seq<Step>)
    requires Ready(sys, r, up, back, down) && AllowedRun(sys, r, steps) && MayArrive(Reached(sys, r, steps), r)
    ensures exists more ::
              && AllowedRun(sys, r, steps + more) && AllSensible(more)
              && Arrived(Reached(sys, r, steps + more), r)
  {
    ArrivalExactly(sys, r, up, back, down, steps);
    var z := Reached(sys, r, steps);
    var more, end :| LeadsTo(z, r, more, end) && Arrived(end, r);
    RunsCompose(sys, r, steps, more);
  }
}
