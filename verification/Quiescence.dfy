/**
 * When nothing but blocks travels, delivery is prompt: as soon as nothing is left to cut, to write or to read, the file
 * has arrived, whatever the cutting of the byte streams was.
 */
module Quiescence {
  import opened Bytes
  import opened Messages
  import opened Framing
  import Server = ServerModel
  import opened Relays
  import opened ClientModel
  import opened Splitting
  import opened Reassembly
  import opened Transfer
  import opened EndToEnd

  predicate OnlyBlocks(ms: seq<Message>) {
    forall i :: 0 <= i < |ms| ==> ms[i].FileData?
  }

  lemma {:induction false} BlocksAreData(ms: seq<Message>)
    requires OnlyBlocks(ms)
    ensures Data(ms) == ms
  {
    if ms != [] {
      assert forall i :: 0 <= i < |ms[1..]| ==> ms[1..][i] == ms[i + 1];
      BlocksAreData(ms[1..]);
    }
  }

  /** Nothing but blocks is on its way to the server and to the peer. */
  predicate Pure(sys: System, r: Route) {
    && OnlyBlocks(Coming(sys.up)) && OnlyBlocks(Coming(sys.down))
    && (r.p in sys.server.sessions ==> OnlyBlocks(sys.server.sessions[r.p].queue))
  }

  ghost predicate PureRun(sys: System, r: Route, steps: seq<Step>)
    requires AllowedRun(sys, r, steps)
    decreases |steps|
  {
    Pure(sys, r) && (steps == [] || PureRun(Next(sys, r, steps[0]), r, steps[1..]))
  }

  /** Nothing is left to cut, to write or to read on the way from the sender to the peer. */
  predicate Quiet(sys: System, r: Route) {
    && !sys.sender.isSending && sys.sender.queue == [] && sys.up.wire == []
    && (r.p in sys.server.sessions ==> sys.server.sessions[r.p].queue == []) && sys.down.wire == []
  }

  /** The invariant, and no whole block is left waiting in a buffer. */
  predicate PromptlyUnderway(sys: System, r: Route, t: Trail) {
    Underway(sys, r, t) && Prompt(sys.up.input) && Prompt(sys.down.input)
  }

  predicate PromptlyDelivering(sys: System, r: Route, t: Trail) {
    Delivering(sys, r, t) && Prompt(sys.down.input)
  }

  // ---------- full blocks ----------

  lemma FrameOfBlock(file: seq<byte>, k: nat, pad: Padding)
    requires Storable(file) && k < Final(file)
    ensures |Frame(BlockAt(file, k), pad)| == MAX_MESSAGE_SIZE
  {
    BlockBounds(file, k);
  }

  /** In front of the server: the first block is full, or it is the last and nothing follows. */
  lemma UplinkIsFull(sys: System, r: Route, t: Trail)
    requires Underway(sys, r, t) && OnlyBlocks(Contents(t.up))
    ensures |t.up| <= 1 || |Frame(t.up[0].msg, t.up[0].pad)| == MAX_MESSAGE_SIZE
  {
    if t.up != [] {
      var m, rest := t.up[0].msg, Contents(t.up[1..]);
      assert Contents(t.up) == [m] + rest && Contents(t.up)[0] == m;
      assert forall i :: 0 <= i < |rest| ==> rest[i] == Contents(t.up)[i + 1];
      BlocksAreData(Contents(t.up));
      BlocksAreData(rest);
      FirstIsFull(r.file, t.saved, t.k, Data(Flow(sys, r, t)), m, rest, Data(sys.sender.queue), t.up[0].pad);
    }
  }

  lemma FirstIsFull(file: seq<byte>, saved: nat, k: nat, f: seq<Message>, m: Message, rest: seq<Message>,
                    q: seq<Message>, pad: Padding)
    requires Storable(file) && k <= Final(file) + 1 && saved <= Final(file) && m.FileData?
    requires BlocksOf(file, saved) + (f + (([m] + rest) + q)) == BlocksOf(file, k)
    ensures m.WellFormed() && (rest == [] || |Frame(m, pad)| == MAX_MESSAGE_SIZE)
  {
    var a := BlocksOf(file, saved);
    assert (a + f) + ([m] + (rest + q)) == a + (f + (([m] + rest) + q));
    BlockInPlace(file, a + f, m, rest + q, k);
    if |a + f| < Final(file) {
      FrameOfBlock(file, |a + f|, pad);
    }
  }

  /** Behind the server, before the last block: the next block is full. */
  lemma DownlinkIsFull(sys: System, r: Route, t: Trail)
    requires Underway(sys, r, t) && OnlyBlocks(Contents(t.down)) && t.down != []
    ensures |Frame(t.down[0].msg, t.down[0].pad)| == MAX_MESSAGE_SIZE
  {
    var m, rest := t.down[0].msg, Contents(t.down[1..]);
    assert Contents(t.down) == [m] + rest && Contents(t.down)[0] == m;
    FlowShrinks(sys, r, t, m, t.down[1..]);
    TakenOff(r.file, t.saved, m, rest + sys.server.sessions[r.p].queue, Contents(t.up), sys.sender.queue, t.k);
    FrameOfBlock(r.file, t.saved, t.down[0].pad);
  }

  // ---------- reads ----------

  lemma NoNewsIsPrompt(i: Input, piece: seq<byte>)
    requires CanReceive(i, piece) && piece != [] && Receive(i, piece).delivered == i.delivered
    ensures Prompt(Receive(i, piece))
  {
  }

  lemma PromptAfterRead(l: Link, ws: seq<Packet>, n: nat)
    requires Carries(l, ws) && CanRead(l, n)
    requires |ws| <= 1 || |Frame(ws[0].msg, ws[0].pad)| == MAX_MESSAGE_SIZE
    ensures Prompt(Read(l, n).input)
  {
    assert l.wire[..n] + l.wire[n..] == l.wire;
    PromptOnStream(l.input, l.wire[..n], l.wire[n..], ws);
  }

  lemma PeerReadsPromptly(sys: System, r: Route, t: Trail, n: nat, answer: Answer)
    requires PromptlyDelivering(sys, r, t) && Allowed(sys, r, PeerReads(n, answer, true))
    requires OnlyBlocks(Contents(t.down))
    ensures var next := Next(sys, r, PeerReads(n, answer, true)); !Unfinished(next) || Prompt(next.down.input)
  {
    if News(sys.down, n).None? {
      NoNewsIsPrompt(sys.down.input, sys.down.wire[..n]);
    } else {
      var rest := ReadCarries(sys.down, t.down, n);
      var m := News(sys.down, n).value;
      assert Contents(t.down)[0] == m;
      FlowShrinks(sys, r, t, m, rest);
      assert m == Rest(r.file, t.saved)[0] == BlockAt(r.file, t.saved);
      if t.saved < Final(r.file) {
        FrameOfBlock(r.file, t.saved, t.down[0].pad);
        PromptAfterRead(sys.down, t.down, n);
      } else {
        var u := PeerHandlesRest(sys, r, t, Read(sys.down, n), rest, m, answer);
      }
    }
  }

  // ---------- steps and runs ----------

  /** Only the reads change what has been received. */
  lemma OnlyReadsReceive(sys: System, r: Route, step: Step)
    requires Allowed(sys, r, step)
    ensures Next(sys, r, step).up.input == if step.ServerReads? then Read(sys.up, step.n).input else sys.up.input
    ensures Next(sys, r, step).down.input == if step.PeerReads? then Read(sys.down, step.n).input else sys.down.input
  {
  }

  lemma UnderwayStaysPrompt(sys: System, r: Route, t: Trail, step: Step) returns (u: Trail)
    requires PromptlyUnderway(sys, r, t) && Allowed(sys, r, step) && Pure(sys, r)
    ensures PromptlyUnderway(Next(sys, r, step), r, u) || PromptlyDelivering(Next(sys, r, step), r, u)
  {
    u := UnderwayStep(sys, r, t, step);
    ReceivesPromptly(sys, r, t, step);
  }

  lemma ReceivesPromptly(sys: System, r: Route, t: Trail, step: Step)
    requires PromptlyUnderway(sys, r, t) && Allowed(sys, r, step) && Pure(sys, r)
    ensures Prompt(Next(sys, r, step).up.input) && Prompt(Next(sys, r, step).down.input)
  {
    OnlyReadsReceive(sys, r, step);
    if step.ServerReads? {
      ServerReadsFullBlocks(sys, r, t, step.n);
    } else if step.PeerReads? {
      PeerReadsFullBlocks(sys, r, t, step.n);
    }
  }

  lemma ServerReadsFullBlocks(sys: System, r: Route, t: Trail, n: nat)
    requires Underway(sys, r, t) && Pure(sys, r) && CanRead(sys.up, n)
    ensures Prompt(Read(sys.up, n).input)
  {
    ComingIs(sys.up, t.up);
    UplinkIsFull(sys, r, t);
    PromptAfterRead(sys.up, t.up, n);
  }

  lemma PeerReadsFullBlocks(sys: System, r: Route, t: Trail, n: nat)
    requires Underway(sys, r, t) && Pure(sys, r) && CanRead(sys.down, n)
    ensures Prompt(Read(sys.down, n).input)
  {
    ComingIs(sys.down, t.down);
    if t.down != [] {
      DownlinkIsFull(sys, r, t);
    }
    PromptAfterRead(sys.down, t.down, n);
  }

  lemma DeliveringStaysPrompt(sys: System, r: Route, t: Trail, step: Step) returns (u: Trail)
    requires PromptlyDelivering(sys, r, t) && Allowed(sys, r, step) && Pure(sys, r)
    ensures PromptlyDelivering(Next(sys, r, step), r, u) || Arrived(Next(sys, r, step), r)
  {
    OnlyReadsReceive(sys, r, step);
    if step.PeerReads? {
      ComingIs(sys.down, t.down);
      PeerReadsPromptly(sys, r, t, step.n, step.answer);
    }
    u := DeliveringStep(sys, r, t, step);
  }

  lemma {:induction false} StaysPrompt(sys: System, r: Route, t: Trail, steps: seq<Step>) returns (u: Trail)
    requires PromptlyUnderway(sys, r, t) || PromptlyDelivering(sys, r, t)
    requires AllowedRun(sys, r, steps) && PureRun(sys, r, steps)
    ensures var z := Reached(sys, r, steps); PromptlyUnderway(z, r, u) || PromptlyDelivering(z, r, u) || Arrived(z, r)
    decreases |steps|
  {
    u := t;
    if steps != [] {
      var next := Next(sys, r, steps[0]);
      if PromptlyUnderway(sys, r, t) {
        u := UnderwayStaysPrompt(sys, r, t, steps[0]);
      } else {
        u := DeliveringStaysPrompt(sys, r, t, steps[0]);
      }
      if PromptlyUnderway(next, r, u) || PromptlyDelivering(next, r, u) {
        u := StaysPrompt(next, r, u, steps[1..]);
      }
    }
  }

  lemma {:induction false} NothingWaits(l: Link, ws: seq<Packet>)
    requires Carries(l, ws) && l.wire == [] && Prompt(l.input)
    ensures Contents(ws) == []
  {
    ComingIs(l, ws);
    assert l.input.buf + [] == l.input.buf;
  }

  lemma QuietIsNeither(sys: System, r: Route, t: Trail)
    requires Quiet(sys, r)
    ensures !PromptlyUnderway(sys, r, t) && !PromptlyDelivering(sys, r, t)
  {
    if PromptlyDelivering(sys, r, t) {
      NothingFlows(sys, r, t);
    } else if PromptlyUnderway(sys, r, t) {
      NothingFlows(sys, r, t);
      NothingWaits(sys.up, t.up);
      NothingLeft(r.file, t.saved, t.k);
    }
  }

  lemma NothingFlows(sys: System, r: Route, t: Trail)
    requires Wired(sys, r, t) && Prompt(sys.down.input) && Quiet(sys, r)
    ensures Flow(sys, r, t) == []
  {
    NothingWaits(sys.down, t.down);
  }

  lemma NothingLeft(file: seq<byte>, saved: nat, k: nat)
    requires Balanced(file, saved, k, [], [], [])
    ensures k == saved <= Final(file)
  {
    assert BlocksOf(file, saved) + ([] + ([] + [])) == BlocksOf(file, saved);
  }

  /**
   * Whatever the pieces the three streams are received in, and whatever else the server and its other clients do: in a
   * run in which nothing but blocks travels towards the peer, the file has arrived once everything is cut, written and
   * read.
   */
  lemma {:induction false} QuietMeansArrived(sys: System, r: Route, up: seq<Packet>, back: seq<Packet>,
                                             down: seq<Packet>, steps: seq<Step>)
    requires Ready(sys, r, up, back, down) && AllowedRun(sys, r, steps) && PureRun(sys, r, steps)
    requires Prompt(sys.up.input) && Prompt(sys.down.input)
    requires Quiet(Reached(sys, r, steps), r)
    ensures Arrived(Reached(sys, r, steps), r)
  {
    ReadyIsUnderway(sys, r, up, back, down);
    var u := StaysPrompt(sys, r, Trail(0, 0, up, back, down), steps);
    QuietIsNeither(Reached(sys, r, steps), r, u);
  }
}
