/** The polling loop over whole runs: what it makes of the bytes that arrive, and what it sends. */
module LoopHistory {
  import opened Bytes
  import opened Messages
  import opened Framing
  import opened ServerModel
  import opened ClientModel
  import C = ClientHistory
  import P = Polling

  /** What a poll leaves in the receive buffer: `recv` returns what fits, and an error is not remembered here. */
  function Taken(i: Input, p: P.Poll): (r: Input)
    requires !i.failed && |i.buf| <= MAX_MESSAGE_SIZE
    ensures !r.failed && |r.buf| <= MAX_MESSAGE_SIZE && i.delivered <= r.delivered
  {
    if p.Timeout? || p.input.None? then i
    else Receive(i, Take(p.input.value, MAX_MESSAGE_SIZE - |i.buf|)).(failed := false)
  }

  function TakenAll(i: Input, polls: seq<P.Poll>): (r: Input)
    requires !i.failed && |i.buf| <= MAX_MESSAGE_SIZE
    ensures !r.failed && |r.buf| <= MAX_MESSAGE_SIZE && i.delivered <= r.delivered
    decreases |polls|
  {
    if polls == [] then i else TakenAll(Taken(i, polls[0]), polls[1..])
  }

  /** What happens to the client in an iteration: it hears, it is written from, and it cycles, in that order. */
  function Iteration(p: P.Poll, heard: seq<Message>, wrote: bool, cycled: bool): (r: seq<C.Happening>)
    requires |heard| <= 1 && (p.Timeout? ==> heard == [])
  {
    (if heard == [] then [] else [C.Hears(heard[0], p.answer, p.canOpen)])
    + (if wrote then [C.Writes] else []) + (if cycled && p.Ready? then [C.Cycles(p.canOpen)] else [])
  }

  /** The messages that a run takes off the queue. */
  function Gone(c: Client, hs: seq<C.Happening>): (r: seq<Message>)
    requires c.Valid()
    decreases |hs|
  {
    if hs == [] then []
    else
      match C.After(c, hs[0])
      case Continues(d) => (if hs[0].Writes? && c.queue != [] then [c.queue[0]] else []) + Gone(d, hs[1..])
      case Aborts => []
  }

  // ---------- one iteration ----------

  /** `ppoll` or the read reports an error, and no write forgets it. */
  predicate Fails(s: P.Session, p: P.Poll)
    requires s.Valid() && p.Ready?
  {
    && !(p.writable.Some? && s.client.queue != [])
    && if p.input.None? then p.broken
       else Receive(s.input, Take(p.input.value, MAX_MESSAGE_SIZE - |s.input.buf|)).failed
  }

  /** A poll as the client sees it: the message that is complete, if there is one, a write, and a cycle. */
  function Came(s: P.Session, p: P.Poll): (r: seq<C.Happening>)
    requires s.Valid()
  {
    if p.Timeout? then []
    else
      var wrote := p.writable.Some? && s.client.queue != [];
      Iteration(p, Taken(s.input, p).delivered[|s.input.delivered|..], wrote, !s.closing && !Fails(s, p))
  }

  lemma {:induction false} AfterOne(c: Client, h: C.Happening)
    requires c.Valid()
    ensures C.AfterAll(c, [h]) == C.After(c, h)
    ensures Gone(c, [h]) == if h.Writes? && c.queue != [] then [c.queue[0]] else []
    ensures C.Heard([h]) == if h.Hears? then [h.m] else []
  {
    assert [h][1..] == [];
    if C.After(c, h).Continues? {
      var d := C.After(c, h).client;
      assert C.AfterAll(d, []) == Continues(d) && Gone(d, []) == [];
    }
  }

  lemma {:induction false} AfterBoth(c: Client, a: seq<C.Happening>, b: seq<C.Happening>)
    requires c.Valid()
    ensures var r := C.AfterAll(c, a);
            C.AfterAll(c, a + b) == if r.Continues? then C.AfterAll(r.client, b) else Aborts
    decreases |a|
  {
    if a == [] {
      assert a + b == b;
    } else {
      assert (a + b)[0] == a[0] && (a + b)[1..] == a[1..] + b;
      if C.After(c, a[0]).Continues? {
        AfterBoth(C.After(c, a[0]).client, a[1..], b);
      }
    }
  }

  lemma {:induction false} GoneBoth(c: Client, a: seq<C.Happening>, b: seq<C.Happening>)
    requires c.Valid()
    ensures var r := C.AfterAll(c, a);
            Gone(c, a + b) == Gone(c, a) + if r.Continues? then Gone(r.client, b) else []
    decreases |a|
  {
    if a == [] {
      assert a + b == b;
    } else {
      assert (a + b)[0] == a[0] && (a + b)[1..] == a[1..] + b;
      if C.After(c, a[0]).Continues? {
        GoneBoth(C.After(c, a[0]).client, a[1..], b);
      }
    }
  }

  lemma {:induction false} HeardBoth(a: seq<C.Happening>, b: seq<C.Happening>)
    ensures C.Heard(a + b) == C.Heard(a) + C.Heard(b)
    decreases |a|
  {
    if a == [] {
      assert a + b == b;
    } else {
      assert (a + b)[0] == a[0] && (a + b)[1..] == a[1..] + b;
      HeardBoth(a[1..], b);
    }
  }

  /** What is left of a client after a part of a loop. */
  function Outcome(s: P.Session): (r: Result) {
    if s.aborted then Aborts else Continues(s.client)
  }

  /** The read of an iteration, on its own. */
  function AfterRead(s: P.Session, p: P.Poll): (r: (P.Session, bool))
    requires s.Valid() && p.Ready?
    ensures r.0.Valid() && s.client.queue <= r.0.client.queue
  {
    if p.input.Some? then P.Reads(s, p.input.value, p.answer, p.canOpen) else (s, p.broken)
  }

  /**
   * From `s` to `z` the client has had the run `hs`: it stands where that leaves it, and has heard the messages that
   * were delivered and no others, each once and in order.
   */
  predicate IsRun(s: P.Session, hs: seq<C.Happening>, z: P.Session)
    requires s.Valid()
  {
    C.AfterAll(s.client, hs) == Outcome(z) && z.input.delivered == s.input.delivered + C.Heard(hs)
  }

  lemma {:induction false} RunAfterRun(s: P.Session, a: seq<C.Happening>, t: P.Session, b: seq<C.Happening>,
                                       z: P.Session)
    requires s.Valid() && t.Valid() && !t.aborted && IsRun(s, a, t) && IsRun(t, b, z)
    ensures IsRun(s, a + b, z) && Gone(s.client, a + b) == Gone(s.client, a) + Gone(t.client, b)
  {
    AfterBoth(s.client, a, b);
    GoneBoth(s.client, a, b);
    HeardBoth(a, b);
  }

  /** What would come after the end of the program does not happen. */
  lemma {:induction false} RunThatEnds(s: P.Session, a: seq<C.Happening>, t: P.Session, b: seq<C.Happening>)
    requires s.Valid() && t.aborted && IsRun(s, a, t) && C.Heard(b) == []
    ensures IsRun(s, a + b, t) && Gone(s.client, a + b) == Gone(s.client, a)
  {
    AfterBoth(s.client, a, b);
    GoneBoth(s.client, a, b);
    HeardBoth(a, b);
  }

  lemma OneAtMost(i: Input, piece: seq<byte>)
    requires CanReceive(i, piece)
    ensures var j := Receive(i, piece);
            && |j.buf| <= MAX_MESSAGE_SIZE && i.delivered <= j.delivered
            && (j.delivered == i.delivered || |j.delivered| == |i.delivered| + 1)
  {
  }

  /** What an iteration hears, on its input before and after the read. */
  predicate Hears(s: P.Session, t: P.Session, after: Input, p: P.Poll)
    requires s.Valid() && p.Ready? && s.input.delivered <= after.delivered
  {
    var heard := after.delivered[|s.input.delivered|..];
    && t == s.(input := after, client := t.client, aborted := t.aborted)
    && s.input.delivered + heard == t.input.delivered && |heard| <= 1
    && (if heard == [] then Outcome(t) == Continues(s.client)
        else Outcome(t) == Receives(s.client, heard[0], p.answer, p.canOpen))
  }

  lemma HandlesOne(s: P.Session, after: Input, p: P.Poll)
    requires s.Valid() && !s.aborted && p.Ready? && |after.buf| <= MAX_MESSAGE_SIZE
    requires s.input.delivered <= after.delivered && |after.delivered| <= |s.input.delivered| + 1
    ensures Hears(s, P.Handles(s, after, p.answer, p.canOpen).0, after.(failed := false), p)
  {
  }

  lemma ReadIsReceived(s: P.Session, p: P.Poll) returns (after: Input)
    requires s.Valid() && !s.aborted && p.Ready? && p.input.Some?
    ensures |after.buf| <= MAX_MESSAGE_SIZE && Taken(s.input, p) == after.(failed := false)
    ensures s.input.delivered <= after.delivered && |after.delivered| <= |s.input.delivered| + 1
    ensures AfterRead(s, p) == P.Handles(s, after, p.answer, p.canOpen)
  {
    var piece := Take(p.input.value, MAX_MESSAGE_SIZE - |s.input.buf|);
    OneAtMost(s.input, piece);
    after := Receive(s.input, piece);
  }

  lemma ReadIsTaken(s: P.Session, p: P.Poll)
    requires s.Valid() && !s.aborted && p.Ready?
    ensures Hears(s, AfterRead(s, p).0, Taken(s.input, p), p)
  {
    if p.input.Some? {
      var after := ReadIsReceived(s, p);
      HandlesOne(s, after, p);
    }
  }

  lemma {:induction false} ReadIsRun(s: P.Session, p: P.Poll)
    requires s.Valid() && !s.aborted && p.Ready?
    ensures var (t, heard) := (AfterRead(s, p).0, Taken(s.input, p).delivered[|s.input.delivered|..]);
            && IsRun(s, Iteration(p, heard, false, false), t)
            && Gone(s.client, Iteration(p, heard, false, false)) == []
            && t == s.(input := Taken(s.input, p), client := t.client, aborted := t.aborted)
  {
    var t, heard := AfterRead(s, p).0, Taken(s.input, p).delivered[|s.input.delivered|..];
    ReadIsTaken(s, p);
    if heard == [] {
      assert Iteration(p, heard, false, false) == [];
    } else {
      var h := C.Hears(heard[0], p.answer, p.canOpen);
      assert Iteration(p, heard, false, false) == [h];
      AfterOne(s.client, h);
      assert C.Heard([h]) == heard;
    }
  }

  lemma {:induction false} RestIsSilent(p: P.Poll, wrote: bool, cycled: bool)
    ensures C.Heard(Iteration(p, [], wrote, cycled)) == []
  {
    var w, k := if wrote then [C.Writes] else [], if cycled && p.Ready? then [C.Cycles(p.canOpen)] else [];
    assert Iteration(p, [], wrote, cycled) == w + k;
    HeardBoth(w, k);
    assert [C.Writes][1..] == [] && (k != [] ==> k[1..] == []);
  }

  lemma {:induction false} EndIsRun(t: P.Session, fails: bool, p: P.Poll)
    requires t.Valid() && !t.aborted && p.Ready?
    ensures var hs := Iteration(p, [], false, !t.closing && !fails);
            IsRun(t, hs, P.Ends(t, fails, p.canOpen)) && Gone(t.client, hs) == []
  {
    if t.closing || fails {
      assert Iteration(p, [], false, false) == [];
    } else {
      assert Iteration(p, [], false, true) == [C.Cycles(p.canOpen)];
      AfterOne(t.client, C.Cycles(p.canOpen));
    }
  }

  lemma {:induction false} WriteIsRun(t: P.Session, pad: Padding)
    requires t.Valid() && !t.aborted && t.client.queue != []
    ensures IsRun(t, [C.Writes], P.Writes(t, pad)) && Gone(t.client, [C.Writes]) == [t.client.queue[0]]
  {
    AfterOne(t.client, C.Writes);
  }

  lemma {:induction false} ThenEnd(t: P.Session, hs: seq<C.Happening>, u: P.Session, p: P.Poll)
    requires t.Valid() && u.Valid() && !u.aborted && p.Ready? && IsRun(t, hs, u)
    ensures var last := Iteration(p, [], false, !u.closing);
            && IsRun(t, hs + last, P.Ends(u, false, p.canOpen)) && Gone(t.client, hs + last) == Gone(t.client, hs)
  {
    var last := Iteration(p, [], false, !u.closing);
    EndIsRun(u, false, p);
    RunAfterRun(t, hs, u, last, P.Ends(u, false, p.canOpen));
  }

  lemma {:induction false} WriteThenEnd(t: P.Session, p: P.Poll)
    requires t.Valid() && !t.aborted && p.Ready? && p.writable.Some? && t.client.queue != []
    ensures var hs := Iteration(p, [], true, !t.closing);
            && IsRun(t, hs, P.Ends(P.Writes(t, p.writable.value), false, p.canOpen))
            && Gone(t.client, hs) == [t.client.queue[0]]
  {
    WriteIsRun(t, p.writable.value);
    ThenEnd(t, [C.Writes], P.Writes(t, p.writable.value), p);
    assert Iteration(p, [], true, !t.closing) == [C.Writes] + Iteration(p, [], false, !t.closing);
  }

  /** What follows the read: a write, if there was something to write before it, and a cycle. */
  lemma RestIsRun(t: P.Session, p: P.Poll, wrote: bool, fails: bool)
    requires t.Valid() && !t.aborted && p.Ready? && !(wrote && fails)
    requires wrote ==> t.client.queue != [] && p.writable.Some?
    ensures var u := if wrote then P.Writes(t, p.writable.value) else t;
            var hs := Iteration(p, [], wrote, !t.closing && !fails);
            && IsRun(t, hs, P.Ends(u, fails, p.canOpen))
            && Gone(t.client, hs) == if wrote then [t.client.queue[0]] else []
  {
    if wrote {
      WriteThenEnd(t, p);
    } else {
      EndIsRun(t, fails, p);
    }
  }

  lemma PollIsReadAndRest(s: P.Session, p: P.Poll)
    requires s.Valid() && !s.aborted && p.Ready?
    ensures var (z, e) := P.PollOnce(s, p);
            var (t, wrote) := (AfterRead(s, p).0, p.writable.Some? && s.client.queue != []);
            if t.aborted then z == t && !e
            else
              && (wrote ==> t.client.queue != [])
              && z == P.Ends(if wrote then P.Writes(t, p.writable.value) else t, Fails(s, p), p.canOpen)
              && e == Fails(s, p)
  {
  }

  /** What the write of an iteration takes off the queue, if the read has not ended the program. */
  function Written(s: P.Session, p: P.Poll): (r: seq<Message>)
    requires s.Valid()
  {
    if p.Ready? && p.writable.Some? && s.client.queue != [] && !AfterRead(s, p).0.aborted
    then [AfterRead(s, p).0.client.queue[0]] else []
  }

  lemma {:induction false} CameIsReadAndRest(s: P.Session, p: P.Poll)
    requires s.Valid() && p.Ready?
    ensures var heard := Taken(s.input, p).delivered[|s.input.delivered|..];
            var wrote := p.writable.Some? && s.client.queue != [];
            Came(s, p) == Iteration(p, heard, false, false) + Iteration(p, [], wrote, !s.closing && !Fails(s, p))
  {
  }

  /** A poll whose message ends the program. */
  lemma {:induction false} PollEnds(s: P.Session, p: P.Poll)
    requires s.Valid() && !s.aborted && p.Ready? && AfterRead(s, p).0.aborted
    ensures IsRun(s, Came(s, p), P.PollOnce(s, p).0) && Gone(s.client, Came(s, p)) == []
  {
    var wrote, cycled := p.writable.Some? && s.client.queue != [], !s.closing && !Fails(s, p);
    var first := Iteration(p, Taken(s.input, p).delivered[|s.input.delivered|..], false, false);
    ReadIsRun(s, p);
    PollIsReadAndRest(s, p);
    CameIsReadAndRest(s, p);
    RestIsSilent(p, wrote, cycled);
    RunThatEnds(s, first, AfterRead(s, p).0, Iteration(p, [], wrote, cycled));
  }

  /** And one that goes on. */
  lemma {:induction false} PollGoesOn(s: P.Session, p: P.Poll)
    requires s.Valid() && !s.aborted && p.Ready? && !AfterRead(s, p).0.aborted
    ensures IsRun(s, Came(s, p), P.PollOnce(s, p).0) && Gone(s.client, Came(s, p)) == Written(s, p)
  {
    var wrote, fails := p.writable.Some? && s.client.queue != [], Fails(s, p);
    var first := Iteration(p, Taken(s.input, p).delivered[|s.input.delivered|..], false, false);
    ReadIsRun(s, p);
    PollIsReadAndRest(s, p);
    CameIsReadAndRest(s, p);
    var t, z := AfterRead(s, p).0, P.PollOnce(s, p).0;
    RestIsRun(t, p, wrote, fails);
    RunAfterRun(s, first, t, Iteration(p, [], wrote, !s.closing && !fails), z);
  }

  /** A poll is a run. */
  lemma {:induction false} PollIsRun(s: P.Session, p: P.Poll)
    requires s.Valid() && !s.aborted
    ensures IsRun(s, Came(s, p), P.PollOnce(s, p).0) && Gone(s.client, Came(s, p)) == Written(s, p)
  {
    if p.Ready? {
      if AfterRead(s, p).0.aborted {
        PollEnds(s, p);
      } else {
        PollGoesOn(s, p);
      }
    }
  }

  /** It sends the frame of what it takes off the queue, and the session is closing if it was or there is an error. */
  lemma PollSends(s: P.Session, p: P.Poll)
    requires s.Valid() && !s.aborted
    ensures var (z, e) := P.PollOnce(s, p);
            && z.input == Taken(s.input, p) && (z.closing <==> s.closing || e)
            && IsFrame(Written(s, p), p) && z.sent == s.sent + FrameOf(Written(s, p), p)
  {
    if p.Ready? {
      ReadIsTaken(s, p);
      PollIsReadAndRest(s, p);
    }
  }

  predicate IsFrame(ms: seq<Message>, p: P.Poll) {
    ms == [] || (|ms| == 1 && ms[0].WellFormed() && p.Ready? && p.writable.Some?)
  }

  function FrameOf(ms: seq<Message>, p: P.Poll): (r: seq<byte>)
    requires IsFrame(ms, p)
  {
    if ms == [] then [] else Frame(ms[0], p.writable.value)
  }

  // ---------- the loop ----------

  /** A whole loop as the client sees it. */
  function CameAll(s: P.Session, hasError: bool, polls: seq<P.Poll>): (r: seq<C.Happening>)
    requires s.Valid()
    decreases |polls|
  {
    if polls == [] || P.Over(s, hasError) then []
    else
      var (t, e) := P.PollOnce(s, polls[0]);
      Came(s, polls[0]) + CameAll(t, e, polls[1..])
  }

  lemma {:induction false} FrameInFront(one: seq<Message>, p: P.Poll, ms: seq<Message>, ws: seq<Packet>)
    returns (all: seq<Packet>)
    requires IsFrame(one, p) && AllWellFormed(ws) && Contents(ws) == ms
    ensures AllWellFormed(all) && Contents(all) == one + ms && Stream(all) == FrameOf(one, p) + Stream(ws)
  {
    if one == [] {
      all := ws;
      assert [] + Stream(ws) == Stream(ws) && one + ms == ms;
    } else {
      all := [Packet(one[0], p.writable.value)] + ws;
      assert all[1..] == ws && one == [one[0]];
    }
  }

  /**
   * The loop is a run of the client. The bytes that `recv` returned are cut into messages as the framing cuts them; the
   * client hears these messages and no others, each once and in order; and it ends as that run ends, with its program
   * if one of the messages ends it. The session is closing then if it was before or there was an error.
   */
  lemma {:induction false} LoopIsRun(s: P.Session, polls: seq<P.Poll>) returns (n: nat)
    requires s.Valid() && !s.aborted
    ensures var (z, e) := P.Polled(s, false, polls);
            && n <= |polls| && z.input == TakenAll(s.input, polls[..n]) && IsRun(s, CameAll(s, false, polls), z)
            && (z.closing <==> s.closing || e)
    decreases |polls|
  {
    n := 0;
    if polls != [] && !P.Over(s, false) {
      var (t, e) := P.PollOnce(s, polls[0]);
      var came, later := Came(s, polls[0]), CameAll(t, e, polls[1..]);
      PollIsRun(s, polls[0]);
      PollSends(s, polls[0]);
      if P.Over(t, e) {
        n := 1;
        assert came + [] == came;
      } else {
        var m := LoopIsRun(t, polls[1..]);
        n := m + 1;
        RunAfterRun(s, came, t, later, P.Polled(t, e, polls[1..]).0);
        assert polls[..n][1..] == polls[1..][..m];
      }
      assert polls[..n][0] == polls[0];
    }
  }

  /** What the writes of a loop take off the queue. */
  function WrittenAll(s: P.Session, hasError: bool, polls: seq<P.Poll>): (r: seq<Message>)
    requires s.Valid()
    decreases |polls|
  {
    if polls == [] || P.Over(s, hasError) then []
    else
      var (t, e) := P.PollOnce(s, polls[0]);
      Written(s, polls[0]) + WrittenAll(t, e, polls[1..])
  }

  lemma {:induction false} GoneIsWritten(s: P.Session, hasError: bool, polls: seq<P.Poll>)
    requires s.Valid() && !s.aborted
    ensures Gone(s.client, CameAll(s, hasError, polls)) == WrittenAll(s, hasError, polls)
    decreases |polls|
  {
    if polls != [] && !P.Over(s, hasError) {
      var (t, e) := P.PollOnce(s, polls[0]);
      PollIsRun(s, polls[0]);
      GoneBoth(s.client, Came(s, polls[0]), CameAll(t, e, polls[1..]));
      if !t.aborted {
        GoneIsWritten(t, e, polls[1..]);
      }
    }
  }

  lemma {:induction false} FramesOfWritten(s: P.Session, hasError: bool, polls: seq<P.Poll>) returns (ws: seq<Packet>)
    requires s.Valid() && !s.aborted
    ensures AllWellFormed(ws) && Contents(ws) == WrittenAll(s, hasError, polls)
    ensures P.Polled(s, hasError, polls).0.sent == s.sent + Stream(ws)
    decreases |polls|
  {
    ws := [];
    if polls != [] && !P.Over(s, hasError) {
      var (t, e) := P.PollOnce(s, polls[0]);
      PollSends(s, polls[0]);
      var later := [];
      if !t.aborted {
        later := FramesOfWritten(t, e, polls[1..]);
      }
      ws := FrameInFront(Written(s, polls[0]), polls[0], WrittenAll(t, e, polls[1..]), later);
      Regroups(s.sent, FrameOf(Written(s, polls[0]), polls[0]), Stream(later));
    }
  }

  lemma Regroups(a: seq<byte>, b: seq<byte>, c: seq<byte>)
    ensures a + (b + c) == (a + b) + c
  {
  }

  /** And what the loop sends is the frames of the messages that leave the queue in that run, in order. */
  lemma {:induction false} LoopSends(s: P.Session, polls: seq<P.Poll>) returns (ws: seq<Packet>)
    requires s.Valid() && !s.aborted
    ensures AllWellFormed(ws) && Contents(ws) == Gone(s.client, CameAll(s, false, polls))
    ensures P.Polled(s, false, polls).0.sent == s.sent + Stream(ws)
  {
    GoneIsWritten(s, false, polls);
    ws := FramesOfWritten(s, false, polls);
  }
}
