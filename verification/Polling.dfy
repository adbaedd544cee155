/** The polling loop of a client session on values: reading, writing and `cycle` in one iteration. */
module Polling {
  import opened Bytes
  import opened Messages
  import opened Framing
  import opened ServerModel
  import opened ClientModel
  import opened Splitting

  /** `closing` is the disconnection flag, `sent` the bytes given to `send`. */
  datatype Session = Session(client: Client, input: Input, closing: bool, sent: seq<byte>, aborted: bool)
  {
    predicate Valid() {
      client.Valid() && !input.failed && |input.buf| <= MAX_MESSAGE_SIZE && AllWell(client.queue)
    }
  }

  /**
   * What `ppoll` reports: nothing in time, or an error condition, bytes to read and room to write in any combination;
   * writability is only asked for when there is something to write.
   */
  datatype Poll =
    | Timeout
    | Ready(broken: bool, input: Option<seq<byte>>, writable: Option<Padding>, answer: Answer, canOpen: bool)

  lemma BlockIsWell(c: Client, canOpen: bool)
    requires c.Valid() && AllWell(c.queue)
    ensures AllWell(Cycle(c, canOpen).queue)
  {
  }

  lemma ReplyIsWell(c: Client, m: Message, answer: Answer, canOpen: bool)
    requires c.Valid() && AllWell(c.queue)
    ensures var r := Receives(c, m, answer, canOpen);
            r.Continues? ==> c.queue <= r.client.queue && AllWell(r.client.queue)
  {
  }

  /** `readData` and, through it, `availableMessages`; the queue can only grow. */
  function Reads(s: Session, bytes: seq<byte>, answer: Answer, canOpen: bool): (r: (Session, bool))
    requires s.Valid()
    ensures r.0.Valid() && s.client.queue <= r.0.client.queue && r.0.closing == s.closing
  {
    Handles(s, Receive(s.input, Take(bytes, MAX_MESSAGE_SIZE - |s.input.buf|)), answer, canOpen)
  }

  /** The session after a read that turned its input into `after`: the new message, if there is one, is handled. */
  function Handles(s: Session, after: Input, answer: Answer, canOpen: bool): (r: (Session, bool))
    requires s.Valid() && |s.input.delivered| <= |after.delivered| && |after.buf| <= MAX_MESSAGE_SIZE
    ensures r.0.Valid() && s.client.queue <= r.0.client.queue && r.0.closing == s.closing
  {
    var t := s.(input := after.(failed := false));
    if |after.delivered| == |s.input.delivered| then (t, after.failed)
    else
      var m := after.delivered[|s.input.delivered|];
      ReplyIsWell(s.client, m, answer, canOpen);
      match Receives(s.client, m, answer, canOpen)
      case Continues(c) => (t.(client := c), after.failed)
      case Aborts => (t.(aborted := true), after.failed)
  }

  /** `writeData`. */
  function Writes(s: Session, pad: Padding): (r: Session)
    requires s.Valid() && s.client.queue != []
    ensures r.Valid()
  {
    assert AllWell(s.client.queue[1..]);
    s.(client := s.client.(queue := s.client.queue[1..]), sent := s.sent + Frame(s.client.queue[0], pad))
  }

  /** The end of an iteration: an error closes the session, otherwise `cycle` runs unless it is closing. */
  function Ends(s: Session, hasError: bool, canOpen: bool): (r: Session)
    requires s.Valid()
    ensures r.Valid()
  {
    BlockIsWell(s.client, canOpen);
    if hasError then s.(closing := true) else if s.closing then s else s.(client := Cycle(s.client, canOpen))
  }

  function PollOnce(s: Session, p: Poll): (r: (Session, bool))
    requires s.Valid()
    ensures r.0.Valid()
  {
    if p.Timeout? then (s, false)
    else
      var (t, e) := if p.input.Some? then Reads(s, p.input.value, p.answer, p.canOpen) else (s, p.broken);
      if t.aborted then (t, e)
      else if p.writable.Some? && s.client.queue != [] then (Ends(Writes(t, p.writable.value), false, p.canOpen), false)
      else (Ends(t, e, p.canOpen), e)
  }

  /** The loop: until an error, or until everything is written after a disconnection. */
  function Polled(s: Session, hasError: bool, polls: seq<Poll>): (r: (Session, bool))
    requires s.Valid()
    decreases |polls|
  {
    if polls == [] || s.aborted || hasError || (s.closing && s.client.queue == []) then (s, hasError)
    else
      var (t, e) := PollOnce(s, polls[0]);
      Polled(t, e, polls[1..])
  }

  // ---------- a started transfer ----------

  /** The socket is writable and nothing arrives. */
  predicate OnlyWritable(p: Poll) {
    p.Ready? && !p.broken && p.input.None? && p.writable.Some? && p.canOpen
  }

  predicate AllWritable(polls: seq<Poll>) {
    polls == [] || (OnlyWritable(polls[0]) && AllWritable(polls[1..]))
  }

  lemma WritablePollIsTurn(s: Session, p: Poll)
    requires s.Valid() && !s.aborted && !s.closing && s.client.queue != [] && OnlyWritable(p)
    ensures PollOnce(s, p) ==
            (s.(client := Turn(s.client), sent := s.sent + Frame(s.client.queue[0], p.writable.value)), false)
  {
  }

  /** A client in the middle of a transfer that has something to write. */
  predicate Pumping(s: Session, file: seq<byte>, k: nat) {
    && s.Valid() && !s.aborted && !s.closing && 0 < |s.client.queue| <= MAX_NETWORK_MESSAGE_QUEUE + 1
    && Progress(s.client, file, k)
  }

  lemma FirstPoll(s: Session, file: seq<byte>, k: nat, next: nat, polls: seq<Poll>) returns (t: Session)
    requires polls != [] && OnlyWritable(polls[0]) && Pumping(s, file, k) && k <= Final(file) && next == k + 1
    ensures Pumping(t, file, next)
    ensures Polled(s, false, polls) == Polled(t, false, polls[1..])
  {
    WritablePollIsTurn(s, polls[0]);
    TurnSendsNext(s.client, file, k);
    t := PollOnce(s, polls[0]).0;
  }

  lemma {:induction false} NoPolls(s: Session)
    requires s.Valid()
    ensures Polled(s, false, []) == (s, false)
  {
  }

  /**
   * A started transfer completes: once something is queued, every iteration of the loop on a writable socket writes one
   * message and queues the next block.
   */
  lemma {:induction false} LoopCompletesTransfer(s: Session, file: seq<byte>, k: nat, polls: seq<Poll>, n: nat)
    requires Pumping(s, file, k) && k + |polls| == n <= Final(file) + 1
    requires AllWritable(polls)
    ensures var (z, hasError) := Polled(s, false, polls); !hasError && Progress(z.client, file, n)
    decreases |polls|, 1
  {
    if polls == [] {
      NoPolls(s);
    } else {
      LoopGoesOn(s, file, k, k + 1, polls, n);
    }
  }

  /** The first iteration queues block `k`; the others go on from block `next`. */
  lemma {:induction false} LoopGoesOn(s: Session, file: seq<byte>, k: nat, next: nat, polls: seq<Poll>, n: nat)
    requires next == k + 1 && Pumping(s, file, k) && k + |polls| == n <= Final(file) + 1
    requires polls != [] && AllWritable(polls)
    ensures var (z, hasError) := Polled(s, false, polls); !hasError && Progress(z.client, file, n)
    decreases |polls|, 0
  {
    var t := FirstPoll(s, file, k, next, polls);
    LoopCompletesTransfer(t, file, next, polls[1..], n);
  }

  /** So the last block is queued after exactly as many iterations as the file has blocks left. */
  lemma {:induction false} LoopEndsOnTime(s: Session, file: seq<byte>, k: nat, polls: seq<Poll>)
    requires Pumping(s, file, k) && k + |polls| <= Final(file) + 1
    requires AllWritable(polls)
    ensures Finished(Polled(s, false, polls).0.client) <==> k + |polls| == Final(file) + 1
  {
    var n := k + |polls|;
    LoopCompletesTransfer(s, file, k, polls, n);
  }

  /**
   * The server's go-ahead queues the first block in the iteration that reads it, so that the loop asks for writability
   * from then on and never waits with a started transfer and an empty queue.
   */
  lemma GoAheadQueuesFirstBlock(s: Session, p: Poll, file: seq<byte>)
    requires s.Valid() && !s.aborted && !s.closing && CanSend(s.client.queue)
    requires p.Ready? && p.input.Some? && p.writable.None? && p.canOpen
    requires var i := Receive(s.input, Take(p.input.value, MAX_MESSAGE_SIZE - |s.input.buf|));
             !i.failed && i.delivered == s.input.delivered + [Status(ACCEPT_FILE_TRANSFER)]
    requires Sending(s.client.(hasStarted := true), file, 0) && s.client.fileName != []
    ensures PollOnce(s, p).0.client.queue == s.client.queue + [BlockAt(file, 0)]
    ensures Progress(PollOnce(s, p).0.client, file, 1)
  {
    GoAheadIsRead(s, p.input.value, p.answer, p.canOpen);
    CycleSendsNext(s.client.(hasStarted := true), file, 0);
  }

  lemma GoAheadIsRead(s: Session, bytes: seq<byte>, answer: Answer, canOpen: bool)
    requires s.Valid() && !s.aborted && s.client.isSending && s.client.fileName != []
    requires var i := Receive(s.input, Take(bytes, MAX_MESSAGE_SIZE - |s.input.buf|));
             !i.failed && i.delivered == s.input.delivered + [Status(ACCEPT_FILE_TRANSFER)]
    ensures var (t, e) := Reads(s, bytes, answer, canOpen);
            !e && !t.aborted && t.closing == s.closing && t.client == s.client.(hasStarted := true)
  {
  }

  // ---------- how the loop ends ----------

  /** The iterations one after the other, whether or not the loop would still make them. */
  function Iterated(s: Session, hasError: bool, polls: seq<Poll>): (r: (Session, bool))
    requires s.Valid()
    ensures r.0.Valid()
    decreases |polls|
  {
    if polls == [] then (s, hasError) else
      var (t, e) := PollOnce(s, polls[0]);
      Iterated(t, e, polls[1..])
  }

  /** An error, the end of the program, or a disconnection with everything written. */
  predicate Over(s: Session, hasError: bool) {
    s.aborted || hasError || (s.closing && |s.client.queue| == 0)
  }

  /**
   * Exactly when the loop ends: it makes the iterations one after the other until the first time that it is over, and
   * not one more.
   */
  lemma {:induction false} LoopEnds(s: Session, hasError: bool, polls: seq<Poll>) returns (n: nat)
    requires s.Valid()
    ensures n <= |polls| && Polled(s, hasError, polls) == Iterated(s, hasError, polls[..n])
    ensures n < |polls| ==> Over(Polled(s, hasError, polls).0, Polled(s, hasError, polls).1)
    ensures forall k :: 0 <= k < n ==>
              var (t, e) := Iterated(s, hasError, polls[..k]); !Over(t, e)
    decreases |polls|
  {
    if polls == [] || Over(s, hasError) {
      n := 0;
      assert polls[..0] == [];
    } else {
      var (t, e) := PollOnce(s, polls[0]);
      var m := LoopEnds(t, e, polls[1..]);
      n := m + 1;
      FirstIteration(s, hasError, polls, n);
      forall k | 0 <= k < n ensures var (u, f) := Iterated(s, hasError, polls[..k]); !Over(u, f) {
        if k > 0 {
          FirstIteration(s, hasError, polls, k);
        } else {
          assert polls[..0] == [];
        }
      }
    }
  }

  lemma {:induction false} FirstIteration(s: Session, hasError: bool, polls: seq<Poll>, k: nat)
    requires s.Valid() && 0 < k <= |polls|
    ensures var (t, e) := PollOnce(s, polls[0]);
            Iterated(s, hasError, polls[..k]) == Iterated(t, e, polls[1..][..k - 1])
  {
    assert polls[..k][0] == polls[0] && polls[..k][1..] == polls[1..][..k - 1];
  }

  // ---------- a session that is closing ----------

  /** The socket is writable, not broken, and nothing arrives. */
  predicate Writable(p: Poll) {
    p.Ready? && !p.broken && p.input.None? && p.writable.Some?
  }

  predicate FirstWritable(polls: seq<Poll>, n: nat) {
    n <= |polls| && forall i :: 0 <= i < n ==> Writable(polls[i])
  }

  predicate CanWriteAll(q: seq<Message>, polls: seq<Poll>) {
    AllWell(q) && |q| <= |polls| && forall i :: 0 <= i < |q| ==> polls[i].Ready? && polls[i].writable.Some?
  }

  /** The frames of a queue, with the padding of successive writes. */
  function FramesOf(q: seq<Message>, polls: seq<Poll>): (r: seq<byte>)
    requires CanWriteAll(q, polls)
    decreases |q|
  {
    if q == [] then [] else Frame(q[0], polls[0].writable.value) + FramesOf(q[1..], polls[1..])
  }

  /**
   * After a disconnection the loop goes on until everything is written: the frames of the queue go out in order, one an
   * iteration, nothing is added to them, and the loop ends without an error, however many polls follow.
   */
  lemma {:induction false} ClosingWritesAll(s: Session, polls: seq<Poll>)
    requires s.Valid() && !s.aborted && s.closing && FirstWritable(polls, |s.client.queue|)
    ensures Polled(s, false, polls) ==
            (s.(client := s.client.(queue := []), sent := s.sent + FramesOf(s.client.queue, polls)), false)
    decreases |s.client.queue|
  {
    var q := s.client.queue;
    if q == [] {
      assert s.sent + [] == s.sent;
    } else {
      var t := Writes(s, polls[0].writable.value);
      assert Writable(polls[0]) && PollOnce(s, polls[0]) == (t, false);
      assert forall i :: 0 <= i < |q| - 1 ==> polls[1..][i] == polls[i + 1];
      ClosingWritesAll(t, polls[1..]);
      Regroups(s.sent, Frame(q[0], polls[0].writable.value), FramesOf(q[1..], polls[1..]));
    }
  }

  lemma Regroups(a: seq<byte>, b: seq<byte>, c: seq<byte>)
    ensures (a + b) + c == a + (b + c)
  {
  }

  /** `disconnect()` of a connected session. */
  function Leaving(s: Session): (r: Session) {
    s.(client := Queued(s.client, Bye), closing := true)
  }

  /** So a client that leaves with room in its queue sends everything it has queued, and its goodbye last. */
  lemma {:induction false} GoodbyeIsSent(s: Session, polls: seq<Poll>)
    requires s.Valid() && !s.aborted && !s.closing && |s.client.queue| <= MAX_NETWORK_MESSAGE_QUEUE
    requires FirstWritable(polls, |s.client.queue| + 1)
    ensures AllWell(s.client.queue + [Bye])
    ensures var (z, e) := Polled(Leaving(s), false, polls);
            && !e && z.client.queue == []
            && z.sent == s.sent + FramesOf(s.client.queue + [Bye], polls)
  {
    ClosingWritesAll(Leaving(s), polls);
  }

  // ---------- errors ----------

  /** `recv` returns nothing, or `ppoll` reports an error condition and nothing to read. */
  predicate Faulty(p: Poll) {
    p.Ready? && (p.input == Some([]) || (p.input.None? && p.broken))
  }

  /** With nothing to write, such an iteration closes the session with an error and leaves all else as it is. */
  lemma FaultCloses(s: Session, p: Poll)
    requires s.Valid() && !s.aborted && Faulty(p) && s.client.queue == []
    ensures PollOnce(s, p) == (s.(closing := true), true)
  {
    NothingIsRead(s, p);
  }

  /** With something to write, the result of `writeData` replaces the error. */
  lemma FaultIsHidden(s: Session, p: Poll)
    requires s.Valid() && !s.aborted && Faulty(p) && s.client.queue != [] && p.writable.Some?
    ensures PollOnce(s, p) == (Ends(Writes(s, p.writable.value), false, p.canOpen), false)
  {
    NothingIsRead(s, p);
  }

  lemma NothingIsRead(s: Session, p: Poll)
    requires s.Valid() && Faulty(p)
    ensures p.input.Some? ==> Reads(s, p.input.value, p.answer, p.canOpen) == (s, true)
  {
    assert s.input.buf + [] == s.input.buf && Take([], MAX_MESSAGE_SIZE - |s.input.buf|) == [];
  }

  /**
   * When the other end has closed the connection, a session with nothing to write ends at once, with an error, and
   * keeps everything it has: whatever its buffer holds and whatever would come next.
   */
  lemma {:induction false} FaultEndsLoop(s: Session, polls: seq<Poll>)
    requires s.Valid() && !s.aborted && !s.closing && s.client.queue == [] && polls != [] && Faulty(polls[0])
    ensures Polled(s, false, polls) == (s.(closing := true), true)
  {
    FaultCloses(s, polls[0]);
  }

  /**
   * A session that has something to write does not notice at once: it writes its whole queue, one message an iteration
   * as long as `cycle` adds nothing, and then ends with the error.
   */
  lemma {:induction false} FaultIsNoticedLate(s: Session, polls: seq<Poll>)
    requires s.Valid() && !s.aborted && !s.closing && !s.client.isSending && |polls| > |s.client.queue|
    requires forall i :: 0 <= i < |polls| ==> Faulty(polls[i]) && polls[i].writable.Some?
    ensures CanWriteAll(s.client.queue, polls)
    ensures var sent := s.sent + FramesOf(s.client.queue, polls);
            Polled(s, false, polls) == (s.(client := s.client.(queue := []), sent := sent, closing := true), true)
    decreases |s.client.queue|
  {
    assert Faulty(polls[0]);
    if s.client.queue == [] {
      FaultCloses(s, polls[0]);
      assert s.sent + [] == s.sent;
    } else {
      var q, t := s.client.queue, Writes(s, polls[0].writable.value);
      FaultIsHidden(s, polls[0]);
      assert forall i :: 0 <= i < |polls[1..]| ==> polls[1..][i] == polls[i + 1];
      FaultIsNoticedLate(t, polls[1..]);
      Regroups(s.sent, Frame(q[0], polls[0].writable.value), FramesOf(q[1..], polls[1..]));
    }
  }

  /** An error condition is forgotten where there is something to read: the result of `readData` replaces it. */
  lemma ReadHidesCondition(s: Session, p: Poll)
    requires s.Valid() && p.Ready? && p.input.Some?
    ensures PollOnce(s, p) == PollOnce(s, p.(broken := !p.broken))
  {
  }

  /** Nothing happens in an iteration in which `ppoll` times out: not even `cycle` runs. */
  lemma {:induction false} TimeoutsDoNothing(s: Session, hasError: bool, polls: seq<Poll>)
    requires s.Valid()
    ensures Polled(s, hasError, [Timeout] + polls) == Polled(s, hasError, polls)
  {
    assert ([Timeout] + polls)[1..] == polls;
  }
}
