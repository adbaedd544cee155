/** Sending a file: whatever the queue does between the cycles, the blocks of the file go out once each and in order. */
module Splitting {
  import opened Bytes
  import opened Messages
  import opened ServerModel
  import opened ClientModel

  /** Between the server's go-ahead and the final block, with `k` blocks already queued. */
  predicate Sending(c: Client, file: seq<byte>, k: nat) {
    && c.Valid() && Storable(file) && k <= Final(file)
    && c.isSending && c.hasStarted && c.fileName != [] && c.fileName in c.disk && c.disk[c.fileName] == file
    && c.offset == BLOCK * k
    && (if c.handle.Closed? then k == 0 else c.handle == Reading(c.fileName, BLOCK * k))
  }

  predicate Finished(c: Client) {
    c.Valid() && !c.isSending && !c.hasStarted && c.handle.Closed? && c.offset == 0
  }

  /** The state after `k` blocks. */
  predicate Progress(c: Client, file: seq<byte>, k: nat) {
    if k <= Final(file) then Sending(c, file, k) else k == Final(file) + 1 && Finished(c)
  }

  lemma ToLongKeeps(n: nat)
    requires n < 0x8000_0000_0000_0000
    ensures ToLong(n) == n
  {
  }

  lemma NextBlockIsRead(file: seq<byte>, k: nat)
    requires k <= Final(file)
    ensures Take(From(file, BLOCK * k), BLOCK) == BlockData(file, k)
    ensures |BlockData(file, k)| < BLOCK <==> k == Final(file)
    ensures BLOCK * k <= |file|
  {
    BlockBounds(file, k);
  }

  /** One cycle with room in the queue queues exactly the next block; without room nothing is read. */
  lemma CycleSendsNext(c: Client, file: seq<byte>, k: nat)
    requires Sending(c, file, k)
    ensures var d := Cycle(c, true);
            if CanSend(c.queue) then d.queue == c.queue + [BlockAt(file, k)] && Progress(d, file, k + 1)
            else d.queue == c.queue && Sending(d, file, k)
  {
    var d := if c.handle.Closed? then c.(handle := Reading(c.fileName, 0)) else c;
    if CanSend(c.queue) {
      NextBlockIsRead(file, k);
      ToLongKeeps(c.offset);
      assert Cycle(c, true) == ReadBlock(d);
    }
  }

  /** What happens to a sending client: a cycle, a message leaving for the socket, another message queued. */
  datatype Tick = Cycled | Popped | Pushed(m: Message)

  function Ticked(c: Client, t: Tick): (r: Client)
    requires c.Valid()
    ensures Ticked(c, t).Valid()
  {
    match t
    case Cycled => Cycle(c, true)
    case Popped => if c.queue == [] then c else c.(queue := c.queue[1..])
    case Pushed(m) => Queued(c, m)
  }

  /** What the cycles of a run queue, in order. */
  function Emitted(c: Client, ts: seq<Tick>): (r: seq<Message>)
    requires c.Valid()
    decreases |ts|
  {
    if ts == [] then [] else
      var d := Ticked(c, ts[0]);
      (if ts[0].Cycled? && |d.queue| > |c.queue| then d.queue[|c.queue|..] else []) + Emitted(d, ts[1..])
  }

  function After(c: Client, ts: seq<Tick>): (r: Client)
    requires c.Valid()
    ensures After(c, ts).Valid()
    decreases |ts|
  {
    if ts == [] then c else After(Ticked(c, ts[0]), ts[1..])
  }

  lemma TickProgress(c: Client, file: seq<byte>, k: nat, t: Tick) returns (n: nat)
    requires Progress(c, file, k) && Storable(file)
    ensures k <= n <= Final(file) + 1 && n <= k + 1
    ensures Progress(Ticked(c, t), file, n)
    ensures var d := Ticked(c, t);
            if n == k then t.Cycled? ==> d.queue == c.queue else t.Cycled? && d.queue == c.queue + [BlockAt(file, k)]
  {
    n := k;
    if k <= Final(file) && t.Cycled? {
      CycleSendsNext(c, file, k);
      n := if CanSend(c.queue) then k + 1 else k;
    }
  }

  /**
   * Over any run of cycles, writes and other messages, the cycles have queued exactly the first blocks of the file,
   * each once and in order, and the client stands where the next block begins, or has ended the transfer after the last
   * one.
   */
  lemma {:induction false} SplitsInOrder(c: Client, file: seq<byte>, k: nat, ts: seq<Tick>) returns (n: nat)
    requires Progress(c, file, k) && Storable(file)
    ensures k <= n <= Final(file) + 1
    ensures BlocksOf(file, k) + Emitted(c, ts) == BlocksOf(file, n)
    ensures Progress(After(c, ts), file, n)
    decreases |ts|
  {
    if ts == [] {
      n := k;
      assert BlocksOf(file, k) + Emitted(c, []) == BlocksOf(file, k);
    } else {
      var d := Ticked(c, ts[0]);
      var m := TickProgress(c, file, k, ts[0]);
      n := SplitsInOrder(d, file, m, ts[1..]);
      OneMore(file, k, m, if m == k then [] else [BlockAt(file, k)], Emitted(d, ts[1..]));
    }
  }

  lemma OneMore(file: seq<byte>, k: nat, m: nat, one: seq<Message>, later: seq<Message>)
    requires k <= m <= k + 1 && m <= Final(file) + 1 && Storable(file)
    requires one == if m == k then [] else [BlockAt(file, k)]
    ensures BlocksOf(file, k) + (one + later) == BlocksOf(file, m) + later
  {
    assert BlocksOf(file, k) + one == BlocksOf(file, m);
    assert BlocksOf(file, k) + (one + later) == (BlocksOf(file, k) + one) + later;
  }

  // ---------- a started transfer completes ----------

  /** A turn of the polling loop on a writable socket: the front message is written, then `cycle` runs. */
  function Turn(c: Client): (r: Client)
    requires c.Valid()
    ensures Turn(c).Valid()
  {
    Cycle(if c.queue == [] then c else c.(queue := c.queue[1..]), true)
  }

  /** Each turn queues one more block: after a write the queue always has room. */
  lemma TurnSendsNext(c: Client, file: seq<byte>, k: nat)
    requires Sending(c, file, k) && |c.queue| <= MAX_NETWORK_MESSAGE_QUEUE + 1
    ensures Progress(Turn(c), file, k + 1)
    ensures Turn(c).queue == (if c.queue == [] then [] else c.queue[1..]) + [BlockAt(file, k)]
  {
    CycleSendsNext(if c.queue == [] then c else c.(queue := c.queue[1..]), file, k);
  }
}
