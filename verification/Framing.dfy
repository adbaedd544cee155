/**
 * The receiving half of a session on values: `readData` appends what `recv` returned to a buffer of
 * MAX_MESSAGE_SIZE bytes and takes at most one message off its front.
 */
module Framing {
  import opened Bytes
  import opened Messages

  /** `failed` is the error result of `readData`, after which the session stops polling. */
  datatype Input = Input(buf: seq<byte>, delivered: seq<Message>, failed: bool)

  const EMPTY := Input([], [], false)

  /** `recv` returns at most the free space it was offered, and nothing only at the end of the stream. */
  predicate CanReceive(i: Input, piece: seq<byte>) {
    !i.failed && |i.buf| + |piece| <= MAX_MESSAGE_SIZE
  }

  function Receive(i: Input, piece: seq<byte>): (r: Input)
    requires CanReceive(i, piece)
  {
    var b := i.buf + piece;
    if piece == [] then i.(failed := true)
    else if |b| < HEADER_SIZE then i.(buf := b)
    else
      match Parse(b)
      case NeedMore => i.(buf := b)
      case BadBody => i.(buf := b)
      case BadHeader => i.(buf := b, failed := true)
      case Overrun => i.(buf := b, failed := true)
      case Parsed(m, used) => Input(b[used..], i.delivered + [m], false)
  }

  predicate CanRun(i: Input, pieces: seq<seq<byte>>)
    decreases |pieces|
  {
    pieces == [] || (CanReceive(i, pieces[0]) && CanRun(Receive(i, pieces[0]), pieces[1..]))
  }

  function Run(i: Input, pieces: seq<seq<byte>>): (r: Input)
    requires CanRun(i, pieces)
    decreases |pieces|
  {
    if pieces == [] then i else Run(Receive(i, pieces[0]), pieces[1..])
  }

  function Concat(pieces: seq<seq<byte>>): (r: seq<byte>) {
    if pieces == [] then [] else pieces[0] + Concat(pieces[1..])
  }

  // ---------- decoding a whole stream at once ----------

  datatype Decoded = Decoded(msgs: seq<Message>, rest: seq<byte>)

  /** Takes messages off the front for as long as there is one. */
  function Decode(b: seq<byte>): (r: Decoded)
    decreases |b|
  {
    if |b| < HEADER_SIZE || !Parse(b).Parsed? then Decoded([], b)
    else
      var p := Parse(b);
      var d := Decode(b[p.used..]);
      Decoded([p.msg] + d.msgs, d.rest)
  }

  function Prepend(msgs: seq<Message>, d: Decoded): (r: Decoded) {
    Decoded(msgs + d.msgs, d.rest)
  }

  lemma {:induction false} DecodeFirst(b: seq<byte>, t: seq<byte>)
    requires |b| >= HEADER_SIZE && Parse(b).Parsed?
    ensures Decode(b + t) == Prepend([Parse(b).msg], Decode(b[Parse(b).used..] + t))
  {
    VerdictIsFinal(b, t);
    assert (b + t)[Parse(b).used..] == b[Parse(b).used..] + t;
  }

  /** One read neither loses, duplicates nor invents a message, whatever bytes are still to come. */
  lemma {:induction false} ReadPreservesDecoding(i: Input, piece: seq<byte>, future: seq<byte>)
    requires CanReceive(i, piece)
    ensures var j := Receive(i, piece);
            Prepend(j.delivered, Decode(j.buf + future)) == Prepend(i.delivered, Decode(i.buf + (piece + future)))
  {
    var j := Receive(i, piece);
    var b := i.buf + piece;
    assert i.buf + (piece + future) == b + future;
    if j.delivered == i.delivered {
      assert j.buf == b;
    } else {
      DecodeFirst(b, future);
      PrependTwice(i.delivered, Parse(b).msg, Decode(j.buf + future));
    }
  }

  lemma PrependTwice(msgs: seq<Message>, m: Message, d: Decoded)
    ensures Prepend(msgs, Prepend([m], d)) == Prepend(msgs + [m], d)
  {
    assert msgs + ([m] + d.msgs) == (msgs + [m]) + d.msgs;
  }

  /**
   * Reading refines decoding: for every byte stream, well-formed or not, and every way `recv` cuts it up, the
   * messages handed out so far followed by those still in the buffer and in the unread bytes are the decoding
   * of the whole stream.
   */
  lemma {:induction false} RunRefinesDecode(i: Input, pieces: seq<seq<byte>>, future: seq<byte>)
    requires CanRun(i, pieces)
    ensures var j := Run(i, pieces);
            Prepend(j.delivered, Decode(j.buf + future)) ==
              Prepend(i.delivered, Decode(i.buf + (Concat(pieces) + future)))
    decreases |pieces|
  {
    if pieces == [] {
      assert Concat(pieces) + future == future;
    } else {
      var rest := Concat(pieces[1..]);
      RunRefinesDecode(Receive(i, pieces[0]), pieces[1..], future);
      ReadPreservesDecoding(i, pieces[0], rest + future);
      assert Concat(pieces) + future == pieces[0] + (rest + future);
    }
  }

  /** A read delivers at most one message, takes none back, and stays inside the buffer. */
  lemma {:induction false} RunIsMonotone(i: Input, pieces: seq<seq<byte>>)
    requires CanRun(i, pieces) && |i.buf| <= MAX_MESSAGE_SIZE
    ensures var j := Run(i, pieces);
            i.delivered <= j.delivered && |j.delivered| <= |i.delivered| + |pieces| && |j.buf| <= MAX_MESSAGE_SIZE
    decreases |pieces|
  {
    if pieces != [] {
      RunIsMonotone(Receive(i, pieces[0]), pieces[1..]);
    }
  }

  /** From a fresh session: what was delivered is a prefix of the decoding of all bytes sent, now or later. */
  lemma {:induction false} DeliveredIsPrefix(pieces: seq<seq<byte>>, future: seq<byte>)
    requires CanRun(EMPTY, pieces)
    ensures Run(EMPTY, pieces).delivered <= Decode(Concat(pieces) + future).msgs
    ensures |Run(EMPTY, pieces).delivered| <= |pieces|
  {
    RunRefinesDecode(EMPTY, pieces, future);
    assert [] + (Concat(pieces) + future) == Concat(pieces) + future;
    assert Prepend([], Decode(Concat(pieces) + future)) == Decode(Concat(pieces) + future);
    RunIsMonotone(EMPTY, pieces);
  }

  // ---------- streams of written messages ----------

  /** A message and the structure padding it happens to be written with. */
  datatype Packet = Packet(msg: Message, pad: Padding)

  predicate AllWellFormed(ws: seq<Packet>) {
    forall w :: w in ws ==> w.msg.WellFormed()
  }

  function Contents(ws: seq<Packet>): (r: seq<Message>)
    ensures |r| == |ws|
  {
    if ws == [] then [] else [ws[0].msg] + Contents(ws[1..])
  }

  /** The bytes `writeData` sends for the messages. */
  function Stream(ws: seq<Packet>): (r: seq<byte>)
    requires AllWellFormed(ws)
  {
    if ws == [] then [] else Frame(ws[0].msg, ws[0].pad) + Stream(ws[1..])
  }

  lemma {:induction false} StreamOfAppended(ws: seq<Packet>, w: Packet)
    requires AllWellFormed(ws) && w.msg.WellFormed()
    ensures AllWellFormed(ws + [w])
    ensures Stream(ws + [w]) == Stream(ws) + Frame(w.msg, w.pad)
  {
    assert forall x :: x in ws + [w] ==> x in ws || x == w;
    if ws == [] {
      assert ws + [w] == [w];
      assert Stream([w][1..]) == [];
    } else {
      assert (ws + [w])[1..] == ws[1..] + [w] && (ws + [w])[0] == ws[0];
      StreamOfAppended(ws[1..], w);
    }
  }

  /** The decoder undoes the writer. */
  lemma {:induction false} DecodeUndoesStream(ws: seq<Packet>)
    requires AllWellFormed(ws)
    ensures Decode(Stream(ws)) == Decoded(Contents(ws), [])
  {
    if ws != [] {
      var f := Frame(ws[0].msg, ws[0].pad);
      RoundTrip(ws[0].msg, ws[0].pad, Stream(ws[1..]));
      assert Stream(ws)[|f|..] == Stream(ws[1..]);
      DecodeUndoesStream(ws[1..]);
    }
  }

  /** The buffer and the unread bytes are what is left of the packets `ws`; a next `recv` has room. */
  predicate OnStream(i: Input, unread: seq<byte>, ws: seq<Packet>) {
    !i.failed && |i.buf| < MAX_MESSAGE_SIZE && AllWellFormed(ws) && i.buf + unread == Stream(ws)
  }

  lemma {:induction false} HeadOfStream(b: seq<byte>, unread: seq<byte>, ws: seq<Packet>)
    requires AllWellFormed(ws) && b + unread == Stream(ws) && |b| >= HEADER_SIZE
    ensures ws != []
    ensures var f := Frame(ws[0].msg, ws[0].pad);
            if |b| < |f| then Parse(b) == NeedMore
            else Parse(b) == Parsed(ws[0].msg, |f|) && b[|f|..] + unread == Stream(ws[1..])
  {
    assert ws != [];
    var f := Frame(ws[0].msg, ws[0].pad);
    if |b| < |f| {
      CommonPrefix(b, unread, f, Stream(ws[1..]));
      CutFrameWaits(ws[0].msg, ws[0].pad, |b|);
    } else {
      CommonPrefix(f, Stream(ws[1..]), b, unread);
      RoundTrip(ws[0].msg, ws[0].pad, b[|f|..]);
    }
  }

  lemma CommonPrefix(a: seq<byte>, t: seq<byte>, b: seq<byte>, u: seq<byte>)
    requires a + t == b + u && |a| <= |b|
    ensures a == b[..|a|] && b == a + b[|a|..] && b[|a|..] + u == t
  {
    assert a == (a + t)[..|a|] == (b + u)[..|a|] == b[..|a|];
    assert t == (a + t)[|a|..] == (b + u)[|a|..] == b[|a|..] + u;
  }

  /** The packets left over after a read that turned `i` into `j`. */
  function Left(i: Input, j: Input, ws: seq<Packet>): (r: seq<Packet>) {
    if |j.delivered| == |i.delivered| || ws == [] then ws else ws[1..]
  }

  /**
   * One read of a well-formed stream: no error, at most the next message and no other, and the buffer is not full
   * afterwards, because a full one begins with a whole frame.
   */
  lemma ReadOnStream(i: Input, piece: seq<byte>, unread: seq<byte>, ws: seq<Packet>)
    requires OnStream(i, piece + unread, ws)
    requires piece != [] && CanReceive(i, piece)
    ensures var j := Receive(i, piece);
            && OnStream(j, unread, Left(i, j, ws))
            && (j.delivered == i.delivered || (ws != [] && j.delivered == i.delivered + [ws[0].msg]))
  {
    var b := i.buf + piece;
    assert i.buf + (piece + unread) == b + unread;
    if |b| >= HEADER_SIZE {
      HeadOfStream(b, unread, ws);
    }
  }

  /**
   * Framing over whole runs: pieces of the stream of `ws`, none empty and none larger than the free space, are
   * received without an error, the free space never vanishes, and exactly the first messages written have been
   * delivered, in order; the buffer and the unread bytes hold exactly the frames of the others.
   */
  lemma {:induction false} StreamIsDeliveredInOrder(i: Input, pieces: seq<seq<byte>>, unread: seq<byte>,
                                                    ws: seq<Packet>)
    returns (done: seq<Packet>, rest: seq<Packet>)
    requires OnStream(i, Concat(pieces) + unread, ws)
    requires [] !in pieces && CanRun(i, pieces)
    ensures ws == done + rest
    ensures OnStream(Run(i, pieces), unread, rest)
    ensures Run(i, pieces).delivered == i.delivered + Contents(done)
    decreases |pieces|
  {
    if pieces == [] {
      assert Concat(pieces) + unread == unread;
      done, rest := [], ws;
    } else {
      var j := FirstRead(i, pieces, unread, ws);
      var later;
      later, rest := StreamIsDeliveredInOrder(j, pieces[1..], unread, Left(i, j, ws));
      done := Glue(i.delivered, j.delivered, ws, later, rest);
    }
  }

  lemma FirstRead(i: Input, pieces: seq<seq<byte>>, unread: seq<byte>, ws: seq<Packet>) returns (j: Input)
    requires pieces != [] && OnStream(i, Concat(pieces) + unread, ws)
    requires [] !in pieces && CanRun(i, pieces)
    ensures j == Receive(i, pieces[0]) && CanRun(j, pieces[1..]) && Run(i, pieces) == Run(j, pieces[1..])
    ensures OnStream(j, Concat(pieces[1..]) + unread, Left(i, j, ws))
    ensures j.delivered == i.delivered || (ws != [] && j.delivered == i.delivered + [ws[0].msg])
  {
    FirstPiece(pieces, unread);
    ReadOnStream(i, pieces[0], Concat(pieces[1..]) + unread, ws);
    j := Receive(i, pieces[0]);
  }

  lemma {:induction false} FirstPiece(pieces: seq<seq<byte>>, unread: seq<byte>)
    requires pieces != []
    ensures Concat(pieces) + unread == pieces[0] + (Concat(pieces[1..]) + unread)
  {
  }

  lemma Glue(before: seq<Message>, after: seq<Message>, ws: seq<Packet>, later: seq<Packet>, rest: seq<Packet>)
    returns (done: seq<Packet>)
    requires after == before || (ws != [] && after == before + [ws[0].msg])
    requires later + rest == if |after| == |before| || ws == [] then ws else ws[1..]
    ensures ws == done + rest
    ensures after + Contents(later) == before + Contents(done)
  {
    if after == before {
      done := later;
    } else {
      done := [ws[0]] + later;
      assert done[1..] == later;
      assert ws == [ws[0]] + (later + rest);
    }
  }

  /**
   * No false end of stream: after any run on a well-formed stream with bytes left to read, the next `recv` asks
   * for at least one byte, and whatever it returns leads to a further run.
   */
  lemma {:induction false} RecvAlwaysHasRoom(i: Input, pieces: seq<seq<byte>>, unread: seq<byte>, ws: seq<Packet>,
                                             p: seq<byte>)
    requires OnStream(i, Concat(pieces) + unread, ws)
    requires [] !in pieces && CanRun(i, pieces)
    ensures MAX_MESSAGE_SIZE - |Run(i, pieces).buf| > 0
    ensures |p| <= MAX_MESSAGE_SIZE - |Run(i, pieces).buf| ==> CanRun(i, pieces + [p])
  {
    var done, rest := StreamIsDeliveredInOrder(i, pieces, unread, ws);
    if CanReceive(Run(i, pieces), p) {
      RunAppended(i, pieces, p);
    }
  }

  lemma {:induction false} RunAppended(i: Input, pieces: seq<seq<byte>>, p: seq<byte>)
    requires CanRun(i, pieces) && CanReceive(Run(i, pieces), p)
    ensures CanRun(i, pieces + [p]) && Run(i, pieces + [p]) == Receive(Run(i, pieces), p)
    decreases |pieces|
  {
    if pieces == [] {
      assert pieces + [p] == [p];
    } else {
      assert (pieces + [p])[1..] == pieces[1..] + [p];
      RunAppended(Receive(i, pieces[0]), pieces[1..], p);
    }
  }

  // ---------- prompt delivery ----------

  /** No whole message is waiting in the buffer. */
  predicate Prompt(i: Input) {
    Decode(i.buf).msgs == []
  }

  /** Delivery is not prompt: of two whole frames received at once, the second waits for a further read. */
  lemma SecondFrameWaits(m: Message, n: Message, pad: Padding, tail: Padding)
    requires m.WellFormed() && n.WellFormed() && |Frame(m, pad)| + |Frame(n, tail)| <= MAX_MESSAGE_SIZE
    ensures Receive(EMPTY, Frame(m, pad) + Frame(n, tail)) == Input(Frame(n, tail), [m], false)
    ensures Decode(Frame(n, tail)) == Decoded([n], [])
  {
    RoundTrip(m, pad, Frame(n, tail));
    FrontIsTaken(Frame(m, pad), Frame(n, tail), m);
    RoundTrip(n, tail, []);
    FrontIsDecoded(Frame(n, tail), n);
  }

  lemma FrontIsTaken(f: seq<byte>, g: seq<byte>, m: Message)
    requires HEADER_SIZE <= |f| && |f| + |g| <= MAX_MESSAGE_SIZE && Parse(f + g) == Parsed(m, |f|)
    ensures Receive(EMPTY, f + g) == Input(g, [m], false)
  {
    assert [] + (f + g) == f + g && (f + g)[|f|..] == g;
  }

  lemma {:induction false} FrontIsDecoded(f: seq<byte>, m: Message)
    requires HEADER_SIZE <= |f| && Parse(f + []) == Parsed(m, |f|)
    ensures Decode(f) == Decoded([m], [])
  {
    assert f + [] == f && f[|f|..] == [];
  }

  /**
   * Exactly when a read is prompt: a whole message is left waiting in the buffer if and only if the read completed more
   * than one.
   */
  lemma {:induction false} PromptRead(i: Input, piece: seq<byte>)
    requires CanReceive(i, piece) && piece != [] && Prompt(i)
    ensures Prompt(Receive(i, piece)) <==> |Decode(i.buf + piece).msgs| <= 1
  {
    var b, j := i.buf + piece, Receive(i, piece);
    if |b| >= HEADER_SIZE && Parse(b).Parsed? {
      assert j.buf == b[Parse(b).used..];
      assert |Decode(b).msgs| == 1 + |Decode(j.buf).msgs|;
    } else {
      assert j.buf == b && Decode(b).msgs == [];
    }
  }

  /** Every frame but the last is as long as a frame can be. */
  predicate FullButLast(ws: seq<Packet>)
    requires AllWellFormed(ws)
  {
    forall k :: 0 <= k < |ws| - 1 ==> |Frame(ws[k].msg, ws[k].pad)| == MAX_MESSAGE_SIZE
  }

  /** A read that completes the only frame, or one that fills the buffer exactly, leaves nothing waiting. */
  lemma PromptOnStream(i: Input, piece: seq<byte>, unread: seq<byte>, ws: seq<Packet>)
    requires OnStream(i, piece + unread, ws) && piece != [] && CanReceive(i, piece)
    requires |ws| <= 1 || |Frame(ws[0].msg, ws[0].pad)| == MAX_MESSAGE_SIZE
    ensures Prompt(Receive(i, piece))
  {
    var b := i.buf + piece;
    assert i.buf + (piece + unread) == b + unread;
    if |b| >= HEADER_SIZE {
      HeadOfStream(b, unread, ws);
      var f := Frame(ws[0].msg, ws[0].pad);
      if |b| >= |f| {
        assert |ws| == 1 ==> Stream(ws[1..]) == [];
        assert b[|f|..] == [];
      }
    }
  }

  /**
   * A stream of full frames, with a last one of any length, is delivered promptly whatever the pieces: once all its
   * bytes are received, every message has been delivered and the buffer is empty.
   */
  lemma {:induction false} FullFramesArePrompt(i: Input, pieces: seq<seq<byte>>, ws: seq<Packet>)
    requires OnStream(i, Concat(pieces), ws) && [] !in pieces && CanRun(i, pieces)
    requires Prompt(i) && FullButLast(ws)
    ensures var j := Run(i, pieces); j.delivered == i.delivered + Contents(ws) && j.buf == [] && !j.failed
    decreases |pieces|
  {
    assert Concat(pieces) + [] == Concat(pieces);
    if pieces == [] {
      assert i.buf + [] == i.buf;
      DecodeUndoesStream(ws);
    } else {
      var j := FirstRead(i, pieces, [], ws);
      var ws' := Left(i, j, ws);
      PromptOnStream(i, pieces[0], Concat(pieces[1..]), ws);
      assert Concat(pieces[1..]) + [] == Concat(pieces[1..]);
      assert OnStream(j, Concat(pieces[1..]), ws') && FullButLast(ws');
      FullFramesArePrompt(j, pieces[1..], ws');
      RestOfContents(i.delivered, j.delivered, ws, ws');
    }
  }

  lemma {:induction false} RestOfContents(before: seq<Message>, after: seq<Message>, ws: seq<Packet>, ws': seq<Packet>)
    requires after == before || (ws != [] && after == before + [ws[0].msg])
    requires ws' == if |after| == |before| || ws == [] then ws else ws[1..]
    ensures after + Contents(ws') == before + Contents(ws)
  {
  }

  // ---------- the end of the stream ----------

  /**
   * A `recv` that returns nothing ends the session: every run that contains one ends there, failed, with what the
   * pieces before it have delivered and left in the buffer, whatever that is.
   */
  lemma {:induction false} EndOfStreamFails(i: Input, pieces: seq<seq<byte>>, k: nat)
    requires CanRun(i, pieces) && k < |pieces| && pieces[k] == []
    ensures k == |pieces| - 1 && CanRun(i, pieces[..k])
    ensures Run(i, pieces) == Run(i, pieces[..k]).(failed := true) && !Run(i, pieces[..k]).failed
    decreases |pieces|
  {
    if k == 0 {
      assert i.buf + [] == i.buf;
    } else {
      EndOfStreamFails(Receive(i, pieces[0]), pieces[1..], k - 1);
      assert pieces[..k][0] == pieces[0] && pieces[..k][1..] == pieces[1..][..k - 1];
    }
  }

  // ---------- a frame that is refused ----------

  /** The head of the bytes is no header, or a frame whose payload is refused or points outside it. */
  predicate BadFrame(b: seq<byte>) {
    |b| >= HEADER_SIZE && (Parse(b).BadHeader? || Parse(b).BadBody? || Parse(b).Overrun?)
  }

  /** How many bytes it takes to notice: a header, or the whole frame. */
  function Needs(bad: seq<byte>): (n: nat)
    requires BadFrame(bad)
  {
    if Parse(bad).BadHeader? || Int32(bad[4..8]) < 0 then HEADER_SIZE else HEADER_SIZE + Int32(bad[4..8])
  }

  /** Behind a stream of packets comes a frame that is refused. */
  predicate EndsBadly(i: Input, unread: seq<byte>, ws: seq<Packet>, bad: seq<byte>) {
    !i.failed && AllWellFormed(ws) && i.buf + unread == Stream(ws) + bad && BadFrame(bad)
  }

  lemma {:induction false} StreamAndMore(ws: seq<Packet>, more: seq<byte>)
    requires AllWellFormed(ws) && ws != []
    ensures Stream(ws) + more == Frame(ws[0].msg, ws[0].pad) + (Stream(ws[1..]) + more)
  {
  }

  lemma HeadOfFrame(b: seq<byte>, unread: seq<byte>, w: Packet, tail: seq<byte>)
    requires w.msg.WellFormed() && b + unread == Frame(w.msg, w.pad) + tail && |b| >= HEADER_SIZE
    ensures var f := Frame(w.msg, w.pad);
            if |b| < |f| then Parse(b) == NeedMore else Parse(b) == Parsed(w.msg, |f|) && b[|f|..] + unread == tail
  {
    var f := Frame(w.msg, w.pad);
    if |b| < |f| {
      CommonPrefix(b, unread, f, tail);
      CutFrameWaits(w.msg, w.pad, |b|);
    } else {
      CommonPrefix(f, tail, b, unread);
      RoundTrip(w.msg, w.pad, b[|f|..]);
    }
  }

  lemma SameVerdict(b: seq<byte>, unread: seq<byte>, bad: seq<byte>)
    requires b + unread == bad && BadFrame(bad) && |b| >= HEADER_SIZE
    ensures Parse(b) == if |b| < Needs(bad) then NeedMore else Parse(bad)
  {
    assert b[..4] == bad[..4] && b[4..8] == bad[4..8];
    if !Parse(b).NeedMore? {
      VerdictIsFinal(b, unread);
    }
  }

  /**
   * What ends a session and what does not: a read fails exactly if all messages in front of the bad frame had been
   * delivered before it, and it completes a header that is none or a frame that points outside itself. A refused
   * payload is no error.
   */
  lemma {:induction false} BadFrameFails(i: Input, piece: seq<byte>, unread: seq<byte>, ws: seq<Packet>, bad: seq<byte>)
    requires EndsBadly(i, piece + unread, ws, bad) && piece != [] && CanReceive(i, piece)
    ensures var j := Receive(i, piece);
            && (j.failed <==> ws == [] && |j.buf| >= Needs(bad) && !Parse(bad).BadBody?)
            && (!j.failed ==> EndsBadly(j, unread, Left(i, j, ws), bad))
            && (j.delivered == i.delivered || (ws != [] && j.delivered == i.delivered + [ws[0].msg]))
  {
    var b := i.buf + piece;
    assert i.buf + (piece + unread) == b + unread;
    if |b| >= HEADER_SIZE {
      if ws == [] {
        assert [] + bad == bad;
        SameVerdict(b, unread, bad);
      } else {
        StreamAndMore(ws, bad);
        HeadOfFrame(b, unread, ws[0], Stream(ws[1..]) + bad);
      }
    }
  }

  /** Over whole runs: the session fails only once every message in front of the bad frame has been delivered. */
  lemma {:induction false} BadFrameFailsAtLast(i: Input, pieces: seq<seq<byte>>, unread: seq<byte>, ws: seq<Packet>,
                                               bad: seq<byte>)
    requires EndsBadly(i, Concat(pieces) + unread, ws, bad) && [] !in pieces && CanRun(i, pieces)
    ensures var j := Run(i, pieces);
            && i.delivered <= j.delivered <= i.delivered + Contents(ws)
            && (j.failed ==> j.delivered == i.delivered + Contents(ws) && |j.buf| >= Needs(bad) && !Parse(bad).BadBody?)
    decreases |pieces|
  {
    if pieces != [] {
      FirstPiece(pieces, unread);
      BadFrameFails(i, pieces[0], Concat(pieces[1..]) + unread, ws, bad);
      var j := Receive(i, pieces[0]);
      if j.failed {
        assert pieces[1..] == [];
      } else {
        BadFrameFailsAtLast(j, pieces[1..], unread, Left(i, j, ws), bad);
        RestOfContents(i.delivered, j.delivered, ws, Left(i, j, ws));
        Between(i.delivered, j.delivered, Run(j, pieces[1..]).delivered);
      }
    }
  }

  lemma Between(a: seq<Message>, b: seq<Message>, c: seq<Message>)
    requires a <= b <= c
    ensures a <= c
  {
  }

  // ---------- a refused payload ----------

  /** The head of the buffer is a whole frame whose payload `fromRawBytes` refuses. */
  predicate Barred(i: Input) {
    !i.failed && HEADER_SIZE <= |i.buf| <= MAX_MESSAGE_SIZE && Parse(i.buf).BadBody?
  }

  lemma {:induction false} BarredDecodes(i: Input, t: seq<byte>)
    requires Barred(i)
    ensures Decode(i.buf + t) == Decoded([], i.buf + t)
    ensures Parse(i.buf + t).BadBody?
  {
    VerdictIsFinal(i.buf, t);
  }

  /** It is no error: a barred session fails at the end of the stream and not before. */
  lemma {:induction false} BarredUntilEnd(i: Input, pieces: seq<seq<byte>>)
    requires Barred(i) && CanRun(i, pieces)
    ensures Run(i, pieces).failed <==> [] in pieces
    decreases |pieces|
  {
    if pieces != [] {
      if pieces[0] == [] {
        EndOfStreamFails(i, pieces, 0);
      } else {
        VerdictIsFinal(i.buf, pieces[0]);
        BarredUntilEnd(Receive(i, pieces[0]), pieces[1..]);
        assert pieces == [pieces[0]] + pieces[1..];
      }
    }
  }

  /**
   * A refused payload is a permanent barrier: nothing is delivered any more and every byte received stays in the
   * buffer, so the session is barred until the end of the stream, at which it fails.
   */
  lemma {:induction false} BarrierIsPermanent(i: Input, pieces: seq<seq<byte>>)
    requires Barred(i) && CanRun(i, pieces)
    ensures var j := Run(i, pieces);
            && j.delivered == i.delivered
            && j.buf == i.buf + Concat(pieces)
            && (j.failed <==> [] in pieces) && (j.failed || Barred(j))
  {
    BarredUntilEnd(i, pieces);
    RunRefinesDecode(i, pieces, []);
    BarredDecodes(i, Concat(pieces) + []);
    RunIsMonotone(i, pieces);
    NothingGained(i, Run(i, pieces), i.buf + (Concat(pieces) + []));
    assert Concat(pieces) + [] == Concat(pieces);
  }

  lemma NothingGained(i: Input, j: Input, b: seq<byte>)
    requires Prepend(j.delivered, Decode(j.buf + [])) == Prepend(i.delivered, Decoded([], b))
    requires i.delivered <= j.delivered
    ensures j.delivered == i.delivered && j.buf == b
  {
    assert j.buf + [] == j.buf;
    assert Prepend(j.delivered, Decode(j.buf)) == Prepend(i.delivered, Decoded([], b));
    assert |j.delivered + Decode(j.buf).msgs| == |i.delivered + []|;
    DecodeOfNothing(j.buf);
  }

  lemma {:induction false} DecodeOfNothing(b: seq<byte>)
    requires Decode(b).msgs == []
    ensures Decode(b).rest == b
  {
  }

  /**
   * The barrier ends in an error: the free space bounds the bytes still received, and once it is used up the only
   * thing `recv` can return is nothing.
   */
  lemma {:induction false} BarrierFails(i: Input, pieces: seq<seq<byte>>, next: seq<byte>)
    requires Barred(i) && CanRun(i, pieces) && CanReceive(Run(i, pieces), next)
    ensures |Concat(pieces)| + |next| <= MAX_MESSAGE_SIZE - |i.buf|
    ensures |Concat(pieces)| == MAX_MESSAGE_SIZE - |i.buf| ==> Receive(Run(i, pieces), next).failed
  {
    BarrierIsPermanent(i, pieces);
  }
}
