/** Chats from client to client: through the author's byte stream, the server and the reader's byte stream. */
module Chats {
  import opened Bytes
  import opened Messages
  import F = Framing
  import opened ServerModel
  import opened Relays
  import H = History

  /** One direction of a connection: the packets written, the pieces received of them, and the bytes still unread. */
  datatype Channel = Channel(packets: seq<F.Packet>, pieces: seq<seq<byte>>, unread: seq<byte>)

  predicate Sound(c: Channel) {
    && [] !in c.pieces && F.CanRun(F.EMPTY, c.pieces)
    && F.OnStream(F.EMPTY, F.Concat(c.pieces) + c.unread, c.packets)
  }

  /** What the receiving session has handed out. */
  function Received(c: Channel): (r: seq<Message>)
    requires Sound(c)
  {
    F.Run(F.EMPTY, c.pieces).delivered
  }

  /** The messages of `q` that the server handles in a run. */
  function Handled(es: seq<Event>, q: Id): (r: seq<Message>) {
    if es == [] then []
    else (if es[0].Deliver? && es[0].id == q then [es[0].msg] else []) + Handled(es[1..], q)
  }

  /** The texts of the chats among some messages. */
  function Texts(ms: seq<Message>): (r: seq<seq<byte>>) {
    if ms == [] then [] else (if ms[0].Chat? then [Text(ms[0])] else []) + Texts(ms[1..])
  }

  /** A chat that got through: who sent it, the name its author had when it was handled, and its text. */
  datatype Relay = Relay(author: Id, name: seq<byte>, text: seq<byte>)

  /** What the server sends for them. */
  function CopiesOf(chats: seq<Relay>): (r: seq<Message>) {
    if chats == [] then [] else [Chat(Field(chats[0].name, MAX_NICKNAME_SIZE), chats[0].text)] + CopiesOf(chats[1..])
  }

  /** The texts that came from `q`. */
  function By(chats: seq<Relay>, q: Id): (r: seq<seq<byte>>) {
    if chats == [] then [] else (if chats[0].author == q then [chats[0].text] else []) + By(chats[1..], q)
  }

  /** The chat, if any, that a step relays to `p`. */
  function Tag(s: Server, e: Event, p: Id): (r: seq<Relay>)
    requires Enabled(s, e) && p in s.sessions
  {
    if e.Deliver? && e.id != p && e.msg.Chat? && CanSend(s.sessions[p].queue)
    then [Relay(e.id, s.sessions[e.id].nickName, Text(e.msg))] else []
  }

  /** The chats of others that the server handles while `p` has room, in the order in which it handles them. */
  ghost function RelayedChats(s: Server, es: seq<Event>, p: Id): (r: seq<Relay>)
    requires Legal(s, es) && Present(s, es, p)
    decreases |es|
  {
    if es == [] then [] else
      StaysPresent(s, es, p);
      Tag(s, es[0], p) + RelayedChats(Exec(s, es[0]), es[1..], p)
  }

  // ---------- lists ----------

  lemma {:induction false} TextsOfConcat(a: seq<Message>, b: seq<Message>)
    ensures Texts(a + b) == Texts(a) + Texts(b)
  {
    if a == [] {
      assert a + b == b;
    } else {
      assert (a + b)[1..] == a[1..] + b;
      TextsOfConcat(a[1..], b);
      Associative(if a[0].Chat? then [Text(a[0])] else [], Texts(a[1..]), Texts(b));
    }
  }

  lemma TextsOfOne(m: Message)
    ensures Texts([m]) == (if m.Chat? then [Text(m)] else [])
  {
    assert [m][1..] == [];
  }

  lemma {:induction false} CopiesConcat(a: seq<Relay>, b: seq<Relay>)
    ensures CopiesOf(a + b) == CopiesOf(a) + CopiesOf(b)
  {
    if a == [] {
      assert a + b == b;
    } else {
      assert (a + b)[1..] == a[1..] + b;
      CopiesConcat(a[1..], b);
      Associative([Chat(Field(a[0].name, MAX_NICKNAME_SIZE), a[0].text)], CopiesOf(a[1..]), CopiesOf(b));
    }
  }

  lemma {:induction false} CopiesSize(a: seq<Relay>)
    ensures |CopiesOf(a)| == |a|
  {
    if a != [] {
      CopiesSize(a[1..]);
    }
  }

  lemma {:induction false} ByConcat(a: seq<Relay>, b: seq<Relay>, q: Id)
    ensures By(a + b, q) == By(a, q) + By(b, q)
  {
    if a == [] {
      assert a + b == b;
    } else {
      assert (a + b)[1..] == a[1..] + b;
      ByConcat(a[1..], b, q);
      Associative(if a[0].author == q then [a[0].text] else [], By(a[1..], q), By(b, q));
    }
  }

  lemma {:induction false} ContentsOfConcat(a: seq<F.Packet>, b: seq<F.Packet>)
    ensures F.Contents(a + b) == F.Contents(a) + F.Contents(b)
  {
    if a == [] {
      assert a + b == b;
    } else {
      assert (a + b)[1..] == a[1..] + b;
      ContentsOfConcat(a[1..], b);
    }
  }

  lemma {:induction false} SubsequenceOfMore(a: seq<seq<byte>>, b: seq<seq<byte>>, c: seq<seq<byte>>)
    requires Subsequence(a, b)
    ensures Subsequence(a, b + c)
    decreases |b|
  {
    if a != [] {
      assert (b + c)[0] == b[0] && (b + c)[1..] == b[1..] + c;
      if a[0] == b[0] && Subsequence(a[1..], b[1..]) {
        SubsequenceOfMore(a[1..], b[1..], c);
      } else {
        SubsequenceOfMore(a, b[1..], c);
      }
    }
  }

  lemma {:induction false} SubsequenceOfLess(a: seq<seq<byte>>, rest: seq<seq<byte>>, b: seq<seq<byte>>)
    requires Subsequence(a + rest, b)
    ensures Subsequence(a, b)
    decreases |b|
  {
    if a != [] {
      assert (a + rest)[0] == a[0] && (a + rest)[1..] == a[1..] + rest;
      if a[0] == b[0] && Subsequence(a[1..] + rest, b[1..]) {
        SubsequenceOfLess(a[1..], rest, b[1..]);
      } else {
        SubsequenceOfLess(a, rest, b[1..]);
      }
    }
  }

  /** One more text in front of `b`, which may or may not be in front of `a`. */
  lemma {:induction false} SubsequenceSteps(x: seq<seq<byte>>, y: seq<seq<byte>>, a: seq<seq<byte>>, b: seq<seq<byte>>)
    requires Subsequence(a, b) && |a| <= |b| && (x == y || x == []) && |y| <= 1
    ensures Subsequence(x + a, y + b) && |x + a| <= |y + b|
    ensures x + a == y + b <==> x == y && a == b
  {
    if y == [] {
      assert x + a == a && y + b == b;
    } else if x == [] {
      assert x + a == a && (y + b)[1..] == b;
    } else {
      assert (x + a)[1..] == a && (y + b)[1..] == b;
    }
  }

  // ---------- the two byte streams ----------

  /** For every cutting of the stream, what was received are the first messages written, in order. */
  lemma {:induction false} ReceivedIsPrefix(c: Channel)
    requires Sound(c)
    ensures Received(c) <= F.Contents(c.packets)
  {
    var done, rest := F.StreamIsDeliveredInOrder(F.EMPTY, c.pieces, c.unread, c.packets);
    ContentsOfConcat(done, rest);
    assert [] + F.Contents(done) == F.Contents(done);
  }

  lemma PrefixOfTexts(a: seq<Message>, b: seq<Message>) returns (rest: seq<seq<byte>>)
    requires a <= b
    ensures Texts(b) == Texts(a) + rest
  {
    assert b == a + b[|a|..];
    TextsOfConcat(a, b[|a|..]);
    rest := Texts(b[|a|..]);
  }

  // ---------- the server ----------

  lemma ChatIsQueued(s: Server, e: Event, p: Id)
    requires Enabled(s, e) && p in s.sessions && e != Leave(p)
    ensures Only(CHAT, Gain(s, e, p)) == CopiesOf(Tag(s, e, p))
  {
    if e.Deliver? {
      ChatsInGain(s, e, e.id, p);
      if Tag(s, e, p) != [] {
        assert Tag(s, e, p)[1..] == [];
      }
    } else {
      GainIs(s, e, p);
    }
  }

  /**
   * Over every run, the chats that enter the queue of `p` are exactly these, in this order, each under the name its
   * author had when it was handled.
   */
  lemma {:induction false} RelaysAreQueued(s: Server, es: seq<Event>, p: Id)
    requires Legal(s, es) && Present(s, es, p)
    ensures Only(CHAT, Accepted(s, es, p)) == CopiesOf(RelayedChats(s, es, p))
    decreases |es|
  {
    if es != [] {
      StaysPresent(s, es, p);
      var t := Exec(s, es[0]);
      RelaysAreQueued(t, es[1..], p);
      ChatIsQueued(s, es[0], p);
      OnlyOfConcat(CHAT, Gain(s, es[0], p), Accepted(t, es[1..], p));
      CopiesConcat(Tag(s, es[0], p), RelayedChats(t, es[1..], p));
    }
  }

  /**
   * Of each other author they are a subsequence of the texts the server has handled, and all of them exactly if none
   * was refused; of the reader itself there is none.
   */
  lemma {:induction false} RelaysInOrder(s: Server, es: seq<Event>, p: Id, q: Id)
    requires Legal(s, es) && Present(s, es, p)
    ensures var through, handled := By(RelayedChats(s, es, p), q), Texts(Handled(es, q));
            && Subsequence(through, handled) && |through| <= |handled|
            && (q != p ==> (through == handled <==> NeverRefused(s, es, q, p)))
    ensures By(RelayedChats(s, es, p), p) == []
    decreases |es|
  {
    if es != [] {
      StaysPresent(s, es, p);
      var e, later := es[0], RelayedChats(Exec(s, es[0]), es[1..], p);
      RelaysInOrder(Exec(s, e), es[1..], p, q);
      var mine := if e.Deliver? && e.id == q then [e.msg] else [];
      ByConcat(Tag(s, e, p), later, q);
      ByConcat(Tag(s, e, p), later, p);
      TextsOfConcat(mine, Handled(es[1..], q));
      OneTag(s, e, p, q);
      SubsequenceSteps(By(Tag(s, e, p), q), Texts(mine), By(later, q), Texts(Handled(es[1..], q)));
    }
  }

  /** The same, computed from the events before and during the run alone. */
  function Chatted(past: seq<Event>, es: seq<Event>, p: Id): (r: seq<Relay>)
    decreases |es|
  {
    if es == [] then []
    else
      var e := es[0];
      (if e.Deliver? && e.id != p && e.msg.Chat? && |H.QueueOf(past, p)| <= 40
       then [Relay(e.id, H.NameOf(past, e.id), Text(e.msg))] else [])
      + Chatted(past + [e], es[1..], p)
  }

  /**
   * So each copy carries the last free name its author has asked for since it joined, or its default name, and goes to
   * everybody else whose queue holds at most 40 messages.
   */
  lemma {:induction false} ChatsCarryNames(past: seq<Event>, es: seq<Event>, p: Id)
    requires Legal(INITIAL_SERVER, past) && Legal(Run(INITIAL_SERVER, past), es)
    requires Present(Run(INITIAL_SERVER, past), es, p)
    ensures RelayedChats(Run(INITIAL_SERVER, past), es, p) == Chatted(past, es, p)
    ensures Only(CHAT, Accepted(Run(INITIAL_SERVER, past), es, p)) == CopiesOf(Chatted(past, es, p))
    decreases |es|
  {
    var s := Run(INITIAL_SERVER, past);
    RelaysAreQueued(s, es, p);
    if es != [] {
      StaysPresent(s, es, p);
      RunAppended(INITIAL_SERVER, past, es[0]);
      ChatsCarryNames(past + [es[0]], es[1..], p);
      H.ServerIsDescribed(past);
      H.QueueIsHistory(past, p);
      if es[0].Deliver? {
        assert H.Describes(s.sessions[es[0].id], past, es[0].id);
      }
    }
  }

  lemma {:induction false} OneTag(s: Server, e: Event, p: Id, q: Id)
    requires Enabled(s, e) && p in s.sessions
    ensures var mine, tag := if e.Deliver? && e.id == q then [e.msg] else [], By(Tag(s, e, p), q);
            && |Texts(mine)| <= 1 && (tag == Texts(mine) || tag == [])
            && (q != p ==> (tag == Texts(mine) <==> (SentChat(e, q) ==> CanSend(s.sessions[p].queue))))
    ensures By(Tag(s, e, p), p) == []
  {
    if e.Deliver? {
      TextsOfOne(e.msg);
      if Tag(s, e, p) != [] {
        assert Tag(s, e, p)[1..] == [];
      }
    }
  }

  // ---------- from client to client ----------

  /** The reader is sent what the server writes to its session. */
  ghost predicate Reads(s: Server, es: seq<Event>, p: Id, down: Channel)
    requires Legal(s, es) && Present(s, es, p)
  {
    s.sessions[p].queue == [] && Sound(down) && F.Contents(down.packets) == Written(s, es, p)
  }

  /** The server handles, in order, messages that it receives from the author. */
  predicate Writes(es: seq<Event>, q: Id, up: Channel) {
    Sound(up) && Handled(es, q) <= Received(up)
  }

  /**
   * Chats from client to client: whatever pieces the streams are received in and whatever else the server handles in
   * between, the chats a client reads are the first of those relayed to it, in order, under the names their authors
   * had; and those of each author are, in order, some of the texts that this author has written.
   */
  lemma {:induction false} ChatsReachReaders(s: Server, es: seq<Event>, p: Id, ups: map<Id, Channel>, down: Channel)
    returns (chats: seq<Relay>)
    requires Legal(s, es) && Present(s, es, p) && Reads(s, es, p, down)
    requires forall q :: q in ups ==> Writes(es, q, ups[q])
    ensures chats <= RelayedChats(s, es, p) && Only(CHAT, Received(down)) == CopiesOf(chats)
    ensures forall q :: q in ups ==> Subsequence(By(chats, q), Texts(F.Contents(ups[q].packets)))
    ensures By(chats, p) == []
  {
    var all := RelayedChats(s, es, p);
    chats := ReadByClient(s, es, p, down);
    forall q | q in ups ensures Subsequence(By(chats, q), Texts(F.Contents(ups[q].packets))) {
      WrittenByClient(s, es, p, q, ups[q], chats);
    }
    ByConcat(chats, all[|chats|..], p);
    RelaysInOrder(s, es, p, p);
  }

  lemma {:induction false} ReadByClient(s: Server, es: seq<Event>, p: Id, down: Channel) returns (chats: seq<Relay>)
    requires Legal(s, es) && Present(s, es, p) && Reads(s, es, p, down)
    ensures var all := RelayedChats(s, es, p); chats <= all && all == chats + all[|chats|..]
    ensures Only(CHAT, Received(down)) == CopiesOf(chats)
  {
    var read, accepted := Received(down), Accepted(s, es, p);
    ReceivedIsPrefix(down);
    QueueConservation(s, es, p);
    assert [] + accepted == accepted;
    RelaysAreQueued(s, es, p);
    assert accepted == read + accepted[|read|..];
    OnlyOfConcat(CHAT, read, accepted[|read|..]);
    chats := FirstCopies(RelayedChats(s, es, p), Only(CHAT, read), Only(CHAT, accepted[|read|..]));
  }

  lemma FirstCopies(all: seq<Relay>, a: seq<Message>, rest: seq<Message>) returns (chats: seq<Relay>)
    requires CopiesOf(all) == a + rest
    ensures chats <= all && all == chats + all[|chats|..] && CopiesOf(chats) == a
  {
    CopiesSize(all);
    chats := all[..|a|];
    CopiesSize(chats);
    CopiesConcat(chats, all[|a|..]);
    assert chats + all[|a|..] == all;
    assert CopiesOf(chats) == CopiesOf(all)[..|a|];
  }

  lemma {:induction false} WrittenByClient(s: Server, es: seq<Event>, p: Id, q: Id, up: Channel, chats: seq<Relay>)
    requires Legal(s, es) && Present(s, es, p) && Writes(es, q, up)
    requires var all := RelayedChats(s, es, p); chats <= all && all == chats + all[|chats|..]
    ensures Subsequence(By(chats, q), Texts(F.Contents(up.packets)))
  {
    var later := RelayedChats(s, es, p)[|chats|..];
    RelaysInOrder(s, es, p, q);
    ByConcat(chats, later, q);
    ReceivedIsPrefix(up);
    var rest := PrefixOfTexts(Handled(es, q), F.Contents(up.packets));
    SubsequenceOfLess(By(chats, q), By(later, q), Texts(Handled(es, q)));
    SubsequenceOfMore(By(chats, q), Texts(Handled(es, q)), rest);
  }

  /** Everything written on the stream has been received. */
  predicate ReadOut(c: Channel)
    requires Sound(c)
  {
    Received(c) == F.Contents(c.packets)
  }

  /**
   * Where everything is handled, written and read, a client has read all that was relayed to it, and of another author
   * everything this author has written if and only if the queue never refused one of its chats.
   */
  lemma {:induction false} AllChatsArrive(s: Server, es: seq<Event>, p: Id, q: Id, up: Channel, down: Channel)
    requires Legal(s, es) && Present(s, es, p) && Reads(s, es, p, down) && Writes(es, q, up) && q != p
    requires ReadOut(down) && FinalQueue(s, es, p) == [] && Handled(es, q) == F.Contents(up.packets)
    ensures var chats := RelayedChats(s, es, p);
            && Only(CHAT, Received(down)) == CopiesOf(chats)
            && (By(chats, q) == Texts(F.Contents(up.packets)) <==> NeverRefused(s, es, q, p))
  {
    QueueConservation(s, es, p);
    assert [] + Accepted(s, es, p) == Accepted(s, es, p) && Written(s, es, p) + [] == Written(s, es, p);
    RelaysAreQueued(s, es, p);
    RelaysInOrder(s, es, p, q);
  }
}
