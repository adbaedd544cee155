/** What reaches a session's outbound queue over whole runs of the server, whoever's messages are handled in between. */
module Relays {
  import opened Bytes
  import opened Messages
  import opened ServerModel

  /** The session stays connected for the whole run. */
  predicate Present(s: Server, es: seq<Event>, p: Id) {
    p in s.sessions && Leave(p) !in es
  }

  // ---------- one step seen from one queue ----------

  function IfRoom(s: Server, p: Id, m: Message): (r: seq<Message>)
    requires p in s.sessions
  {
    if CanSend(s.sessions[p].queue) then [m] else []
  }

  lemma TwoAreNotAlone(s: Server, c: Id, p: Id)
    requires c in s.sessions && p in s.sessions && c != p
    ensures !Alone(s)
  {
    assert p in s.sessions.Keys - {c};
    assert |s.sessions.Keys - {c}| == |s.sessions| - 1;
  }

  /** What a message `m` of session `c` that is no status leaves in the queue of another session `p`. */
  ghost function Relayed(s: Server, c: Id, m: Message, p: Id): (r: seq<Message>)
    requires c in s.sessions && p in s.sessions
  {
    match m
    case Chat(_, _) => IfRoom(s, p, ChatCopy(s.sessions[c], m))
    case FileData(_, _, _) => if s.sessions[p].fileTransferStatus == ACCEPT_FILE_TRANSFER then IfRoom(s, p, m) else []
    case FileRequest(_, _) => if s.active then [] else IfRoom(s, p, RequestCopy(s.sessions[c], m))
    case _ => []
  }

  lemma OtherQueueOfChat(s: Server, c: Id, m: Message, nameFree: bool, p: Id)
    requires c in s.sessions && p in s.sessions && c != p && m.Chat?
    ensures Handle(s, c, m, nameFree).sessions.Keys == s.sessions.Keys
    ensures Handle(s, c, m, nameFree).sessions[p] == s.sessions[p].(queue := s.sessions[p].queue + Relayed(s, c, m, p))
  {
    TwoAreNotAlone(Update(s, c, Checked(s.sessions[c], CHAT)), c, p);
    assert s.sessions[p].queue + [] == s.sessions[p].queue;
  }

  lemma OtherQueueOfData(s: Server, c: Id, m: Message, nameFree: bool, p: Id)
    requires c in s.sessions && p in s.sessions && c != p && m.FileData?
    ensures Handle(s, c, m, nameFree).sessions.Keys == s.sessions.Keys
    ensures Handle(s, c, m, nameFree).sessions[p] == s.sessions[p].(queue := s.sessions[p].queue + Relayed(s, c, m, p))
  {
    TwoAreNotAlone(Update(s, c, Checked(s.sessions[c], FILE_DATA)), c, p);
    assert s.sessions[p].queue + [] == s.sessions[p].queue;
  }

  lemma OtherQueueOfRequest(s: Server, c: Id, m: Message, nameFree: bool, p: Id)
    requires c in s.sessions && p in s.sessions && c != p && m.FileRequest?
    ensures Handle(s, c, m, nameFree).sessions.Keys == s.sessions.Keys
    ensures Handle(s, c, m, nameFree).sessions[p] == s.sessions[p].(queue := s.sessions[p].queue + Relayed(s, c, m, p))
  {
    TwoAreNotAlone(Update(s, c, Checked(s.sessions[c], FILE_REQUEST)), c, p);
    assert s.sessions[p].queue + [] == s.sessions[p].queue;
  }

  lemma OtherQueue(s: Server, c: Id, m: Message, nameFree: bool, p: Id)
    requires c in s.sessions && p in s.sessions && c != p && !m.Status?
    ensures Handle(s, c, m, nameFree).sessions.Keys == s.sessions.Keys
    ensures Handle(s, c, m, nameFree).sessions[p] == s.sessions[p].(queue := s.sessions[p].queue + Relayed(s, c, m, p))
  {
    assert s.sessions[p].queue + [] == s.sessions[p].queue;
    match m {
      case Chat(_, _) => OtherQueueOfChat(s, c, m, nameFree, p);
      case FileData(_, _, _) => OtherQueueOfData(s, c, m, nameFree, p);
      case FileRequest(_, _) => OtherQueueOfRequest(s, c, m, nameFree, p);
      case Hello =>
      case Nickname(_) =>
      case Bye =>
    }
  }

  lemma OtherQueueOfStatus(s: Server, c: Id, m: Message, nameFree: bool, p: Id)
    requires c in s.sessions && p in s.sessions && c != p && m.Status?
    ensures var t := Handle(s, c, m, nameFree);
            && t.sessions.Keys == s.sessions.Keys
            && (t.sessions[p] == s.sessions[p]
                || (s.active && s.sessions[p].isFileTransferSender
                    && exists code: int32 :: t.sessions[p] == Send(s.sessions[p], Status(code))))
  {
    var s1 := Update(s, c, Checked(s.sessions[c], m.Kind()));
    var s2 := Update(s1, c, s1.sessions[c].(fileTransferStatus := m.code));
    if s1.active && Target(s2, c) == Some(p) {
      assert Decide(s2, c).sessions[p] == Send(s.sessions[p], Status(StartCode(s2, c))) || Decide(s2, c) == s2;
    }
  }

  predicate Reply(m: Message) {
    m.WellFormed() && (m.Nickname? || m.Status? || m.Bye?)
  }

  predicate Extends(q: seq<Message>, r: seq<Message>) {
    q <= r && (|q| <= MAX_NETWORK_MESSAGE_QUEUE + 1 ==> |r| <= MAX_NETWORK_MESSAGE_QUEUE + 1)
  }

  /** `r` is `q` with some replies appended. */
  predicate Replied(q: seq<Message>, r: seq<Message>) {
    Extends(q, r) && forall x :: x in r[|q|..] ==> Reply(x)
  }

  lemma RepliedTwice(q: seq<Message>, r: seq<Message>, t: seq<Message>)
    requires Replied(q, r) && Replied(r, t)
    ensures Replied(q, t)
  {
    assert t[|q|..] == r[|q|..] + t[|r|..];
  }

  lemma RepliedOnce(q: seq<Message>, m: Message)
    requires Reply(m)
    ensures Replied(q, Enqueue(q, m)) && Replied(q, q)
  {
  }

  lemma OwnQueueOfStatus(s: Server, c: Id, m: Message, nameFree: bool)
    requires c in s.sessions && m.Status?
    ensures OwnReplies(s, c, m, nameFree)
  {
    var s1 := Update(s, c, Checked(s.sessions[c], STATUS));
    var s2 := Update(s1, c, s1.sessions[c].(fileTransferStatus := m.code));
    assert Decide(s2, c).sessions[c] == s2.sessions[c];
    RepliedOnce(s.sessions[c].queue, Status(FILE_TRANSFER_CANCELED));
  }

  lemma OwnQueueOfNames(s: Server, c: Id, m: Message, nameFree: bool)
    requires c in s.sessions && (m.Hello? || m.Nickname?)
    ensures OwnReplies(s, c, m, nameFree)
  {
    var q, me := s.sessions[c].queue, Checked(s.sessions[c], m.Kind());
    RepliedOnce(q, Bye);
    Answered(q, me.queue, NewNickname(me.nickName));
    if m.Nickname? {
      Answered(q, me.queue, NewNickname(Truncated(CString(m.nickname))));
      Answered(q, me.queue, Status(NICKNAME_ALREADY_REGISTERED));
    }
  }

  lemma OwnQueueOfChat(s: Server, c: Id, m: Message, nameFree: bool)
    requires c in s.sessions && m.Chat?
    ensures OwnReplies(s, c, m, nameFree)
  {
    RepliedOnce(s.sessions[c].queue, Status(CHATTING_ALONE));
  }

  lemma OwnQueueOfData(s: Server, c: Id, m: Message, nameFree: bool)
    requires c in s.sessions && m.FileData?
    ensures OwnReplies(s, c, m, nameFree)
  {
    var s1 := Update(s, c, Checked(s.sessions[c], FILE_DATA));
    assert RelayData(s1, c, m).sessions[c].queue == s.sessions[c].queue;
    assert RelayData(s1, c, m).sessions.Keys == s.sessions.Keys;
    RepliedOnce(s.sessions[c].queue, Bye);
  }

  lemma OwnQueueOfBye(s: Server, c: Id, nameFree: bool)
    requires c in s.sessions
    ensures OwnReplies(s, c, Bye, nameFree)
  {
    RepliedOnce(s.sessions[c].queue, Bye);
  }

  lemma OwnQueueOfRequest(s: Server, c: Id, m: Message, nameFree: bool)
    requires c in s.sessions && m.FileRequest?
    ensures OwnReplies(s, c, m, nameFree)
  {
    var s1 := Update(s, c, Checked(s.sessions[c], FILE_REQUEST));
    assert s1.sessions.Keys == s.sessions.Keys && s1.sessions[c].queue == s.sessions[c].queue;
    if !s1.active && !Alone(s1) {
      assert RelayRequest(s1, c, m).sessions.Keys == s.sessions.Keys;
      assert RelayRequest(s1, c, m).sessions[c].queue == s.sessions[c].queue;
    }
    RepliedOnce(s.sessions[c].queue, Status(CHATTING_ALONE));
    RepliedOnce(s.sessions[c].queue, Status(FILE_TRANSFER_CANCELED));
  }

  /** A session's own messages are answered with names, statuses and a goodbye only. */
  ghost predicate OwnReplies(s: Server, c: Id, m: Message, nameFree: bool)
    requires c in s.sessions
  {
    var t := Handle(s, c, m, nameFree);
    t.sessions.Keys == s.sessions.Keys && Replied(s.sessions[c].queue, t.sessions[c].queue)
  }

  lemma OwnQueue(s: Server, c: Id, m: Message, nameFree: bool)
    requires c in s.sessions
    ensures OwnReplies(s, c, m, nameFree)
  {
    match m {
      case Status(_) => OwnQueueOfStatus(s, c, m, nameFree);
      case Hello => OwnQueueOfNames(s, c, m, nameFree);
      case Nickname(_) => OwnQueueOfNames(s, c, m, nameFree);
      case FileRequest(_, _) => OwnQueueOfRequest(s, c, m, nameFree);
      case Chat(_, _) => OwnQueueOfChat(s, c, m, nameFree);
      case FileData(_, _, _) => OwnQueueOfData(s, c, m, nameFree);
      case Bye => OwnQueueOfBye(s, c, nameFree);
    }
  }

  lemma Answered(q: seq<Message>, r: seq<Message>, m: Message)
    requires Replied(q, r) && Reply(m)
    ensures Replied(q, Enqueue(r, m))
  {
    RepliedOnce(r, m);
    RepliedTwice(q, r, Enqueue(r, m));
  }

  /** The queue of `p` without the message the step writes to the socket. */
  function Unwritten(s: Server, e: Event, p: Id): (r: seq<Message>)
    requires Enabled(s, e) && p in s.sessions
  {
    if e == Write(p) then s.sessions[p].queue[1..] else s.sessions[p].queue
  }

  lemma QueueGrows(s: Server, e: Event, p: Id)
    requires Enabled(s, e) && p in s.sessions && e != Leave(p)
    ensures p in Exec(s, e).sessions
    ensures Extends(Unwritten(s, e, p), Exec(s, e).sessions[p].queue)
  {
    if e.Deliver? {
      if e.id == p {
        OwnQueue(s, p, e.msg, e.nameFree);
      } else if e.msg.Status? {
        OtherQueueOfStatus(s, e.id, e.msg, e.nameFree, p);
      } else {
        OtherQueue(s, e.id, e.msg, e.nameFree, p);
      }
    }
  }

  lemma {:induction false} StaysPresent(s: Server, es: seq<Event>, p: Id)
    requires Legal(s, es) && Present(s, es, p) && es != []
    ensures Present(Exec(s, es[0]), es[1..], p)
  {
    assert es[0] != Leave(p);
    QueueGrows(s, es[0], p);
  }

  /** The messages the step puts into the queue of `p`. */
  ghost function Gain(s: Server, e: Event, p: Id): (r: seq<Message>)
    requires Enabled(s, e) && p in s.sessions && e != Leave(p)
  {
    QueueGrows(s, e, p);
    Exec(s, e).sessions[p].queue[|Unwritten(s, e, p)|..]
  }

  /** A step of anybody else that is no status adds what `Relayed` says; the session's own steps add replies. */
  lemma GainIs(s: Server, e: Event, p: Id)
    requires Enabled(s, e) && p in s.sessions && e != Leave(p)
    ensures e.Deliver? && e.id != p && !e.msg.Status? ==> Gain(s, e, p) == Relayed(s, e.id, e.msg, p)
    ensures !(e.Deliver? && e.id != p && !e.msg.Status?) ==> forall x :: x in Gain(s, e, p) ==> Reply(x)
    ensures !e.Deliver? ==> Gain(s, e, p) == []
  {
    if e.Deliver? {
      if e.id == p {
        OwnQueue(s, p, e.msg, e.nameFree);
      } else if e.msg.Status? {
        OtherQueueOfStatus(s, e.id, e.msg, e.nameFree, p);
      } else {
        OtherQueue(s, e.id, e.msg, e.nameFree, p);
      }
    }
  }

  // ---------- histories of a run ----------

  /** The messages that entered the queue of `p`, in order. */
  ghost function Accepted(s: Server, es: seq<Event>, p: Id): (r: seq<Message>)
    requires Legal(s, es) && Present(s, es, p)
    decreases |es|
  {
    if es == [] then [] else
      StaysPresent(s, es, p);
      Gain(s, es[0], p) + Accepted(Exec(s, es[0]), es[1..], p)
  }

  /** Those that entered it while a message of `q` was handled. */
  ghost function AcceptedFrom(s: Server, es: seq<Event>, q: Id, p: Id): (r: seq<Message>)
    requires Legal(s, es) && Present(s, es, p)
    decreases |es|
  {
    if es == [] then [] else
      StaysPresent(s, es, p);
      (if es[0].Deliver? && es[0].id == q then Gain(s, es[0], p) else []) + AcceptedFrom(Exec(s, es[0]), es[1..], q, p)
  }

  /** The message the step writes to the socket of `p`, if it does. */
  function Front(s: Server, e: Event, p: Id): (r: seq<Message>)
    requires Enabled(s, e) && p in s.sessions
  {
    if e == Write(p) then [s.sessions[p].queue[0]] else []
  }

  /** The messages that left the queue of `p` for the socket. */
  ghost function Written(s: Server, es: seq<Event>, p: Id): (r: seq<Message>)
    requires Legal(s, es) && Present(s, es, p)
    decreases |es|
  {
    if es == [] then [] else
      StaysPresent(s, es, p);
      Front(s, es[0], p) + Written(Exec(s, es[0]), es[1..], p)
  }

  lemma {:induction false} QueueIsBounded(s: Server, es: seq<Event>, p: Id)
    requires Legal(s, es) && Present(s, es, p) && |s.sessions[p].queue| <= MAX_NETWORK_MESSAGE_QUEUE + 1
    ensures p in Run(s, es).sessions && |Run(s, es).sessions[p].queue| <= MAX_NETWORK_MESSAGE_QUEUE + 1
    decreases |es|
  {
    if es != [] {
      StaysPresent(s, es, p);
      QueueGrows(s, es[0], p);
      QueueIsBounded(Exec(s, es[0]), es[1..], p);
    }
  }

  lemma {:induction false} PresentAtTheEnd(s: Server, es: seq<Event>, p: Id)
    requires Legal(s, es) && Present(s, es, p)
    ensures p in Run(s, es).sessions
    decreases |es|
  {
    if es != [] {
      StaysPresent(s, es, p);
      PresentAtTheEnd(Exec(s, es[0]), es[1..], p);
    }
  }

  ghost function FinalQueue(s: Server, es: seq<Event>, p: Id): (r: seq<Message>)
    requires Legal(s, es) && Present(s, es, p)
  {
    PresentAtTheEnd(s, es, p);
    Run(s, es).sessions[p].queue
  }

  /** The queue is first in, first out: nothing accepted is lost, repeated or reordered. */
  lemma {:induction false} QueueConservation(s: Server, es: seq<Event>, p: Id)
    requires Legal(s, es) && Present(s, es, p)
    ensures s.sessions[p].queue + Accepted(s, es, p) == Written(s, es, p) + FinalQueue(s, es, p)
    decreases |es|
  {
    if es == [] {
      assert s.sessions[p].queue + [] == [] + s.sessions[p].queue;
    } else {
      StaysPresent(s, es, p);
      QueueConservation(Exec(s, es[0]), es[1..], p);
      FirstStepConserves(s, es, p);
    }
  }

  lemma {:induction false} FirstStepConserves(s: Server, es: seq<Event>, p: Id)
    requires Legal(s, es) && Present(s, es, p) && es != [] && Present(Exec(s, es[0]), es[1..], p)
    requires var t := Exec(s, es[0]);
             t.sessions[p].queue + Accepted(t, es[1..], p) == Written(t, es[1..], p) + FinalQueue(t, es[1..], p)
    ensures s.sessions[p].queue + Accepted(s, es, p) == Written(s, es, p) + FinalQueue(s, es, p)
  {
    var t := Exec(s, es[0]);
    QueueGrows(s, es[0], p);
    FrontIsWritten(s, es[0], p);
    Conserved(s.sessions[p].queue, Unwritten(s, es[0], p), t.sessions[p].queue, Front(s, es[0], p),
              Accepted(t, es[1..], p), Written(t, es[1..], p), FinalQueue(t, es[1..], p));
  }

  lemma FrontIsWritten(s: Server, e: Event, p: Id)
    requires Enabled(s, e) && p in s.sessions
    ensures s.sessions[p].queue == Front(s, e, p) + Unwritten(s, e, p)
  {
  }

  lemma Conserved(q: seq<Message>, u: seq<Message>, r: seq<Message>, w: seq<Message>,
                  accepted: seq<Message>, written: seq<Message>, last: seq<Message>)
    requires q == w + u && u <= r && r + accepted == written + last
    ensures q + (r[|u|..] + accepted) == (w + written) + last
  {
    assert u + r[|u|..] == r;
    calc {
      q + (r[|u|..] + accepted);
      w + ((u + r[|u|..]) + accepted);
      w + (written + last);
      (w + written) + last;
    }
  }

  // ---------- chats ----------

  /** The messages of one kind. */
  function Only(k: Kind, ms: seq<Message>): (r: seq<Message>) {
    if ms == [] then [] else First(k, ms[0]) + Only(k, ms[1..])
  }

  function First(k: Kind, m: Message): (r: seq<Message>) {
    if m.Kind() == k then [m] else []
  }

  lemma {:induction false} OnlyOfConcat(k: Kind, a: seq<Message>, b: seq<Message>)
    ensures Only(k, a + b) == Only(k, a) + Only(k, b)
  {
    if a == [] {
      assert a + b == b;
    } else {
      assert (a + b)[1..] == a[1..] + b;
      OnlyOfConcat(k, a[1..], b);
      Associative(First(k, a[0]), Only(k, a[1..]), Only(k, b));
    }
  }

  lemma Associative<T>(a: seq<T>, b: seq<T>, c: seq<T>)
    ensures a + (b + c) == (a + b) + c
  {
  }

  lemma {:induction false} RepliesAreNot(k: Kind, ms: seq<Message>)
    requires k in {CHAT, FILE_REQUEST, FILE_DATA} && forall x :: x in ms ==> Reply(x)
    ensures Only(k, ms) == []
  {
    if ms != [] {
      assert forall x :: x in ms[1..] ==> x in ms;
      assert Reply(ms[0]);
      RepliesAreNot(k, ms[1..]);
    }
  }

  predicate SentChat(e: Event, q: Id) {
    e.Deliver? && e.id == q && e.msg.Chat?
  }

  /** The text `setMessage` keeps of a chat. */
  function Text(m: Message): (r: seq<byte>)
    requires m.Chat?
  {
    Take(CString(m.text), MAX_CHATMESSAGE_SIZE)
  }

  /** The texts of the chats the server received from `q`. */
  function TextsReceived(es: seq<Event>, q: Id): (r: seq<seq<byte>>) {
    if es == [] then [] else (if SentChat(es[0], q) then [Text(es[0].msg)] else []) + TextsReceived(es[1..], q)
  }

  /** For each chat of `q` that found room in the queue of `p`: the name `q` had at that moment and the text. */
  ghost function Admitted(s: Server, es: seq<Event>, q: Id, p: Id): (r: seq<(seq<byte>, seq<byte>)>)
    requires Legal(s, es) && Present(s, es, p) && Present(s, es, q)
    decreases |es|
  {
    if es == [] then [] else
      StaysPresent(s, es, p);
      StaysPresent(s, es, q);
      (if SentChat(es[0], q) && CanSend(s.sessions[p].queue) then [(s.sessions[q].nickName, Text(es[0].msg))] else [])
      + Admitted(Exec(s, es[0]), es[1..], q, p)
  }

  function Copies(chats: seq<(seq<byte>, seq<byte>)>): (r: seq<Message>) {
    if chats == [] then [] else [Chat(Field(chats[0].0, MAX_NICKNAME_SIZE), chats[0].1)] + Copies(chats[1..])
  }

  function TextsOf(chats: seq<(seq<byte>, seq<byte>)>): (r: seq<seq<byte>>) {
    if chats == [] then [] else [chats[0].1] + TextsOf(chats[1..])
  }

  /** The queue of `p` had room for every chat of `q`. */
  ghost predicate NeverRefused(s: Server, es: seq<Event>, q: Id, p: Id)
    requires Legal(s, es) && Present(s, es, p)
    decreases |es|
  {
    es == [] || (
      StaysPresent(s, es, p);
      (SentChat(es[0], q) ==> CanSend(s.sessions[p].queue)) && NeverRefused(Exec(s, es[0]), es[1..], q, p))
  }

  predicate Subsequence<T(==)>(a: seq<T>, b: seq<T>) {
    a == [] || (b != [] && ((a[0] == b[0] && Subsequence(a[1..], b[1..])) || Subsequence(a, b[1..])))
  }

  /**
   * Chat relay over every interleaving: of another session `q`, the queue of `p` takes exactly the chats it has room
   * for, in order, each under the name `q` had when it was handled; of its own chats `p` gets none back.
   */
  lemma {:induction false} ChatRelay(s: Server, es: seq<Event>, q: Id, p: Id)
    requires Legal(s, es) && Present(s, es, p) && Present(s, es, q)
    ensures Only(CHAT, AcceptedFrom(s, es, q, p)) == if q == p then [] else Copies(Admitted(s, es, q, p))
    decreases |es|
  {
    if es != [] {
      var e, t, rest := es[0], Exec(s, es[0]), es[1..];
      StaysPresent(s, es, p);
      StaysPresent(s, es, q);
      ChatRelay(t, rest, q, p);
      var gain := if e.Deliver? && e.id == q then Gain(s, e, p) else [];
      OnlyOfConcat(CHAT, gain, AcceptedFrom(t, rest, q, p));
      ChatsInGain(s, e, q, p);
      if Admitted(s, es, q, p) != Admitted(t, rest, q, p) {
        assert Admitted(s, es, q, p)[1..] == Admitted(t, rest, q, p);
      }
    }
  }

  lemma ChatsInGain(s: Server, e: Event, q: Id, p: Id)
    requires Enabled(s, e) && p in s.sessions && q in s.sessions && e != Leave(p)
    ensures var gain := if e.Deliver? && e.id == q then Gain(s, e, p) else [];
            Only(CHAT, gain) == if q != p && SentChat(e, q) && CanSend(s.sessions[p].queue)
                then [ChatCopy(s.sessions[q], e.msg)] else []
  {
    if e.Deliver? && e.id == q {
      GainIs(s, e, p);
      if q == p || e.msg.Status? {
        RepliesAreNot(CHAT, Gain(s, e, p));
      }
    }
  }

  lemma {:induction false} SubsequenceGrows<T>(x: T, a: seq<T>, b: seq<T>)
    requires Subsequence(a, b) && |a| <= |b|
    ensures Subsequence([x] + a, [x] + b) && Subsequence(a, [x] + b) && a != [x] + b
  {
    assert ([x] + a)[1..] == a && ([x] + b)[1..] == b;
  }

  lemma {:induction false} TextsOfFirst(x: (seq<byte>, seq<byte>), chats: seq<(seq<byte>, seq<byte>)>)
    ensures TextsOf([x] + chats) == [x.1] + TextsOf(chats)
  {
    assert ([x] + chats)[1..] == chats;
  }

  /**
   * The texts that got through are an in-order subsequence of those received, and all of them exactly if none was
   * refused.
   */
  lemma {:induction false} ChatsInOrder(s: Server, es: seq<Event>, q: Id, p: Id)
    requires Legal(s, es) && Present(s, es, p) && Present(s, es, q)
    ensures var through, received := TextsOf(Admitted(s, es, q, p)), TextsReceived(es, q);
            && Subsequence(through, received) && |through| <= |received|
            && (through == received <==> NeverRefused(s, es, q, p))
    decreases |es|
  {
    if es != [] {
      StaysPresent(s, es, p);
      StaysPresent(s, es, q);
      var t := Exec(s, es[0]);
      ChatsInOrder(t, es[1..], q, p);
      var later, received := Admitted(t, es[1..], q, p), TextsReceived(es[1..], q);
      if SentChat(es[0], q) {
        var text := Text(es[0].msg);
        SubsequenceGrows(text, TextsOf(later), received);
        TextsOfFirst((s.sessions[q].nickName, text), later);
        assert TextsReceived(es, q) == [text] + received;
        assert [] + later == later;
      } else {
        assert TextsReceived(es, q) == [] + received == received;
        assert Admitted(s, es, q, p) == [] + later == later;
      }
    }
  }

  // ---------- file blocks ----------

  /** A block of another session, handled while `p` accepts files and has room. */
  predicate Passes(s: Server, e: Event, p: Id)
    requires p in s.sessions
  {
    && e.Deliver? && e.id != p && e.msg.FileData?
    && s.sessions[p].fileTransferStatus == ACCEPT_FILE_TRANSFER && CanSend(s.sessions[p].queue)
  }

  ghost function BlocksPassed(s: Server, es: seq<Event>, p: Id): (r: seq<Message>)
    requires Legal(s, es) && Present(s, es, p)
    decreases |es|
  {
    if es == [] then [] else
      StaysPresent(s, es, p);
      (if Passes(s, es[0], p) then [es[0].msg] else []) + BlocksPassed(Exec(s, es[0]), es[1..], p)
  }

  lemma BlocksInGain(s: Server, e: Event, p: Id)
    requires Enabled(s, e) && p in s.sessions && e != Leave(p)
    ensures Only(FILE_DATA, Gain(s, e, p)) == if Passes(s, e, p) then [e.msg] else []
  {
    GainIs(s, e, p);
    if !(e.Deliver? && e.id != p && !e.msg.Status?) {
      RepliesAreNot(FILE_DATA, Gain(s, e, p));
    }
  }

  /**
   * File relay over whole runs: the blocks that enter the queue of `p` are exactly the blocks of other sessions handled
   * while `p` was in Accept status and had room, in order and unchanged; in any other status `p` gets none.
   */
  lemma {:induction false} FileRelay(s: Server, es: seq<Event>, p: Id)
    requires Legal(s, es) && Present(s, es, p)
    ensures Only(FILE_DATA, Accepted(s, es, p)) == BlocksPassed(s, es, p)
    decreases |es|
  {
    if es != [] {
      StaysPresent(s, es, p);
      var t := Exec(s, es[0]);
      FileRelay(t, es[1..], p);
      BlocksInGain(s, es[0], p);
      OnlyOfConcat(FILE_DATA, Gain(s, es[0], p), Accepted(t, es[1..], p));
    }
  }
}
