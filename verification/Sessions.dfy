/** The history of one session: the language its state check accepts, and the names sessions are born with. */
module Sessions {
  import opened Bytes
  import opened Messages
  import opened ServerModel
  import opened Relays

  // ---------- the state check as an automaton ----------

  predicate Changing(w: seq<Kind>) {
    forall k :: k in w ==> ChangesState(k)
  }

  function StateAfter(state: ClientState, w: seq<Kind>): (r: ClientState)
    decreases |w|
  {
    if w == [] then state else StateAfter(NextState(state, w[0]), w[1..])
  }

  predicate SomeRefused(state: ClientState, w: seq<Kind>)
    decreases |w|
  {
    w != [] && (Refuses(state, w[0]) || SomeRefused(NextState(state, w[0]), w[1..]))
  }

  /** Nothing, or HELLO and then names only. */
  predicate Login(w: seq<Kind>) {
    w == [] || (w[0] == HELLO && forall i :: 1 <= i < |w| ==> w[i] == NICKNAME)
  }

  predicate EndsInBye(w: seq<Kind>) {
    w != [] && w[|w| - 1] == BYE
  }

  /** A login followed by an optional BYE. */
  predicate InLanguage(w: seq<Kind>) {
    Login(if EndsInBye(w) then w[..|w| - 1] else w)
  }

  function StateOf(w: seq<Kind>): (r: ClientState) {
    if w == [] then START else if EndsInBye(w) then INVALID else if |w| == 1 then IDENTIFY else READY
  }

  /** INVALID is absorbing, and there every further state message is refused. */
  lemma {:induction false} InvalidAbsorbs(w: seq<Kind>)
    requires Changing(w)
    ensures StateAfter(INVALID, w) == INVALID
    ensures SomeRefused(INVALID, w) <==> w != []
  {
    if w != [] {
      InvalidAbsorbs(w[1..]);
    }
  }

  /** Once a session is identified it may send names, and a BYE at the very end. */
  lemma {:induction false} NamesUntilBye(state: ClientState, w: seq<Kind>)
    requires Changing(w) && (state == IDENTIFY || state == READY)
    ensures !SomeRefused(state, w) <==> forall i :: 0 <= i < |w| ==> w[i] == NICKNAME || (w[i] == BYE && i == |w| - 1)
    ensures !SomeRefused(state, w) ==>
            StateAfter(state, w) == if EndsInBye(w) then INVALID else if w == [] then state else READY
    decreases |w|
  {
    if w != [] {
      var t := w[1..];
      match w[0] {
        case NICKNAME =>
          NamesUntilBye(READY, t);
          assert forall i :: 0 <= i < |t| ==> t[i] == w[i + 1];
          assert (forall i :: 0 <= i < |w| ==> w[i] == NICKNAME || (w[i] == BYE && i == |w| - 1))
            <==> (forall i :: 0 <= i < |t| ==> t[i] == NICKNAME || (t[i] == BYE && i == |t| - 1)) by {
            assert forall i :: 1 <= i < |w| ==> w[i] == t[i - 1];
          }
        case BYE =>
          InvalidAbsorbs(t);
        case _ =>
      }
    }
  }

  /**
   * The state check never disconnects a session exactly if its state messages form a login and an optional BYE, and
   * then the stored state is the one the word determines.
   */
  lemma {:induction false} AutomatonLanguage(w: seq<Kind>)
    requires Changing(w)
    ensures !SomeRefused(START, w) <==> InLanguage(w)
    ensures InLanguage(w) ==> StateAfter(START, w) == StateOf(w)
  {
    if w != [] {
      var t := w[1..];
      match w[0] {
        case HELLO =>
          NamesUntilBye(IDENTIFY, t);
          HelloWords(w);
        case BYE =>
          InvalidAbsorbs(t);
          if |w| > 1 {
            assert !Login(w) && w[..|w| - 1][0] == BYE;
          }
        case NICKNAME =>
          assert EndsInBye(w) ==> w[..|w| - 1][0] == w[0];
        case _ =>
      }
    }
  }

  lemma HelloWords(w: seq<Kind>)
    requires w != [] && w[0] == HELLO
    ensures InLanguage(w) <==> forall i :: 0 <= i < |w[1..]| ==>
            w[1..][i] == NICKNAME || (w[1..][i] == BYE && i == |w[1..]| - 1)
  {
    var t := w[1..];
    assert forall i :: 1 <= i < |w| ==> w[i] == t[i - 1];
    assert forall i :: 0 <= i < |t| ==> t[i] == w[i + 1];
    if EndsInBye(w) {
      var front := w[..|w| - 1];
      assert forall i :: 0 <= i < |front| ==> front[i] == w[i];
    }
  }

  // ---------- the automaton inside the server ----------

  /** The state messages the server handled from `p`. */
  function Word(es: seq<Event>, p: Id): (r: seq<Kind>) {
    if es == [] then [] else
      (if es[0].Deliver? && es[0].id == p && ChangesState(es[0].msg.Kind()) then [es[0].msg.Kind()] else [])
        + Word(es[1..], p)
  }

  lemma {:induction false} WordChanges(es: seq<Event>, p: Id)
    ensures Changing(Word(es, p))
  {
    if es != [] {
      WordChanges(es[1..], p);
    }
  }

  lemma SessionStep(s: Server, e: Event, p: Id)
    requires Enabled(s, e) && p in s.sessions && e != Leave(p)
    ensures p in Exec(s, e).sessions
    ensures var before, after := s.sessions[p], Exec(s, e).sessions[p];
            if e.Deliver? && e.id == p then
              && after.state == NextState(before.state, e.msg.Kind())
              && after.disconnected == (before.disconnected || Refuses(before.state, e.msg.Kind()))
            else after.state == before.state && after.disconnected == before.disconnected
  {
    if e.Deliver? {
      if e.id == p {
        OwnSessionStep(s, p, e.msg, e.nameFree);
      } else if e.msg.Status? {
        OtherQueueOfStatus(s, e.id, e.msg, e.nameFree, p);
      } else {
        OtherQueue(s, e.id, e.msg, e.nameFree, p);
      }
    }
  }

  ghost predicate StateMoves(s: Server, p: Id, m: Message, t: Server)
    requires p in s.sessions
  {
    && p in t.sessions
    && t.sessions[p].state == NextState(s.sessions[p].state, m.Kind())
    && t.sessions[p].disconnected == (s.sessions[p].disconnected || Refuses(s.sessions[p].state, m.Kind()))
  }

  lemma OwnSessionStep(s: Server, p: Id, m: Message, nameFree: bool)
    requires p in s.sessions
    ensures StateMoves(s, p, m, Handle(s, p, m, nameFree))
  {
    var s1 := Update(s, p, Checked(s.sessions[p], m.Kind()));
    assert StateMoves(s, p, m, s1);
    match m {
      case FileRequest(_, _) => KeepsSessionInRequest(s1, p, m);
      case FileData(_, _, _) => KeepsSessionInData(s1, p, m);
      case Status(code) => KeepsSessionInResponse(s1, p, code);
      case Chat(_, _) =>
      case Hello =>
      case Nickname(_) =>
      case Bye =>
    }
  }

  lemma KeepsSessionInRequest(s: Server, p: Id, m: Message)
    requires p in s.sessions && m.FileRequest?
    ensures var t := RelayRequest(s, p, m);
            p in t.sessions && t.sessions[p].state == s.sessions[p].state
                && t.sessions[p].disconnected == s.sessions[p].disconnected
  {
  }

  lemma KeepsSessionInData(s: Server, p: Id, m: Message)
    requires p in s.sessions && m.FileData?
    ensures var t := RelayData(s, p, m);
            p in t.sessions && t.sessions[p].state == s.sessions[p].state
                && t.sessions[p].disconnected == s.sessions[p].disconnected
  {
  }

  lemma KeepsSessionInResponse(s: Server, p: Id, code: int32)
    requires p in s.sessions
    ensures var t := Decide(Update(s, p, s.sessions[p].(fileTransferStatus := code)), p);
            p in t.sessions && t.sessions[p].state == s.sessions[p].state
                && t.sessions[p].disconnected == s.sessions[p].disconnected
  {
  }

  /**
   * Whatever else the server handles, the state of a session is the one its own state messages lead to, and it has been
   * disconnected by the check exactly if one of them was refused.
   */
  lemma {:induction false} SessionFollowsWord(s: Server, es: seq<Event>, p: Id)
    requires Legal(s, es) && Present(s, es, p)
    ensures p in Run(s, es).sessions
    ensures Run(s, es).sessions[p].state == StateAfter(s.sessions[p].state, Word(es, p))
    ensures Run(s, es).sessions[p].disconnected ==
            (s.sessions[p].disconnected || SomeRefused(s.sessions[p].state, Word(es, p)))
    decreases |es|
  {
    if es != [] {
      var e := es[0];
      StaysPresent(s, es, p);
      SessionStep(s, e, p);
      SessionFollowsWord(Exec(s, e), es[1..], p);
      if e.Deliver? && e.id == p && ChangesState(e.msg.Kind()) {
        assert Word(es, p)[1..] == Word(es[1..], p);
      } else {
        assert Word(es, p) == [] + Word(es[1..], p) == Word(es[1..], p);
      }
    }
  }

  /** From the join on: the server keeps the session connected exactly as long as its history is in the language. */
  lemma {:induction false} ServerAcceptsLanguage(s: Server, p: Id, es: seq<Event>)
    requires Enabled(s, Join(p)) && Leave(p) !in es && Legal(Added(s, p), es)
    ensures p in Run(Added(s, p), es).sessions
    ensures var me := Run(Added(s, p), es).sessions[p];
            && (!me.disconnected <==> InLanguage(Word(es, p)))
            && (!me.disconnected ==> me.state == StateOf(Word(es, p)))
  {
    SessionFollowsWord(Added(s, p), es, p);
    WordChanges(es, p);
    AutomatonLanguage(Word(es, p));
  }

  // ---------- default names ----------

  function DecimalValue(s: seq<byte>): (r: int) {
    if s == [] then 0 else 10 * DecimalValue(s[..|s| - 1]) + s[|s| - 1] - 48
  }

  lemma {:induction false} DecimalRoundTrip(n: nat)
    ensures DecimalValue(Decimal(n)) == n
  {
    if n >= 10 {
      DecimalRoundTrip(n / 10);
      assert Decimal(n)[..|Decimal(n)| - 1] == Decimal(n / 10);
    }
  }

  lemma {:induction false} DecimalLength(n: nat, digits: nat, limit: nat)
    requires digits > 0 && n < limit && limit == Tens(digits)
    ensures |Decimal(n)| <= digits
    decreases digits
  {
    if n >= 10 {
      DecimalLength(n / 10, digits - 1, Tens(digits - 1));
    }
  }

  function Tens(k: nat): (r: nat) {
    if k == 0 then 1 else 10 * Tens(k - 1)
  }

  /** The default name fits the name field, so no truncation can make two of them equal. */
  lemma DefaultNameIsKept(n: nat)
    requires n <= MAX_CONNECTIONS
    ensures Truncated(DefaultName(n)) == DefaultName(n)
  {
    assert Tens(5) == 100000 && Tens(10) == 100000 * Tens(5);
    DecimalLength(n, 10, 10000000000);
  }

  lemma DefaultNamesDiffer(m: nat, n: nat)
    requires m < n <= MAX_CONNECTIONS
    ensures Truncated(DefaultName(m)) != Truncated(DefaultName(n))
  {
    DefaultNameIsKept(m);
    DefaultNameIsKept(n);
    DecimalRoundTrip(m);
    DecimalRoundTrip(n);
    assert DefaultName(m)[|USER|..] == Decimal(m) && DefaultName(n)[|USER|..] == Decimal(n);
  }

  /** The names the sessions added during a run were given, in order. */
  ghost function NamesGiven(s: Server, es: seq<Event>): (r: seq<seq<byte>>)
    requires Legal(s, es)
    decreases |es|
  {
    if es == [] then [] else
      var t := Exec(s, es[0]);
      (if es[0].Join? then [t.sessions[es[0].id].nickName] else []) + NamesGiven(t, es[1..])
  }

  lemma CounterStep(s: Server, e: Event)
    requires Enabled(s, e)
    ensures Exec(s, e).counter == s.counter + if e.Join? then 1 else 0
    ensures s.counter <= MAX_CONNECTIONS ==> Exec(s, e).counter <= MAX_CONNECTIONS
  {
  }

  lemma {:induction false} NamesAreNumbered(s: Server, es: seq<Event>, k: nat)
    requires Legal(s, es) && s.counter <= MAX_CONNECTIONS && k < |NamesGiven(s, es)|
    ensures s.counter + 1 + k <= MAX_CONNECTIONS
    ensures NamesGiven(s, es)[k] == Truncated(DefaultName(s.counter + 1 + k))
    decreases |es|
  {
    var t := Exec(s, es[0]);
    CounterStep(s, es[0]);
    if !es[0].Join? {
      assert NamesGiven(s, es) == [] + NamesGiven(t, es[1..]) == NamesGiven(t, es[1..]);
      NamesAreNumbered(t, es[1..], k);
    } else if k > 0 {
      assert NamesGiven(s, es)[k] == NamesGiven(t, es[1..])[k - 1];
      NamesAreNumbered(t, es[1..], k - 1);
    }
  }

  /** No two sessions ever added, whether still connected or not, were given the same default name. */
  lemma {:induction false} DefaultNamesAreDistinct(es: seq<Event>, i: nat, j: nat)
    requires Legal(INITIAL_SERVER, es) && i < j < |NamesGiven(INITIAL_SERVER, es)|
    ensures NamesGiven(INITIAL_SERVER, es)[i] != NamesGiven(INITIAL_SERVER, es)[j]
  {
    NamesAreNumbered(INITIAL_SERVER, es, i);
    NamesAreNumbered(INITIAL_SERVER, es, j);
    DefaultNamesDiffer(1 + i, 1 + j);
  }
}
