/** The Gateway client's memory across reconnects: resume or identify, and when (internal/discord). */
module Gateway {
  import opened Sequences

  const OP_DISPATCH := 0
  const OP_HEARTBEAT := 1
  const OP_RECONNECT := 7
  const OP_INVALID_SESSION := 9

  datatype Ready = Ready(sessionID: string, resumeURL: string)

  datatype Dispatch = ReadyEvent(ready: Option<Ready>) | ResumedEvent | OtherEvent

  /** A decoded message: `ready` is None when its payload does not decode. */
  datatype Envelope = Envelope(op: int, seq_: Option<int>, dispatch: Dispatch, resumable: bool)

  /** A message, and whether a heartbeat sent in answer to it goes out. */
  datatype Incoming = Incoming(envelope: Envelope, writeOk: bool)

  /** One pass through connectAndServe; `incoming` ends where reading fails or is interrupted. */
  datatype Attempt = Attempt(urlOk: bool, dialOk: bool, helloOk: bool, greetOk: bool, incoming: seq<Incoming>)

  datatype Greeting = Identify | Resume(sessionID: string, sequence: int)

  // ----- what the connection history says -----

  datatype Fact = Sequenced(n: int) | Established(ready: Ready) | Cleared

  /** What one message contributes to the client's memory. */
  function FactsOf(e: Envelope): seq<Fact> {
    (if e.seq_.Some? then [Sequenced(e.seq_.value)] else [])
    + (if e.op == OP_DISPATCH && e.dispatch.ReadyEvent? && e.dispatch.ready.Some?
       then [Established(e.dispatch.ready.value)] else [])
    + (if e.op == OP_INVALID_SESSION && !e.resumable then [Cleared] else [])
  }

  /** After this message the serve loop returns. */
  predicate EndsServing(x: Incoming) {
    || x.envelope.op == OP_RECONNECT
    || x.envelope.op == OP_INVALID_SESSION
    || (x.envelope.op == OP_HEARTBEAT && !x.writeOk)
    || (x.envelope.op == OP_DISPATCH && x.envelope.dispatch.ReadyEvent? && x.envelope.dispatch.ready.None?)
  }

  /** The messages handled before the loop returns. */
  function Handled(incoming: seq<Incoming>): seq<Incoming> {
    if incoming == [] then []
    else if EndsServing(incoming[0]) then [incoming[0]]
    else [incoming[0]] + Handled(incoming[1..])
  }

  function FactsOfAll(xs: seq<Incoming>): seq<Fact> {
    if xs == [] then [] else FactsOfAll(xs[..|xs| - 1]) + FactsOf(xs[|xs| - 1].envelope)
  }

  predicate Greeted(a: Attempt) {
    a.urlOk && a.dialOk && a.helloOk
  }

  function AttemptFacts(a: Attempt): seq<Fact> {
    if Greeted(a) && a.greetOk then FactsOfAll(Handled(a.incoming)) else []
  }

  function History(attempts: seq<Attempt>): seq<Fact> {
    if attempts == [] then [] else History(attempts[..|attempts| - 1]) + AttemptFacts(attempts[|attempts| - 1])
  }

  /** What has happened since the session was last declared invalid. */
  function SinceCleared(facts: seq<Fact>): seq<Fact> {
    if facts == [] || facts[|facts| - 1] == Cleared then []
    else SinceCleared(facts[..|facts| - 1]) + [facts[|facts| - 1]]
  }

  /** That is, the longest tail of the history without an invalidation. */
  lemma {:induction false} SinceIsLongest(facts: seq<Fact>)
    ensures var r := SinceCleared(facts);
      && Cleared !in r && |r| <= |facts| && r == facts[|facts| - |r|..]
      && (|r| < |facts| ==> facts[|facts| - |r| - 1] == Cleared)
  {
    if facts != [] && facts[|facts| - 1] != Cleared {
      var init := facts[..|facts| - 1];
      SinceIsLongest(init);
      assert SinceCleared(facts) == facts[|init| - |SinceCleared(init)|..];
    }
  }

  function LatestReady(facts: seq<Fact>): Option<Ready> {
    if facts == [] then None
    else if facts[|facts| - 1].Established? then Some(facts[|facts| - 1].ready)
    else LatestReady(facts[..|facts| - 1])
  }

  function LatestSequence(facts: seq<Fact>): Option<int> {
    if facts == [] then None
    else if facts[|facts| - 1].Sequenced? then Some(facts[|facts| - 1].n)
    else LatestSequence(facts[..|facts| - 1])
  }

  function SequenceAfter(facts: seq<Fact>): int {
    match LatestSequence(SinceCleared(facts))
    case None => -1
    case Some(n) => n
  }

  /** How a connection must be opened after this history. */
  function GreetingAfter(facts: seq<Fact>): Greeting {
    match LatestReady(SinceCleared(facts))
    case None => Identify
    case Some(r) =>
      if r.sessionID != "" && r.resumeURL != "" then Resume(r.sessionID, SequenceAfter(facts)) else Identify
  }

  // ----- the memory -----

  datatype Memory = Memory(sessionID: string, resumeURL: string, sequence: int)

  /** The fields hold what the history says. */
  ghost predicate Remembers(m: Memory, facts: seq<Fact>) {
    && m.sequence == SequenceAfter(facts)
    && match LatestReady(SinceCleared(facts))
       case None => m.sessionID == "" && m.resumeURL == ""
       case Some(r) => m.sessionID == r.sessionID && m.resumeURL == r.resumeURL
  }

  function Note(m: Memory, f: Fact): Memory {
    match f
    case Sequenced(n) => m.(sequence := n)
    case Established(r) => m.(sessionID := r.sessionID, resumeURL := r.resumeURL)
    case Cleared => Memory("", "", -1)
  }

  lemma SinceSnoc(facts: seq<Fact>, f: Fact)
    ensures SinceCleared(facts + [f]) == if f == Cleared then [] else SinceCleared(facts) + [f]
  {
    assert (facts + [f])[..|facts|] == facts;
  }

  lemma LatestSnoc(facts: seq<Fact>, f: Fact)
    ensures LatestReady(facts + [f]) == if f.Established? then Some(f.ready) else LatestReady(facts)
    ensures LatestSequence(facts + [f]) == if f.Sequenced? then Some(f.n) else LatestSequence(facts)
  {
    assert (facts + [f])[..|facts|] == facts;
  }

  /** The greeting a history calls for can be read off the memory of it. */
  lemma GreetingRemembered(m: Memory, facts: seq<Fact>)
    requires Remembers(m, facts)
    ensures GreetingAfter(facts)
         == if m.sessionID != "" && m.resumeURL != "" then Resume(m.sessionID, m.sequence) else Identify
  {
    hide SinceCleared, LatestReady, LatestSequence;
  }

  lemma NothingRemembered()
    ensures LatestReady([]) == None && LatestSequence([]) == None
    ensures Remembers(Memory("", "", -1), [])
  {
  }

  lemma NoteRemembers(m: Memory, facts: seq<Fact>, f: Fact)
    requires Remembers(m, facts)
    ensures Remembers(Note(m, f), facts + [f])
  {
    hide SinceCleared, LatestReady, LatestSequence;
    SinceSnoc(facts, f);
    LatestSnoc(SinceCleared(facts), f);
    NothingRemembered();
  }

  lemma FactsSnoc(xs: seq<Incoming>, x: Incoming)
    ensures FactsOfAll(xs + [x]) == FactsOfAll(xs) + FactsOf(x.envelope)
  {
    assert (xs + [x])[..|xs|] == xs;
  }

  lemma NothingHandled()
    ensures Handled([]) == [] && FactsOfAll([]) == []
  {
  }

  lemma HandledFrom(incoming: seq<Incoming>, i: nat)
    requires i < |incoming|
    ensures Handled(incoming[i..])
         == [incoming[i]] + (if EndsServing(incoming[i]) then [] else Handled(incoming[i + 1..]))
  {
    assert incoming[i..][1..] == incoming[i + 1..];
  }

  // ----- the same, told from the messages alone -----

  /** The server says that the session is over and cannot be taken up again. */
  predicate Invalidates(x: Incoming) {
    x.envelope.op == 9 && !x.envelope.resumable
  }

  /** The server announces a session. */
  predicate Readies(x: Incoming) {
    x.envelope.op == 0 && x.envelope.dispatch.ReadyEvent? && x.envelope.dispatch.ready.Some?
  }

  /** Messages that end the connection: reconnect, invalid session, a READY that cannot be read, a heartbeat unsent. */
  predicate Stops(x: Incoming) {
    || x.envelope.op == 7
    || x.envelope.op == 9
    || (x.envelope.op == 1 && !x.writeOk)
    || (x.envelope.op == 0 && x.envelope.dispatch.ReadyEvent? && x.envelope.dispatch.ready.None?)
  }

  /** Messages are handled in order up to and including the first that ends the connection. */
  lemma {:induction false} HandledByPosition(incoming: seq<Incoming>)
    ensures var n := |Handled(incoming)|;
      && n <= |incoming| && Handled(incoming) == incoming[..n]
      && (forall j :: 0 <= j < n - 1 ==> !Stops(incoming[j]))
      && (n < |incoming| ==> n > 0 && Stops(incoming[n - 1]))
  {
    if incoming != [] && !EndsServing(incoming[0]) {
      HandledByPosition(incoming[1..]);
      var n := |Handled(incoming)|;
      assert incoming[..n] == [incoming[0]] + incoming[1..][..n - 1];
      assert forall j :: 1 <= j < n ==> incoming[j] == incoming[1..][j - 1];
    }
  }

  /** All messages handled over these connections. */
  function HandledAll(attempts: seq<Attempt>): seq<Incoming> {
    if attempts == [] then []
    else
      var last := attempts[|attempts| - 1];
      HandledAll(attempts[..|attempts| - 1])
      + (if last.urlOk && last.dialOk && last.helloOk && last.greetOk then Handled(last.incoming) else [])
  }

  lemma {:induction false} FactsAppend(a: seq<Incoming>, b: seq<Incoming>)
    ensures FactsOfAll(a + b) == FactsOfAll(a) + FactsOfAll(b)
    decreases |b|
  {
    hide FactsOf;
    if b == [] {
      assert a + b == a;
    } else {
      var init, last := b[..|b| - 1], b[|b| - 1];
      FactsAppend(a, init);
      assert a + b == (a + init) + [last] && b == init + [last];
      FactsSnoc(a + init, last);
      FactsSnoc(init, last);
    }
  }

  lemma {:induction false} HistoryOfMessages(attempts: seq<Attempt>)
    ensures History(attempts) == FactsOfAll(HandledAll(attempts))
  {
    hide Handled, FactsOfAll;
    if attempts == [] {
      assert FactsOfAll([]) == [] by {
        NothingHandled();
      }
    } else {
      var init, last := attempts[..|attempts| - 1], attempts[|attempts| - 1];
      HistoryOfMessages(init);
      FactsAppend(HandledAll(init), if Greeted(last) && last.greetOk then Handled(last.incoming) else []);
      NothingHandled();
      assert HandledAll(init) + [] == HandledAll(init) && History(init) + [] == History(init);
    }
  }

  lemma OneMore(facts: seq<Fact>, x: Incoming)
    ensures var since := SinceCleared(facts + FactsOf(x.envelope));
      && LatestReady(since) == (if Invalidates(x) then None
                                else if Readies(x) then Some(x.envelope.dispatch.ready.value)
                                else LatestReady(SinceCleared(facts)))
      && LatestSequence(since) == (if Invalidates(x) then None
                                   else if x.envelope.seq_.Some? then x.envelope.seq_
                                   else LatestSequence(SinceCleared(facts)))
  {
    hide SinceCleared, LatestReady, LatestSequence;
    NothingRemembered();
    var numbered := if x.envelope.seq_.Some? then facts + [Sequenced(x.envelope.seq_.value)] else facts;
    if x.envelope.seq_.Some? {
      SinceSnoc(facts, Sequenced(x.envelope.seq_.value));
      LatestSnoc(SinceCleared(facts), Sequenced(x.envelope.seq_.value));
    }
    if Readies(x) {
      var f := Established(x.envelope.dispatch.ready.value);
      SinceSnoc(numbered, f);
      LatestSnoc(SinceCleared(numbered), f);
      assert facts + FactsOf(x.envelope) == numbered + [f];
    } else if Invalidates(x) {
      SinceSnoc(numbered, Cleared);
      assert facts + FactsOf(x.envelope) == numbered + [Cleared];
    } else {
      assert facts + FactsOf(x.envelope) == numbered;
    }
  }

  /** The i-th message announced the session, and none since announced another or ended it. */
  ghost predicate SessionFrom(msgs: seq<Incoming>, i: nat) {
    && i < |msgs| && Readies(msgs[i])
    && forall j :: i < j < |msgs| ==> !Readies(msgs[j]) && !Invalidates(msgs[j])
  }

  /** The i-th message carried the number, and none since carried another or ended the session; nor did it itself. */
  ghost predicate NumberFrom(msgs: seq<Incoming>, i: nat) {
    && i < |msgs| && msgs[i].envelope.seq_.Some? && !Invalidates(msgs[i])
    && forall j :: i < j < |msgs| ==> msgs[j].envelope.seq_.None? && !Invalidates(msgs[j])
  }

  lemma {:induction false} SessionHeld(msgs: seq<Incoming>) returns (i: nat)
    ensures match LatestReady(SinceCleared(FactsOfAll(msgs)))
      case None => forall k: nat :: !SessionFrom(msgs, k)
      case Some(r) => SessionFrom(msgs, i) && msgs[i].envelope.dispatch.ready == Some(r)
  {
    hide SinceCleared, LatestReady, FactsOf;
    i := 0;
    if msgs == [] {
      NothingKnown();
    } else {
      var init, last := msgs[..|msgs| - 1], msgs[|msgs| - 1];
      i := SessionHeld(init);
      OneMore(FactsOfAll(init), last);
      SessionSnoc(init, last);
      assert msgs == init + [last];
      if Readies(last) {
        i := |init|;
      }
    }
  }

  lemma SessionSnoc(init: seq<Incoming>, last: Incoming)
    ensures forall k: nat :: k < |init| ==>
      (SessionFrom(init + [last], k) <==> SessionFrom(init, k) && !Readies(last) && !Invalidates(last))
    ensures forall k: nat :: k < |init| ==>
      (NumberFrom(init + [last], k) <==> NumberFrom(init, k) && last.envelope.seq_.None? && !Invalidates(last))
  {
    var all := init + [last];
    assert all[|init|] == last && forall j :: 0 <= j < |init| ==> all[j] == init[j];
    forall k: nat | k < |init|
      ensures SessionFrom(all, k) <==> SessionFrom(init, k) && !Readies(last) && !Invalidates(last)
      ensures NumberFrom(all, k) <==> NumberFrom(init, k) && last.envelope.seq_.None? && !Invalidates(last)
    {
    }
  }

  lemma NothingKnown()
    ensures LatestReady(SinceCleared(FactsOfAll([]))) == None && LatestSequence(SinceCleared(FactsOfAll([]))) == None
  {
  }

  lemma {:induction false} NumberHeld(msgs: seq<Incoming>) returns (i: nat)
    ensures match LatestSequence(SinceCleared(FactsOfAll(msgs)))
      case None => forall k: nat :: !NumberFrom(msgs, k)
      case Some(n) => NumberFrom(msgs, i) && msgs[i].envelope.seq_ == Some(n)
  {
    hide SinceCleared, LatestSequence, FactsOf;
    i := 0;
    if msgs == [] {
      NothingKnown();
    } else {
      var init, last := msgs[..|msgs| - 1], msgs[|msgs| - 1];
      i := NumberHeld(init);
      OneMore(FactsOfAll(init), last);
      SessionSnoc(init, last);
      assert msgs == init + [last];
      if last.envelope.seq_.Some? && !Invalidates(last) {
        i := |init|;
      }
    }
  }

  /** What a connection must be opened with, told from all messages handled before. */
  ghost predicate GreetsRightly(g: Greeting, msgs: seq<Incoming>) {
    match g
    case Identify =>
      forall i: nat :: SessionFrom(msgs, i) ==>
        var r := msgs[i].envelope.dispatch.ready.value; r.sessionID == "" || r.resumeURL == ""
    case Resume(sessionID, sequence) =>
      && (exists i: nat :: SessionFrom(msgs, i)
            && var r := msgs[i].envelope.dispatch.ready.value;
               sessionID == r.sessionID && r.sessionID != "" && r.resumeURL != "")
      && (forall i: nat :: NumberFrom(msgs, i) ==> msgs[i].envelope.seq_ == Some(sequence))
      && ((forall i: nat :: !NumberFrom(msgs, i)) ==> sequence == -1)
  }

  lemma OneSession(msgs: seq<Incoming>, i: nat, k: nat)
    requires SessionFrom(msgs, i) && SessionFrom(msgs, k)
    ensures i == k
  {
  }

  lemma OneNumber(msgs: seq<Incoming>, i: nat, k: nat)
    requires NumberFrom(msgs, i) && NumberFrom(msgs, k)
    ensures i == k
  {
  }

  lemma GreetingIsRight(msgs: seq<Incoming>)
    ensures GreetsRightly(GreetingAfter(FactsOfAll(msgs)), msgs)
  {
    hide SinceCleared, LatestReady, LatestSequence, FactsOfAll, SessionFrom, NumberFrom;
    var i := SessionHeld(msgs);
    var n := NumberHeld(msgs);
    forall k: nat | SessionFrom(msgs, k) && SessionFrom(msgs, i) ensures k == i {
      OneSession(msgs, i, k);
    }
    forall k: nat | NumberFrom(msgs, k) && NumberFrom(msgs, n) ensures k == n {
      OneNumber(msgs, n, k);
    }
    assert forall k: nat :: SessionFrom(msgs, k) ==> k < |msgs| && Readies(msgs[k]) by {
      SessionsReady(msgs);
    }
  }

  lemma SessionsReady(msgs: seq<Incoming>)
    ensures forall k: nat :: SessionFrom(msgs, k) ==> k < |msgs| && Readies(msgs[k])
    ensures forall k: nat :: NumberFrom(msgs, k) ==> k < |msgs|
  {
  }

  /** After an invalidation the next connection identifies. */
  lemma InvalidatedThenIdentify(msgs: seq<Incoming>, g: Greeting)
    requires GreetsRightly(g, msgs) && msgs != [] && Invalidates(msgs[|msgs| - 1])
    ensures g == Identify
  {
  }

  /** An invalid-session message that leaves the session resumable changes only the number, if it carries one. */
  lemma ResumableKeepsSession(msgs: seq<Incoming>, x: Incoming, g: Greeting, h: Greeting)
    requires x.envelope.op == 9 && x.envelope.resumable
    requires GreetsRightly(g, msgs) && GreetsRightly(h, msgs + [x])
    ensures g.Resume? <==> h.Resume?
    ensures g.Resume? ==> h.sessionID == g.sessionID
    ensures g.Resume? ==> h.sequence == if x.envelope.seq_.Some? then x.envelope.seq_.value else g.sequence
  {
    hide SessionFrom, NumberFrom;
    var all := msgs + [x];
    SessionSnoc(msgs, x);
    SessionsReady(msgs);
    SessionsReady(all);
    assert all[|msgs|] == x && !Readies(x) && forall k :: 0 <= k < |msgs| ==> all[k] == msgs[k];
    assert forall k: nat :: SessionFrom(all, k) <==> SessionFrom(msgs, k);
    forall i: nat, k: nat | SessionFrom(msgs, i) && SessionFrom(msgs, k) ensures i == k {
      OneSession(msgs, i, k);
    }
    if x.envelope.seq_.Some? {
      assert NumberFrom(all, |msgs|) by {
        LastNumber(msgs, x);
      }
    } else {
      assert forall k: nat :: NumberFrom(all, k) ==> k != |msgs| by {
        NumbersCarried(all);
      }
      assert forall k: nat :: NumberFrom(all, k) <==> NumberFrom(msgs, k);
    }
  }

  lemma LastNumber(msgs: seq<Incoming>, x: Incoming)
    requires x.envelope.seq_.Some? && !Invalidates(x)
    ensures NumberFrom(msgs + [x], |msgs|)
  {
  }

  lemma NumbersCarried(msgs: seq<Incoming>)
    ensures forall k: nat :: NumberFrom(msgs, k) ==> k < |msgs| && msgs[k].envelope.seq_.Some?
  {
  }

  // ----- reconnect delays -----

  /** Seconds waited after the k-th connection, counted from 0. */
  function Delay(k: nat): nat {
    Min(Power2(k), 30)
  }

  lemma DelayDoubles(k: nat)
    ensures Delay(k + 1) == (if Delay(k) < 30 then Min(Delay(k) * 2, 30) else 30)
  {
  }

  /** One second, doubled while below thirty, and thirty from then on. */
  lemma DelayTable(k: nat)
    ensures k == 0 ==> Delay(k) == 1
    ensures k < 4 ==> Delay(k + 1) == 2 * Delay(k)
    ensures k >= 5 ==> Delay(k) == 30
  {
    if k >= 5 {
      PowerGrows(5, k);
      assert Power2(5) == 32 by {
        assert Power2(3) == 8;
      }
    } else {
      assert Power2(4) == 16 && Power2(2) == 4;
    }
  }

  lemma {:induction false} PowerGrows(a: nat, b: nat)
    requires a <= b
    ensures Power2(a) <= Power2(b)
  {
    if a < b {
      PowerGrows(a, b - 1);
    }
  }

  // ----- the client -----

  class Gateway {
    var sessionID: string
    var resumeURL: string
    var sequence: int
    var connected: bool
    var greetings: seq<Option<Greeting>>   // per connection: what was sent first, if anything
    ghost var facts: seq<Fact>

    ghost function Abs(): Memory
      reads this
    {
      Memory(sessionID, resumeURL, sequence)
    }

    ghost predicate Valid()
      reads this
    {
      Remembers(Abs(), facts)
    }

    constructor ()
      ensures Valid() && facts == [] && greetings == [] && !connected
    {
      hide Remembers;
      sessionID, resumeURL, sequence, connected, greetings, facts := "", "", -1, false, [], [];
      new;
      NothingRemembered();
    }

    method ClearSession()
      requires Valid()
      modifies this`sessionID, this`resumeURL, this`sequence, this`facts
      ensures Valid() && facts == old(facts) + [Cleared]
      ensures sessionID == "" && resumeURL == "" && sequence == -1
    {
      NoteRemembers(Abs(), facts, Cleared);
      sessionID, resumeURL, sequence := "", "", -1;
      facts := facts + [Cleared];
    }

    /** Whether the next connection will resume. */
    method ConnectionURL() returns (resuming: bool)
      requires Valid()
      ensures resuming <==> GreetingAfter(facts).Resume?
    {
      hide Remembers, GreetingAfter;
      GreetingRemembered(Abs(), facts);
      resuming := sessionID != "" && resumeURL != "";
    }

    /** One message; `stop` when the loop returns because of it. */
    method HandleEnvelope(x: Incoming) returns (stop: bool)
      requires Valid()
      modifies this`sessionID, this`resumeURL, this`sequence, this`connected, this`facts
      ensures Valid() && facts == old(facts) + FactsOf(x.envelope)
      ensures stop == EndsServing(x) == Stops(x)
      ensures Invalidates(x) ==> sessionID == "" && resumeURL == "" && sequence == -1
      ensures Readies(x) ==> Ready(sessionID, resumeURL) == x.envelope.dispatch.ready.value
      ensures !Invalidates(x) && !Readies(x) ==> sessionID == old(sessionID) && resumeURL == old(resumeURL)
      ensures !Invalidates(x) ==>
        sequence == if x.envelope.seq_.Some? then x.envelope.seq_.value else old(sequence)
      ensures connected == (old(connected) || (x.envelope.op == OP_DISPATCH
        && (x.envelope.dispatch.ResumedEvent? || (x.envelope.dispatch.ReadyEvent? && x.envelope.dispatch.ready.Some?))))
    {
      hide Remembers;
      var e := x.envelope;
      if e.seq_.Some? {
        NoteRemembers(Abs(), facts, Sequenced(e.seq_.value));
        sequence := e.seq_.value;
        facts := facts + [Sequenced(e.seq_.value)];
      }
      if e.op == OP_DISPATCH {
        match e.dispatch {
          case ReadyEvent(ready) =>
            if ready.None? {
              return true;
            }
            NoteRemembers(Abs(), facts, Established(ready.value));
            sessionID := ready.value.sessionID;
            resumeURL := ready.value.resumeURL;
            facts := facts + [Established(ready.value)];
            connected := true;
          case ResumedEvent =>
            connected := true;
          case OtherEvent =>
        }
      } else if e.op == OP_HEARTBEAT {
        if !x.writeOk {
          return true;
        }
      } else if e.op == OP_RECONNECT {
        return true;
      } else if e.op == OP_INVALID_SESSION {
        if !e.resumable {
          ClearSession();
        }
        return true;
      }
      stop := false;
    }

    method Serve(incoming: seq<Incoming>)
      requires Valid()
      modifies this`sessionID, this`resumeURL, this`sequence, this`connected, this`facts
      ensures Valid() && facts == old(facts) + FactsOfAll(Handled(incoming))
    {
      hide Remembers, FactsOf, FactsOfAll, EndsServing, Handled;
      var i := 0;
      NothingHandled();
      assert incoming[..0] == [] && incoming[0..] == incoming;
      while i < |incoming|
        invariant 0 <= i <= |incoming| && Valid()
        invariant facts == old(facts) + FactsOfAll(incoming[..i])
        invariant Handled(incoming) == incoming[..i] + Handled(incoming[i..])
      {
        var stop := HandleEnvelope(incoming[i]);
        FactsSnoc(incoming[..i], incoming[i]);
        HandledFrom(incoming, i);
        assert incoming[..i + 1] == incoming[..i] + [incoming[i]];
        if stop {
          assert Handled(incoming) == incoming[..i + 1];
          return;
        }
        assert Handled(incoming) == incoming[..i + 1] + Handled(incoming[i + 1..]);
        i := i + 1;
      }
      assert incoming[..i] == incoming == incoming + [] && incoming[i..] == [];
    }

    method ConnectAndServe(a: Attempt)
      requires Valid()
      modifies this
      ensures Valid() && facts == old(facts) + AttemptFacts(a)
      ensures greetings == old(greetings) + [if Greeted(a) then Some(GreetingAfter(old(facts))) else None]
    {
      hide Handled, FactsOfAll, Remembers, GreetingAfter;
      GreetingRemembered(Abs(), facts);
      var resuming := ConnectionURL();
      if !a.urlOk || !a.dialOk || !a.helloOk {
        greetings := greetings + [None];
        return;
      }
      if resuming {
        greetings := greetings + [Some(Resume(sessionID, sequence))];
      } else {
        greetings := greetings + [Some(Identify)];
      }
      if a.greetOk {
        Serve(a.incoming);
      }
    }

    /** Connects again and again until the context ends, which it does after the last attempt. */
    method Run(attempts: seq<Attempt>) returns (delays: seq<nat>)
      requires Valid() && facts == [] && greetings == []
      modifies this
      ensures Valid() && !connected && facts == History(attempts)
      ensures |greetings| == |attempts|
      ensures forall k :: 0 <= k < |attempts| ==>
        greetings[k] == if Greeted(attempts[k]) then Some(GreetingAfter(History(attempts[..k]))) else None
      ensures forall k :: 0 <= k < |attempts| && greetings[k].Some? ==>
        GreetsRightly(greetings[k].value, HandledAll(attempts[..k]))
      ensures delays == seq(|attempts|, k requires k >= 0 => Delay(k))
    {
      hide Remembers, AttemptFacts, GreetingAfter, Delay, GreetsRightly, HandledAll;
      delays := [];
      var backoff := 1;
      connected := false;
      assert Delay(0) == 1 by {
        FirstDelay();
      }
      assert attempts[..0] == [];
      for i := 0 to |attempts|
        invariant Valid() && !connected && facts == History(attempts[..i]) && |greetings| == i
        invariant forall k :: 0 <= k < i ==>
          greetings[k] == if Greeted(attempts[k]) then Some(GreetingAfter(History(attempts[..k]))) else None
        invariant backoff == Delay(i) && delays == seq(i, k requires k >= 0 => Delay(k))
      {
        ConnectAndServe(attempts[i]);
        connected := false;
        assert attempts[..i + 1][..i] == attempts[..i];
        delays := delays + [backoff];
        DelayDoubles(i);
        DelayBound(i);
        if backoff < 30 {
          backoff := backoff * 2;
          if backoff > 30 {
            backoff := 30;
          }
        }
      }
      assert attempts[..|attempts|] == attempts;
      forall k | 0 <= k < |attempts| && greetings[k].Some?
        ensures GreetsRightly(greetings[k].value, HandledAll(attempts[..k]))
      {
        HistoryOfMessages(attempts[..k]);
        GreetingIsRight(HandledAll(attempts[..k]));
      }
    }
  }

  lemma FirstDelay()
    ensures Delay(0) == 1
  {
  }

  lemma DelayBound(k: nat)
    ensures 1 <= Delay(k) <= 30
  {
  }

  // ----- reading the specification -----

  lemma SinceIsTail(facts: seq<Fact>, k: nat)
    requires |facts| - |SinceCleared(facts)| <= k < |facts|
    ensures |SinceCleared(facts)| <= |facts|
    ensures facts[k] == SinceCleared(facts)[k - (|facts| - |SinceCleared(facts)|)] && facts[k] != Cleared
  {
    hide SinceCleared;
    SinceIsLongest(facts);
    var since := SinceCleared(facts);
    var base := |facts| - |since|;
    assert since == facts[base..];
    assert since[k - base] in since;
  }

  /** A resume names the session of a READY that no invalidation has followed. */
  lemma ResumeIsJustified(facts: seq<Fact>) returns (at: nat)
    requires GreetingAfter(facts).Resume?
    ensures at < |facts| && facts[at].Established?
    ensures facts[at].ready.sessionID == GreetingAfter(facts).sessionID != ""
    ensures facts[at].ready.resumeURL != ""
    ensures forall k :: at < k < |facts| ==> !facts[k].Established? && facts[k] != Cleared
  {
    hide SinceCleared, LatestReady, LatestSequence;
    SinceIsLongest(facts);
    var since := SinceCleared(facts);
    var base := |facts| - |since|;
    var i := LatestReadyIndex(since);
    at := base + i;
    SinceIsTail(facts, at);
    forall k | at < k < |facts| ensures !facts[k].Established? && facts[k] != Cleared {
      SinceIsTail(facts, k);
    }
  }

  lemma {:induction false} LatestReadyIndex(facts: seq<Fact>) returns (at: nat)
    requires LatestReady(facts).Some?
    ensures at < |facts| && facts[at] == Established(LatestReady(facts).value)
    ensures forall k :: at < k < |facts| ==> !facts[k].Established?
  {
    var last := |facts| - 1;
    if facts[last].Established? {
      at := last;
    } else {
      at := LatestReadyIndex(facts[..last]);
    }
  }

  /** Conversely, such a READY with a session and an address always leads to a resume. */
  lemma {:induction false} ReadyLeadsToResume(facts: seq<Fact>, at: nat)
    requires at < |facts| && facts[at].Established?
    requires facts[at].ready.sessionID != "" && facts[at].ready.resumeURL != ""
    requires forall k :: at < k < |facts| ==> !facts[k].Established? && facts[k] != Cleared
    ensures GreetingAfter(facts).Resume? && GreetingAfter(facts).sessionID == facts[at].ready.sessionID
  {
    LatestIs(facts, at);
  }

  lemma {:induction false} LatestIs(facts: seq<Fact>, at: nat)
    requires at < |facts| && facts[at].Established?
    requires forall k :: at < k < |facts| ==> !facts[k].Established? && facts[k] != Cleared
    ensures LatestReady(SinceCleared(facts)) == Some(facts[at].ready)
  {
    hide SinceCleared, LatestReady, LatestSequence;
    var last := |facts| - 1;
    assert facts == facts[..last] + [facts[last]];
    SinceSnoc(facts[..last], facts[last]);
    LatestSnoc(SinceCleared(facts[..last]), facts[last]);
    if at < last {
      LatestIs(facts[..last], at);
    }
  }

  /** The sequence number carried is the last one seen since the session was last cleared, -1 if none. */
  lemma {:induction false} SequenceIsLatest(facts: seq<Fact>, at: nat)
    requires at < |facts| && facts[at].Sequenced?
    requires forall k :: at < k < |facts| ==> !facts[k].Sequenced? && facts[k] != Cleared
    ensures SequenceAfter(facts) == facts[at].n
  {
    hide SinceCleared, LatestReady, LatestSequence;
    var last := |facts| - 1;
    assert facts == facts[..last] + [facts[last]];
    SinceSnoc(facts[..last], facts[last]);
    LatestSnoc(SinceCleared(facts[..last]), facts[last]);
    if at < last {
      SequenceIsLatest(facts[..last], at);
    }
  }

  lemma SequenceUnknown(facts: seq<Fact>, cut: nat)
    requires cut <= |facts| && (cut == 0 || facts[cut - 1] == Cleared)
    requires forall k :: cut <= k < |facts| ==> !facts[k].Sequenced?
    ensures SequenceAfter(facts) == -1
  {
    hide SinceCleared;
    SinceIsLongest(facts);
    var since := SinceCleared(facts);
    var base := |facts| - |since|;
    forall k | base <= k < |facts| ensures facts[k] != Cleared && facts[k] == since[k - base] {
      SinceIsTail(facts, k);
    }
    assert cut <= base;
    assert forall i :: 0 <= i < |since| ==> since[i] == facts[base + i];
    NoSequence(since);
  }

  lemma {:induction false} NoSequence(facts: seq<Fact>)
    requires forall k :: 0 <= k < |facts| ==> !facts[k].Sequenced?
    ensures LatestSequence(facts) == None
  {
    if facts != [] {
      NoSequence(facts[..|facts| - 1]);
    }
  }
}
