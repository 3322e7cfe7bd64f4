/**
  * The heartbeat of one Gateway connection (internal/discord): the timer loop, heartbeats the server
  * asks for and acknowledgements meet in one atomic flag. Storing the flag and sending are two steps.
  */
module Heartbeat {

  datatype Phase = BeforeFirst | Sending | Waiting | Ended

  /** Check: a timer tick went ahead. Beat: its heartbeat was sent. Demand: the server asked for one. */
  datatype Mark = Check | Beat | Demand | Ack

  datatype State = State(acked: bool, phase: Phase, log: seq<Mark>)

  datatype Action =
    | FirstTick
    | Tick
    | SendBeat
    | SendFails
    | ServerDemands
    | ServerAcks
    | Cancel

  function Initial(): State {
    State(true, BeforeFirst, [])
  }

  ghost predicate Enabled(s: State, a: Action) {
    match a
    case FirstTick => s.phase == BeforeFirst
    case Tick => s.phase == Waiting
    case SendBeat => s.phase == Sending
    case SendFails => s.phase == Sending
    case ServerDemands => true
    case ServerAcks => true
    case Cancel => true
  }

  function Apply(s: State, a: Action): State
    requires Enabled(s, a)
  {
    match a
    case FirstTick => State(false, Sending, s.log + [Check])
    case Tick => if s.acked then State(false, Sending, s.log + [Check]) else s.(phase := Ended)
    case SendBeat => s.(phase := Waiting, log := s.log + [Beat])
    case SendFails => s.(phase := Ended)
    case ServerDemands => s.(acked := false, log := s.log + [Demand])
    case ServerAcks => s.(acked := true, log := s.log + [Ack])
    case Cancel => s.(phase := Ended)
  }

  function Count(log: seq<Mark>, m: Mark): nat {
    if log == [] then 0 else Count(log[..|log| - 1], m) + (if log[|log| - 1] == m then 1 else 0)
  }

  lemma CountSnoc(log: seq<Mark>, x: Mark, m: Mark)
    ensures Count(log + [x], m) == Count(log, m) + (if x == m then 1 else 0)
  {
    assert (log + [x])[..|log|] == log;
  }

  /** The last thing that happened to the flag was an acknowledgement, or nothing has happened to it. */
  predicate Acknowledged(log: seq<Mark>) {
    if log == [] then true
    else match log[|log| - 1]
      case Beat => Acknowledged(log[..|log| - 1])
      case Ack => true
      case Check => false
      case Demand => false
  }

  /** An acknowledgement was processed strictly between these two positions. */
  ghost predicate AckBetween(log: seq<Mark>, i: int, j: int) {
    exists k :: i < k < j && 0 <= k < |log| && log[k] == Ack
  }

  ghost predicate ChecksSeparated(log: seq<Mark>) {
    forall i, j :: 0 <= i < j < |log| && log[i] == Check && log[j] == Check ==> AckBetween(log, i, j)
  }

  ghost predicate Inv(s: State) {
    && s.acked == Acknowledged(s.log)
    && ChecksSeparated(s.log)
    && (s.phase == BeforeFirst ==> Count(s.log, Check) == 0)
    && (s.phase == Waiting || s.phase == Sending ==> Count(s.log, Check) > 0)
    && Count(s.log, Check) <= Count(s.log, Ack) + (if s.acked then 0 else 1)
    && Count(s.log, Beat) + (if s.phase == Sending then 1 else 0) <= Count(s.log, Check)
  }

  lemma {:induction false} AcknowledgedHasAck(log: seq<Mark>, i: nat)
    requires Acknowledged(log) && i < |log| && log[i] == Check
    ensures AckBetween(log, i, |log|)
  {
    var last := |log| - 1;
    if log[last] == Ack {
      assert i < last;
    } else {
      var init := log[..last];
      AcknowledgedHasAck(init, i);
      var k :| i < k < |init| && 0 <= k < |init| && init[k] == Ack;
      assert log[k] == Ack;
    }
  }

  lemma {:induction false} NoChecks(log: seq<Mark>, i: nat)
    requires Count(log, Check) == 0 && i < |log|
    ensures log[i] != Check
  {
    if i < |log| - 1 {
      NoChecks(log[..|log| - 1], i);
    }
  }

  lemma SeparatedSnoc(log: seq<Mark>, x: Mark)
    requires ChecksSeparated(log)
    requires x == Check ==> forall i :: 0 <= i < |log| && log[i] == Check ==> AckBetween(log, i, |log|)
    ensures ChecksSeparated(log + [x])
  {
    var longer := log + [x];
    forall i, j | 0 <= i < j < |longer| && longer[i] == Check && longer[j] == Check
      ensures AckBetween(longer, i, j)
    {
      assert longer[i] == log[i];
      if j < |log| {
        assert longer[j] == log[j] && AckBetween(log, i, j);
      }
      var k :| i < k < j && 0 <= k < |log| && log[k] == Ack;
      assert longer[k] == Ack;
    }
  }

  lemma StepKeepsInv(s: State, a: Action)
    requires Inv(s) && Enabled(s, a)
    ensures Inv(Apply(s, a))
  {
    hide ChecksSeparated, AckBetween, Count;
    var t := Apply(s, a);
    if t.log != s.log {
      var x := t.log[|t.log| - 1];
      assert t.log == s.log + [x] && t.log[..|s.log|] == s.log;
      CountSnoc(s.log, x, Check);
      CountSnoc(s.log, x, Ack);
      CountSnoc(s.log, x, Beat);
      if x == Check {
        forall i: nat | i < |s.log| && s.log[i] == Check ensures AckBetween(s.log, i, |s.log|) {
          if a.FirstTick? {
            NoChecks(s.log, i);
          } else {
            AcknowledgedHasAck(s.log, i);
          }
        }
      }
      SeparatedSnoc(s.log, x);
    }
  }

  ghost predicate IsRun(states: seq<State>, actions: seq<Action>) {
    && |states| == |actions| + 1
    && states[0] == Initial()
    && forall i :: 0 <= i < |actions| ==>
         Enabled(states[i], actions[i]) && states[i + 1] == Apply(states[i], actions[i])
  }

  lemma {:induction false} EveryStateSound(states: seq<State>, actions: seq<Action>, i: nat)
    requires IsRun(states, actions) && i < |states|
    ensures Inv(states[i])
  {
    if i > 0 {
      EveryStateSound(states, actions, i - 1);
      StepKeepsInv(states[i - 1], actions[i - 1]);
    }
  }

  /** Timer heartbeats never outrun acknowledgements by more than one, and an ACK lies between any two. */
  lemma HeartbeatsNeedAcks(states: seq<State>, actions: seq<Action>, i: nat)
    requires IsRun(states, actions) && i < |states|
    ensures Count(states[i].log, Beat) <= Count(states[i].log, Check) <= Count(states[i].log, Ack) + 1
    ensures ChecksSeparated(states[i].log)
  {
    EveryStateSound(states, actions, i);
  }

  ghost predicate NoAckSince(log: seq<Mark>, i: nat) {
    forall k :: i < k < |log| ==> log[k] != Ack
  }

  /**
    * A later tick goes ahead exactly when the flag was last touched by an ACK; otherwise the loop ends,
    * as it does whenever no ACK has been processed since some earlier check.
    */
  lemma TickContinuesIffAcknowledged(states: seq<State>, actions: seq<Action>, i: nat)
    requires IsRun(states, actions) && i < |actions| && actions[i].Tick?
    ensures states[i + 1].phase == (if Acknowledged(states[i].log) then Sending else Ended)
    ensures forall c: nat :: c < |states[i].log| && states[i].log[c] == Check && NoAckSince(states[i].log, c) ==>
      states[i + 1].phase == Ended
  {
    EveryStateSound(states, actions, i);
    var log := states[i].log;
    forall c: nat | c < |log| && log[c] == Check && NoAckSince(log, c) ensures !Acknowledged(log) {
      if Acknowledged(log) {
        AcknowledgedHasAck(log, c);
      }
    }
  }

  // ----- heartbeats on the wire -----

  /** Any stretch of an execution. */
  ghost predicate IsPath(states: seq<State>, actions: seq<Action>) {
    && |states| == |actions| + 1
    && forall i :: 0 <= i < |actions| ==>
         Enabled(states[i], actions[i]) && states[i + 1] == Apply(states[i], actions[i])
  }

  /** From one heartbeat leaving to another. */
  ghost predicate BeatToBeat(actions: seq<Action>) {
    |actions| >= 2 && actions[0] == SendBeat && actions[|actions| - 1] == SendBeat
  }

  /** However it goes on once this heartbeat leaves, no other leaves before an ACK has been processed. */
  ghost predicate NextAwaitsAck(s: State) {
    forall states, actions ::
      IsPath(states, actions) && states[0] == s && BeatToBeat(actions) ==> ServerAcks in actions
  }

  /** With the flag down and no ACK, the flag stays down and no later tick goes ahead. */
  lemma {:induction false} NoAckNoBeat(states: seq<State>, actions: seq<Action>, i: nat)
    requires IsPath(states, actions) && |actions| >= 1 && actions[0] == SendBeat && !states[0].acked
    requires ServerAcks !in actions && 1 <= i <= |actions|
    ensures !states[i].acked && (states[i].phase == Waiting || states[i].phase == Ended)
  {
    if i > 1 {
      NoAckNoBeat(states, actions, i - 1);
      assert actions[i - 1] in actions;
    }
  }

  /** A flag already up when the heartbeat leaves lets the next follow at once. */
  lemma RaisedFlagLetsNextFollow(s: State) returns (states: seq<State>, actions: seq<Action>)
    requires s.phase == Sending && s.acked
    ensures IsPath(states, actions) && states[0] == s && actions == [SendBeat, Tick, SendBeat]
    ensures states[|states| - 1].log == s.log + [Beat, Check, Beat]
  {
    actions := [SendBeat, Tick, SendBeat];
    var s1 := Apply(s, actions[0]);
    var s2 := Apply(s1, actions[1]);
    var s3 := Apply(s2, actions[2]);
    states := [s, s1, s2, s3];
  }

  /** An ACK must come before the next heartbeat if and only if none had come when this one left. */
  lemma NextAwaitsAckIff(s: State)
    requires s.phase == Sending
    ensures NextAwaitsAck(s) <==> !s.acked
  {
    if s.acked {
      var states, actions := RaisedFlagLetsNextFollow(s);
      assert BeatToBeat(actions) && ServerAcks !in actions;
    } else {
      forall states, actions | IsPath(states, actions) && states[0] == s && BeatToBeat(actions)
        ensures ServerAcks in actions
      {
        if ServerAcks !in actions {
          NoAckNoBeat(states, actions, |actions| - 1);
        }
      }
    }
  }

  ghost predicate BeatsSeparated(log: seq<Mark>) {
    forall i, j :: 0 <= i < j < |log| && log[i] == Beat && log[j] == Beat ==> AckBetween(log, i, j)
  }

  ghost predicate BeatsAnswered(log: seq<Mark>) {
    forall i :: 0 <= i < |log| && log[i] == Beat ==> AckBetween(log, i, |log|)
  }

  /** In every run so far: an ACK between any two heartbeats, and one after the last before the next can leave. */
  ghost predicate BeatsInv(s: State) {
    && BeatsSeparated(s.log)
    && (s.phase == BeforeFirst ==> Beat !in s.log)
    && (s.phase == Sending || (s.phase == Waiting && s.acked) ==> BeatsAnswered(s.log))
  }

  lemma AnsweredSnoc(log: seq<Mark>, x: Mark)
    requires x != Beat && (x == Ack || BeatsAnswered(log))
    ensures BeatsAnswered(log + [x])
  {
    var longer := log + [x];
    forall i | 0 <= i < |longer| && longer[i] == Beat ensures AckBetween(longer, i, |longer|) {
      assert longer[i] == log[i];
      if x == Ack {
        assert longer[|log|] == Ack;
      } else {
        var k :| i < k < |log| && 0 <= k < |log| && log[k] == Ack;
        assert longer[k] == Ack;
      }
    }
  }

  lemma BeatsSnoc(log: seq<Mark>, x: Mark)
    requires BeatsSeparated(log) && (x == Beat ==> BeatsAnswered(log))
    ensures BeatsSeparated(log + [x])
  {
    var longer := log + [x];
    forall i, j | 0 <= i < j < |longer| && longer[i] == Beat && longer[j] == Beat
      ensures AckBetween(longer, i, j)
    {
      assert longer[i] == log[i];
      if j < |log| {
        assert longer[j] == log[j] && AckBetween(log, i, j);
      }
      var k :| i < k < j && 0 <= k < |log| && log[k] == Ack;
      assert longer[k] == Ack;
    }
  }

  lemma StepKeepsBeats(s: State, a: Action)
    requires BeatsInv(s) && Enabled(s, a) && !(a.SendBeat? && s.acked)
    ensures BeatsInv(Apply(s, a))
  {
    hide BeatsSeparated, AckBetween;
    var t := Apply(s, a);
    if t.log != s.log {
      var x := t.log[|t.log| - 1];
      assert t.log == s.log + [x];
      BeatsSnoc(s.log, x);
      if x != Beat && (x == Ack || BeatsAnswered(s.log)) {
        AnsweredSnoc(s.log, x);
      }
    }
  }

  /**
    * What the check of the flag is for, as far as the code achieves it: in a run in which no ACK slips in
    * between a check and its heartbeat leaving, an ACK lies between any two heartbeats on the wire.
    */
  lemma {:induction false} BeatsNeedAcksUnlessEarly(states: seq<State>, actions: seq<Action>, i: nat)
    requires IsRun(states, actions) && i < |states|
    requires forall k :: 0 <= k < i && actions[k].SendBeat? ==> !states[k].acked
    ensures BeatsInv(states[i])
  {
    if i > 0 {
      BeatsNeedAcksUnlessEarly(states, actions, i - 1);
      StepKeepsBeats(states[i - 1], actions[i - 1]);
    }
  }

  /**
    * The ACK lies between two checks of the flag, not always between two heartbeats on the wire: one
    * that arrives after the flag is cleared but before the heartbeat leaves lets the next one follow.
    */
  lemma EarlyAckLetsTwoFollow() returns (states: seq<State>, actions: seq<Action>)
    ensures IsRun(states, actions)
    ensures states[|states| - 1].log == [Check, Ack, Beat, Check, Beat]
  {
    actions := [FirstTick, ServerAcks, SendBeat, Tick, SendBeat];
    var s0 := Initial();
    var s1 := Apply(s0, actions[0]);
    var s2 := Apply(s1, actions[1]);
    var s3 := Apply(s2, actions[2]);
    var s4 := Apply(s3, actions[3]);
    var s5 := Apply(s4, actions[4]);
    states := [s0, s1, s2, s3, s4, s5];
  }
}
