/**
  * Many requests at once: the semaphore, and the one message sender that all runs share
  * (internal/daemon). Each handler makes its calls as StreamHandler.Server.HandleStream has it; here
  * they interleave call by call.
  */
module Admission {
  import opened Sequences
  import Batching
  import opened Batcher
  import opened StreamHandler
  import Protocol

  /** A request and the calls its handler will make once admitted, each with its outcome, on which the next depend. */
  datatype Job = Job(req: Request, sent: seq<Attempt>, trace: Trace)

  /** Where a request is; a Running one holds a slot. */
  datatype Phase = Waiting | Refused | Running | Done

  /** `progress[r]` is how many of its calls run r has made; `log` is what the sender was called for, by whom. */
  datatype State = State(phases: seq<Phase>, progress: seq<nat>, slots: nat, log: seq<(nat, Attempt)>)

  datatype Action =
    | Admit(run: nat)          // a slot is free
    | TurnAway(run: nat)       // no slot is free
    | Reject(run: nat)         // the credentials are wrong; no slot is asked for
    | Send(run: nat)           // the next call
    | Leave(run: nat)          // the handler returns and gives its slot back

  ghost predicate Fits(jobs: seq<Job>, s: State) {
    |s.phases| == |s.progress| == |jobs|
  }

  ghost predicate Enabled(limit: nat, jobs: seq<Job>, s: State, a: Action) {
    && Fits(jobs, s) && a.run < |jobs|
    && var p := s.phases[a.run];
       match a
       case Admit(r) => p == Waiting && jobs[r].req.authorized && s.slots < limit
       case TurnAway(r) => p == Waiting && jobs[r].req.authorized && s.slots >= limit
       case Reject(r) => p == Waiting && !jobs[r].req.authorized
       case Send(r) => p == Running && s.progress[r] < |jobs[r].sent|
       case Leave(r) => p == Running && s.progress[r] == |jobs[r].sent|
  }

  function Moved(s: State, run: nat, p: Phase): State
    requires run < |s.phases|
  {
    s.(phases := s.phases[run := p])
  }

  function Apply(limit: nat, jobs: seq<Job>, s: State, a: Action): State
    requires Enabled(limit, jobs, s, a)
  {
    match a
    case Admit(r) => Moved(s, r, Running).(slots := s.slots + 1)
    case TurnAway(r) => Moved(s, r, Refused)
    case Reject(r) => Moved(s, r, Refused)
    case Send(r) =>
      s.(progress := s.progress[r := s.progress[r] + 1], log := s.log + [(r, jobs[r].sent[s.progress[r]])])
    case Leave(r) => Moved(s, r, Done).(slots := if s.slots == 0 then 0 else s.slots - 1)
  }

  function Initial(jobs: seq<Job>): State {
    State(seq(|jobs|, _ => Waiting), seq(|jobs|, _ => 0), 0, [])
  }

  // ----- slots -----

  function Holders(s: State): set<nat> {
    set r: nat | r < |s.phases| && s.phases[r] == Running
  }

  ghost predicate SlotsExact(limit: nat, s: State) {
    s.slots == |Holders(s)| && s.slots <= limit
  }

  lemma HoldersAfterMove(s: State, r: nat, p: Phase)
    requires r < |s.phases|
    ensures Holders(Moved(s, r, p)) == if p == Running then Holders(s) + {r} else Holders(s) - {r}
  {
    assert forall q :: 0 <= q < |s.phases| && q != r ==> Moved(s, r, p).phases[q] == s.phases[q];
  }

  lemma StepKeepsSlots(limit: nat, jobs: seq<Job>, s: State, a: Action)
    requires SlotsExact(limit, s) && Enabled(limit, jobs, s, a)
    ensures SlotsExact(limit, Apply(limit, jobs, s, a))
  {
    hide Holders;
    var r := a.run;
    var t := Apply(limit, jobs, s, a);
    HolderIff(s, r);
    if a.Send? {
      SameHolders(s, t);
    } else {
      HoldersAfterMove(s, r, t.phases[r]);
      SameHolders(t, Moved(s, r, t.phases[r]));
    }
  }

  lemma HolderIff(s: State, r: nat)
    requires r < |s.phases|
    ensures r in Holders(s) <==> s.phases[r] == Running
  {
  }

  lemma SameHolders(s: State, t: State)
    requires s.phases == t.phases
    ensures Holders(s) == Holders(t)
  {
  }

  // ----- what the sender sees of each run -----

  /** The calls of one run, in the order made. */
  function Of(log: seq<(nat, Attempt)>, run: nat): seq<Attempt> {
    if log == [] then []
    else Of(log[..|log| - 1], run) + (if log[|log| - 1].0 == run then [log[|log| - 1].1] else [])
  }

  lemma OfSnoc(log: seq<(nat, Attempt)>, x: (nat, Attempt), run: nat)
    ensures Of(log + [x], run) == Of(log, run) + (if x.0 == run then [x.1] else [])
  {
    assert (log + [x])[..|log|] == log;
  }

  /** A run has made the first so many of its calls: none before it is admitted, all when it has returned. */
  ghost predicate Progressed(job: Job, phase: Phase, progress: nat, calls: seq<Attempt>) {
    && progress <= |job.sent| && calls == job.sent[..progress]
    && (phase == Waiting || phase == Refused ==> progress == 0)
    && (phase == Done ==> progress == |job.sent|)
    && (phase == Running || phase == Done ==> job.req.authorized)
  }

  ghost predicate CallsExact(jobs: seq<Job>, s: State) {
    && Fits(jobs, s)
    && (forall x :: x in s.log ==> x.0 < |jobs|)
    && (forall r :: 0 <= r < |jobs| ==> Progressed(jobs[r], s.phases[r], s.progress[r], Of(s.log, r)))
  }

  lemma StepKeepsCalls(limit: nat, jobs: seq<Job>, s: State, a: Action)
    requires CallsExact(jobs, s) && Enabled(limit, jobs, s, a)
    ensures CallsExact(jobs, Apply(limit, jobs, s, a))
  {
    hide Of;
    var t := Apply(limit, jobs, s, a);
    forall r | 0 <= r < |jobs| ensures Progressed(jobs[r], t.phases[r], t.progress[r], Of(t.log, r)) {
      assert Progressed(jobs[r], s.phases[r], s.progress[r], Of(s.log, r));
      if a.Send? {
        var sent, n := jobs[a.run].sent, s.progress[a.run];
        OfSnoc(s.log, (a.run, sent[n]), r);
        assert sent[..n] + [sent[n]] == sent[..n + 1];
      }
    }
  }

  ghost predicate IsRun(limit: nat, jobs: seq<Job>, states: seq<State>, actions: seq<Action>) {
    && |states| == |actions| + 1
    && states[0] == Initial(jobs)
    && forall i :: 0 <= i < |actions| ==>
         Enabled(limit, jobs, states[i], actions[i]) && states[i + 1] == Apply(limit, jobs, states[i], actions[i])
  }

  /** However the requests interleave, slots are counted exactly and each run's calls arrive in its own order. */
  lemma {:induction false} EveryStateSound(limit: nat, jobs: seq<Job>, states: seq<State>, actions: seq<Action>, i: nat)
    requires IsRun(limit, jobs, states, actions) && i < |states|
    ensures SlotsExact(limit, states[i]) && CallsExact(jobs, states[i])
  {
    if i == 0 {
      assert Holders(states[0]) == {};
    } else {
      hide SlotsExact, CallsExact, Enabled, Apply;
      EveryStateSound(limit, jobs, states, actions, i - 1);
      StepKeepsSlots(limit, jobs, states[i - 1], actions[i - 1]);
      StepKeepsCalls(limit, jobs, states[i - 1], actions[i - 1]);
    }
  }

  // ----- the order of parts, on the right channel -----

  /** Every job is what the handler makes of its request. */
  ghost predicate Served(cfg: ServerConfig, wording: Wording, jobs: seq<Job>) {
    forall j :: j in jobs ==> Serves(cfg, wording, j.req, j.sent, j.trace)
  }

  /** Beyond the start parts the log messages are those of a batcher that was offered this run's output. */
  ghost predicate OwnBatch(cfg: ServerConfig, wording: Wording, start: Protocol.Event, items: seq<Item>,
                           calls: seq<Call>, trace: Trace)
  {
    || calls <= StartParts(wording, start)
    || (&& Relayed(trace) && Batching.Inv(BatchConfig(cfg, start), trace.batch)
        && trace.batch.offered == Offered(items[..ReadPrefix(start, items)]))
  }

  lemma InOrderIsPrefix(cfg: ServerConfig, wording: Wording, start: Protocol.Event, items: seq<Item>,
                        sent: seq<Attempt>, trace: Trace)
    requires SentInOrder(cfg, wording, start, items, sent, trace)
    ensures Calls(sent) <= WholeRecord(cfg, wording, start, items, trace)
    ensures OwnBatch(cfg, wording, start, items, Calls(sent), trace)
  {
    hide StartParts, LogCalls, ClosingParts, Batching.Inv, Offered, ReadPrefix, Calls, AllOk;
    SentInFull(StartParts(wording, start), trace.starts);
    CallsAppend(trace.starts, trace.logs);
    CallsAppend(trace.starts + trace.logs, trace.closing);
    if !AllOk(trace.starts) {
      assert sent == trace.starts;
    }
  }

  /** One run as the shared sender has seen it so far. */
  ghost predicate SeenInOrder(cfg: ServerConfig, wording: Wording, job: Job, calls: seq<Call>) {
    calls != [] ==>
      && Admissible(cfg, job.req)
      && calls <= WholeRecord(cfg, wording, job.req.body[0].event, job.req.body[1..], job.trace)
      && OwnBatch(cfg, wording, job.req.body[0].event, job.req.body[1..], calls, job.trace)
      && FitFor(job.req.body[0].event.channelID, calls)
  }

  /** A run that has returned: its whole record was sent, or the last message it sent failed. */
  ghost predicate SeenInFull(cfg: ServerConfig, wording: Wording, job: Job, sent: seq<Attempt>) {
    if Admissible(cfg, job.req) then
      && sent != []
      && (Calls(sent) == WholeRecord(cfg, wording, job.req.body[0].event, job.req.body[1..], job.trace)
          || !sent[|sent| - 1].ok)
    else
      sent == []
  }

  lemma PrefixSeen(cfg: ServerConfig, wording: Wording, job: Job, n: nat)
    requires Serves(cfg, wording, job.req, job.sent, job.trace) && n <= |job.sent|
    requires ValidServer(cfg)
    ensures SeenInOrder(cfg, wording, job, Calls(job.sent[..n]))
  {
    hide SentInOrder, WholeRecord, ValidStart, FitFor, OwnBatch;
    if n > 0 {
      var start, items := job.req.body[0].event, job.req.body[1..];
      InOrderIsPrefix(cfg, wording, start, items, job.sent, job.trace);
      assert Calls(job.sent[..n]) == Calls(job.sent)[..n];
      OwnBatchPrefix(cfg, wording, start, items, Calls(job.sent), n, job.trace);
      EveryMessageFits(cfg, wording, start, items, job.sent, job.trace);
      PrefixFits(start.channelID, Calls(job.sent)[..n], Calls(job.sent));
    }
  }

  /** A long message has at least one part, and the start message comes first. */
  lemma SomethingSent(cfg: ServerConfig, wording: Wording, job: Job)
    requires Admissible(cfg, job.req) && Serves(cfg, wording, job.req, job.sent, job.trace)
    ensures job.sent != []
  {
    hide ValidStart, RelayedInOrder, AllOk;
    assert StartParts(wording, job.req.body[0].event) != [];
    assert job.trace.starts != [];
  }

  lemma OwnBatchPrefix(cfg: ServerConfig, wording: Wording, start: Protocol.Event, items: seq<Item>,
                       calls: seq<Call>, n: nat, trace: Trace)
    requires OwnBatch(cfg, wording, start, items, calls, trace) && n <= |calls|
    ensures OwnBatch(cfg, wording, start, items, calls[..n], trace)
  {
    hide StartParts, Batching.Inv, Offered, ReadPrefix;
  }

  /** The bounds the daemon's configuration enforces. */
  predicate ValidServer(cfg: ServerConfig) {
    256 <= cfg.maxLogChunkBytes <= 1800 && cfg.queueSize >= 1
  }

  /**
    * For every interleaving: the shared sender has seen, of each run, the first so many of its start
    * parts, log messages and closing parts, in that order, all on the channel of its own start event and
    * at most 1900 bytes long; nothing of a run not admitted; and of one that has returned its whole
    * record, unless the last of its messages failed.
    */
  lemma RunsSeenInOrder(cfg: ServerConfig, wording: Wording, jobs: seq<Job>,
                        states: seq<State>, actions: seq<Action>, i: nat, r: nat)
    requires IsRun(cfg.maxConcurrentRuns, jobs, states, actions) && i < |states| && r < |jobs|
    requires Served(cfg, wording, jobs) && ValidServer(cfg)
    ensures r < |states[i].phases|
    ensures var sent := Of(states[i].log, r);
      && SeenInOrder(cfg, wording, jobs[r], Calls(sent))
      && (states[i].phases[r] == Waiting || states[i].phases[r] == Refused ==> sent == [])
      && (states[i].phases[r] == Done ==> SeenInFull(cfg, wording, jobs[r], sent))
  {
    hide IsRun, Of, SeenInOrder, Serves, WholeRecord, Calls, AllOk, Admissible;
    EveryStateSound(cfg.maxConcurrentRuns, jobs, states, actions, i);
    assert Progressed(jobs[r], states[i].phases[r], states[i].progress[r], Of(states[i].log, r));
    assert jobs[r] in jobs;
    PrefixSeen(cfg, wording, jobs[r], states[i].progress[r]);
    FullySeen(cfg, wording, jobs[r]);
    assert jobs[r].sent[..|jobs[r].sent|] == jobs[r].sent;
  }

  lemma FullySeen(cfg: ServerConfig, wording: Wording, job: Job)
    requires Serves(cfg, wording, job.req, job.sent, job.trace)
    ensures SeenInFull(cfg, wording, job, job.sent)
  {
    hide SentInOrder, WholeRecord, ValidStart, Calls, AllOk;
    if Admissible(cfg, job.req) {
      SomethingSent(cfg, wording, job);
      WholeUnlessLastFailed(cfg, wording, job.req, job.sent, job.trace);
    }
  }

  /** If every message of a run that has returned was taken, its whole record is in the shared log. */
  lemma ReturnedRunsAreWhole(cfg: ServerConfig, wording: Wording, jobs: seq<Job>,
                             states: seq<State>, actions: seq<Action>, i: nat, r: nat)
    requires IsRun(cfg.maxConcurrentRuns, jobs, states, actions) && i < |states| && r < |jobs|
    requires Served(cfg, wording, jobs) && ValidServer(cfg)
    ensures r < |states[i].phases|
    ensures states[i].phases[r] == Done && Admissible(cfg, jobs[r].req) && AllOk(Of(states[i].log, r)) ==>
      Calls(Of(states[i].log, r))
      == WholeRecord(cfg, wording, jobs[r].req.body[0].event, jobs[r].req.body[1..], jobs[r].trace)
  {
    hide IsRun, Of, SeenInOrder, WholeRecord, Served, Calls;
    RunsSeenInOrder(cfg, wording, jobs, states, actions, i, r);
  }

  lemma {:induction false} CallIsOfItsRun(log: seq<(nat, Attempt)>, k: nat)
    requires k < |log|
    ensures log[k].1 in Of(log, log[k].0)
  {
    if k < |log| - 1 {
      CallIsOfItsRun(log[..|log| - 1], k);
    }
  }

  /** No call of any run goes to a channel other than the one its start event names. */
  lemma EveryCallOnItsChannel(cfg: ServerConfig, wording: Wording, jobs: seq<Job>,
                              states: seq<State>, actions: seq<Action>, i: nat, k: nat)
    requires IsRun(cfg.maxConcurrentRuns, jobs, states, actions) && i < |states| && k < |states[i].log|
    requires Served(cfg, wording, jobs) && ValidServer(cfg)
    ensures var (r, attempt) := states[i].log[k];
      && r < |jobs| && Admissible(cfg, jobs[r].req)
      && attempt.call.channelID == jobs[r].req.body[0].event.channelID
      && |attempt.call.content| <= LONG_MESSAGE_BYTES
  {
    hide IsRun, Of, WholeRecord, OwnBatch, Served, Progressed, Admissible;
    EveryStateSound(cfg.maxConcurrentRuns, jobs, states, actions, i);
    var (r, attempt) := states[i].log[k];
    assert states[i].log[k] in states[i].log;
    CallIsOfItsRun(states[i].log, k);
    RunsSeenInOrder(cfg, wording, jobs, states, actions, i, r);
    assert attempt.call in Calls(Of(states[i].log, r)) by {
      AttemptedCall(Of(states[i].log, r), attempt);
    }
  }

  lemma AttemptedCall(sent: seq<Attempt>, a: Attempt)
    requires a in sent
    ensures a.call in Calls(sent)
  {
    var i :| 0 <= i < |sent| && sent[i] == a;
    assert Calls(sent)[i] == a.call;
  }

  /** Every path gives its slot back: with all handlers gone, or not yet admitted, none is taken. */
  lemma AllSlotsReturned(limit: nat, jobs: seq<Job>, states: seq<State>, actions: seq<Action>, i: nat)
    requires IsRun(limit, jobs, states, actions) && i < |states|
    requires forall p :: p in states[i].phases ==> p != Running
    ensures states[i].slots == 0
  {
    EveryStateSound(limit, jobs, states, actions, i);
    forall r: nat | r < |states[i].phases| ensures r !in Holders(states[i]) {
      assert states[i].phases[r] in states[i].phases;
    }
    assert Holders(states[i]) == {};
  }

  /** A request is turned away only while as many runs as the limit allows are in progress. */
  lemma TurnedAwayOnlyWhenFull(limit: nat, jobs: seq<Job>, states: seq<State>, actions: seq<Action>, i: nat)
    requires IsRun(limit, jobs, states, actions) && i < |actions| && actions[i].TurnAway?
    ensures |Holders(states[i])| == limit
  {
    EveryStateSound(limit, jobs, states, actions, i);
  }
}
