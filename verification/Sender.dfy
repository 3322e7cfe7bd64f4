/** The retrying Discord sender against an arbitrary server and an arbitrary monotone clock (internal/discord). */
module Sender {
  import opened Sequences

  /** Times and durations are in nanoseconds. */
  const MILLISECOND := 1_000_000

  /**
    * The outcome of one request. `reset` is the rate window when the server says none remain;
    * `bodyWait` and `headerWait` are the two ways a 429 names its delay.
    */
  datatype Reply =
    | NetworkError
    | Unreadable
    | Answer(status: int, reset: Option<nat>, bodyWait: int, headerWait: nat)

  predicate Succeeded(r: Reply) {
    r.Answer? && 200 <= r.status < 300
  }

  predicate RateLimited(r: Reply) {
    r.Answer? && r.status == 429
  }

  /** After such an outcome the sender tries again, if it has tries left. */
  predicate Retryable(r: Reply) {
    r.NetworkError? || RateLimited(r) || (r.Answer? && r.status >= 500)
  }

  function RetryBackoff(attempt: nat): (d: nat)
    ensures d > 0
  {
    Power2(Min(attempt, 5)) * 250 * MILLISECOND
  }

  /** A quarter of a second, doubled up to eight seconds. */
  lemma BackoffTable(attempt: nat)
    ensures attempt == 0 ==> RetryBackoff(attempt) == 250_000_000
    ensures attempt < 5 ==> RetryBackoff(attempt + 1) == 2 * RetryBackoff(attempt)
    ensures attempt >= 5 ==> RetryBackoff(attempt) == 8_000_000_000
  {
    assert Power2(5) == 32 by {
      assert Power2(3) == 8;
    }
  }

  /** How long a 429 asks to wait: the longer of the two figures, the backoff if neither is positive. */
  function LimitWait(r: Reply, attempt: nat): (w: int)
    requires RateLimited(r)
    ensures w > 0
  {
    var wait := if r.headerWait > r.bodyWait then r.headerWait else r.bodyWait;
    if wait <= 0 then RetryBackoff(attempt) else wait
  }

  /** The earliest next request, as left by a reply looked at first at `seen` and then at `later`. */
  function NextSendAfter(due: int, r: Reply, attempt: nat, seen: int, later: int): int {
    if !r.Answer? then due
    else if RateLimited(r) then later + LimitWait(r, attempt)
    else if r.reset.Some? then seen + r.reset.value
    else due
  }

  /**
    * One request: when it was due, when it was issued, its outcome, the two clock readings taken while
    * handling that, and when the next is due.
    */
  datatype Try = Try(due: int, at: int, reply: Reply, seen: int, later: int, nextDue: int)

  function BackoffAfter(r: Reply, attempt: nat): nat {
    if r.NetworkError? || (r.Answer? && r.status >= 500) then RetryBackoff(attempt) else 0
  }

  /** The explicit sleeps between these tries; there is none after the last. */
  function SleptBetween(tries: seq<Try>): nat {
    if |tries| <= 1 then 0
    else SleptBetween(tries[..|tries| - 1]) + BackoffAfter(tries[|tries| - 2].reply, |tries| - 2)
  }

  // ----- what a call promises -----

  ghost predicate WellPaced(tries: seq<Try>, firstDue: int) {
    && (tries != [] ==> tries[0].due == firstDue)
    && (forall k :: 0 <= k < |tries| ==> PacedTry(tries[k], k))
    && (forall k :: 0 <= k < |tries| - 1 ==>
          && tries[k].nextDue == tries[k + 1].due
          && tries[k].later + BackoffAfter(tries[k].reply, k) <= tries[k + 1].at)
  }

  ghost predicate PacedTry(t: Try, attempt: nat) {
    && t.due <= t.at <= t.seen <= t.later
    && t.nextDue == NextSendAfter(t.due, t.reply, attempt, t.seen, t.later)
  }

  lemma WellPacedSnoc(tries: seq<Try>, firstDue: int, t: Try)
    requires WellPaced(tries, firstDue) && PacedTry(t, |tries|)
    requires if tries == [] then t.due == firstDue
             else && t.due == tries[|tries| - 1].nextDue
                  && tries[|tries| - 1].later + BackoffAfter(tries[|tries| - 1].reply, |tries| - 1) <= t.at
    ensures WellPaced(tries + [t], firstDue)
  {
    hide PacedTry, BackoffAfter;
    var all := tries + [t];
    forall k | 0 <= k < |all| ensures PacedTry(all[k], k) {
      assert k < |tries| ==> all[k] == tries[k];
    }
  }

  lemma NextDueLater(t: Try, attempt: nat)
    requires PacedTry(t, attempt)
    ensures t.due <= t.nextDue
  {
  }

  ghost predicate RetriedOnly(tries: seq<Try>) {
    forall k :: 0 <= k < |tries| - 1 ==> Retryable(tries[k].reply)
  }

  /** The tries end for a reason: an outcome that is not retried, or no try left. */
  ghost predicate Complete(tries: seq<Try>, maxRetries: nat) {
    && 1 <= |tries| <= maxRetries + 1
    && RetriedOnly(tries)
    && (|tries| <= maxRetries ==> !Retryable(tries[|tries| - 1].reply))
  }

  // ----- the same, told from the replies alone -----

  /** This time respects what the reply asks for: the window of its headers, or both waits of a 429. */
  ghost predicate Heeds(t: Try, at: int) {
    match t.reply
    case Answer(status, reset, bodyWait, headerWait) =>
      && (status != 429 && reset.Some? ==> at >= t.seen + reset.value)
      && (status == 429 ==> at > t.later && at >= t.later + bodyWait && at >= t.later + headerWait)
    case _ => true
  }

  /** When the next request is due, case by case. */
  ghost predicate DueByReply(t: Try, attempt: nat) {
    match t.reply
    case Answer(status, reset, bodyWait, headerWait) =>
      if status == 429 then
        if bodyWait > 0 || headerWait > 0 then t.nextDue == t.later + Max(bodyWait, headerWait)
        else t.nextDue == t.later + RetryBackoff(attempt)
      else t.nextDue == if reset.Some? then t.seen + reset.value else t.due
    case _ => t.nextDue == t.due
  }

  lemma PacedByReply(t: Try, attempt: nat)
    requires PacedTry(t, attempt)
    ensures DueByReply(t, attempt) && Heeds(t, t.nextDue)
  {
  }

  /** Every later request of a call heeds every earlier reply. */
  ghost predicate AllHeeded(tries: seq<Try>) {
    forall j, k :: 0 <= j < k < |tries| ==> Heeds(tries[j], tries[k].at)
  }

  lemma {:induction false} DueGrows(tries: seq<Try>, firstDue: int, j: nat, k: nat)
    requires WellPaced(tries, firstDue) && j <= k < |tries|
    ensures tries[j].due <= tries[k].due
    decreases k - j
  {
    if j < k {
      DueGrows(tries, firstDue, j, k - 1);
      NextDueLater(tries[k - 1], k - 1);
      assert tries[k - 1].nextDue == tries[k - 1 + 1].due;
    }
  }

  lemma WellPacedHeeds(tries: seq<Try>, firstDue: int)
    requires WellPaced(tries, firstDue)
    ensures AllHeeded(tries)
    ensures tries != [] ==> Heeds(tries[|tries| - 1], tries[|tries| - 1].nextDue)
  {
    hide PacedTry;
    forall j, k | 0 <= j < k < |tries| ensures Heeds(tries[j], tries[k].at) {
      PacedByReply(tries[j], j);
      DueGrows(tries, firstDue, j + 1, k);
      assert tries[j].nextDue == tries[j + 1].due;
      DueBeforeIssue(tries[k], k);
      HeedsLater(tries[j], tries[j].nextDue, tries[k].at);
    }
    if tries != [] {
      PacedByReply(tries[|tries| - 1], |tries| - 1);
    }
  }

  lemma DueBeforeIssue(t: Try, attempt: nat)
    requires PacedTry(t, attempt)
    ensures t.due <= t.at
  {
  }

  lemma HeedsLater(t: Try, a: int, b: int)
    requires Heeds(t, a) && a <= b
    ensures Heeds(t, b)
  {
  }

  /** A call tries again only after a network error, a 429 or a server error, and as often as it may. */
  ghost predicate RetriedRightly(tries: seq<Try>, maxRetries: nat) {
    && 1 <= |tries| <= maxRetries + 1
    && (forall k :: 0 <= k < |tries| - 1 ==>
          var r := tries[k].reply; r.NetworkError? || (r.Answer? && (r.status == 429 || r.status >= 500)))
    && (|tries| < maxRetries + 1 ==>
          var r := tries[|tries| - 1].reply; r.Unreadable? || (r.Answer? && r.status != 429 && r.status < 500))
  }

  lemma CompleteIsRight(tries: seq<Try>, maxRetries: nat)
    requires Complete(tries, maxRetries)
    ensures RetriedRightly(tries, maxRetries)
  {
  }

  class Sender {
    const maxRetries: nat
    const replies: nat -> Reply      // the k-th request's outcome
    const elapses: nat -> nat        // how much time passes at the k-th occasion
    var nextSend: int
    var now: int
    var occasions: nat
    var requests: nat
    var slept: nat                   // explicit backoff, all calls together

    constructor (maxRetries: nat, replies: nat -> Reply, elapses: nat -> nat, now: int)
      ensures this.maxRetries == maxRetries && this.replies == replies && this.elapses == elapses
      ensures this.now == now && nextSend <= now && requests == 0 && slept == 0
    {
      this.maxRetries, this.replies, this.elapses, this.now := maxRetries, replies, elapses, now;
      nextSend, occasions, requests, slept := now, 0, 0, 0;
    }

    method Pass(atLeast: int)
      modifies this`now, this`occasions
      ensures now >= old(now) && now >= old(now) + atLeast
    {
      now := now + Max(atLeast, 0) + elapses(occasions);
      occasions := occasions + 1;
    }

    method Backoff(attempt: nat)
      modifies this`now, this`occasions, this`slept
      ensures slept == old(slept) + RetryBackoff(attempt) && now >= old(now) + RetryBackoff(attempt)
    {
      Pass(RetryBackoff(attempt));
      slept := slept + RetryBackoff(attempt);
    }

    method UpdateRateWindow(r: Reply)
      requires r.Answer?
      modifies this`nextSend
      ensures nextSend == if r.reset.Some? then now + r.reset.value else old(nextSend)
    {
      if r.reset.Some? {
        nextSend := now + r.reset.value;
      }
    }

    /** Waits until the next request is due, makes it, and takes in what the reply says about the next. */
    method OneTry(attempt: nat) returns (reply: Reply, ghost t: Try)
      modifies this`nextSend, this`now, this`occasions, this`requests
      ensures requests == old(requests) + 1 && reply == replies(old(requests)) == t.reply
      ensures PacedTry(t, attempt) && t.due == old(nextSend) && nextSend == t.nextDue
      ensures old(now) <= t.at && t.later <= now && old(now) <= now
      ensures DueByReply(t, attempt) && Heeds(t, nextSend)
    {
      hide LimitWait, DueByReply, Heeds;
      if nextSend - now > 0 {
        Pass(nextSend - now);
      }
      ghost var due, at := nextSend, now;
      reply := replies(requests);
      requests := requests + 1;
      Pass(0);
      ghost var seen := now;
      if reply.Answer? {
        UpdateRateWindow(reply);
        if reply.status == 429 {
          Pass(0);
          nextSend := now + LimitWait(reply, attempt);
        }
      }
      t := Try(due, at, reply, seen, now, nextSend);
      PacedByReply(t, attempt);
    }

    method Send(channelID: string, content: string) returns (ok: bool, ghost tries: seq<Try>)
      modifies this`nextSend, this`now, this`occasions, this`requests, this`slept
      ensures requests == old(requests) + |tries| && now >= old(now)
      ensures channelID == "" ==> !ok && tries == []
      ensures channelID != "" && content == "" ==> ok && tries == []
      ensures channelID != "" && content != "" ==>
        && Complete(tries, maxRetries) && RetriedRightly(tries, maxRetries)
        && var last := tries[|tries| - 1].reply;
           (ok <==> last.Answer? && 200 <= last.status <= 299)
      ensures AllHeeded(tries) && (tries != [] ==> Heeds(tries[|tries| - 1], nextSend))
      ensures forall k :: 0 <= k < |tries| ==> tries[k].reply == replies(old(requests) + k)
      ensures WellPaced(tries, old(nextSend))
      ensures nextSend == if tries == [] then old(nextSend) else tries[|tries| - 1].nextDue
      ensures slept == old(slept) + SleptBetween(tries)
    {
      hide RetryBackoff, LimitWait, WellPaced, PacedTry, SleptBetween, NextSendAfter, Heeds, DueByReply, AllHeeded;
      tries := [];
      NothingTried(nextSend);
      WellPacedHeeds(tries, nextSend);
      if channelID == "" {
        return false, [];
      }
      if content == "" {
        return true, [];
      }
      ok := false;
      var attempt := 0;
      while attempt <= maxRetries
        invariant 0 <= attempt <= maxRetries + 1 && |tries| == attempt && !ok
        invariant requests == old(requests) + |tries| && now >= old(now)
        invariant RetriedOnly(tries) && (tries != [] ==> Retryable(tries[|tries| - 1].reply))
        invariant forall k :: 0 <= k < |tries| ==> tries[k].reply == replies(old(requests) + k)
        invariant WellPaced(tries, old(nextSend))
        invariant 0 < attempt <= maxRetries ==>
          tries[attempt - 1].later + BackoffAfter(tries[attempt - 1].reply, attempt - 1) <= now
        invariant nextSend == if tries == [] then old(nextSend) else tries[|tries| - 1].nextDue
        invariant AllHeeded(tries) && (tries != [] ==> Heeds(tries[|tries| - 1], nextSend))
        invariant slept == old(slept) + SleptBetween(tries)
          + (if 0 < attempt <= maxRetries then BackoffAfter(tries[attempt - 1].reply, attempt - 1) else 0)
        decreases maxRetries + 1 - attempt
      {
        ghost var t;
        var reply;
        reply, t := OneTry(attempt);
        WellPacedSnoc(tries, old(nextSend), t);
        SleptSnoc(tries, t);
        tries := tries + [t];
        WellPacedHeeds(tries, old(nextSend));
        match reply {
          case NetworkError =>
            if attempt == maxRetries {
              return;
            }
            Backoff(attempt);
          case Unreadable =>
            return;
          case Answer(status, _, _, _) =>
            if 200 <= status < 300 {
              return true, tries;
            }
            if status != 429 {
              if status < 500 || attempt == maxRetries {
                return;
              }
              Backoff(attempt);
            }
        }
        attempt := attempt + 1;
      }
    }
  }

  lemma NothingTried(due: int)
    ensures WellPaced([], due) && SleptBetween([]) == 0
  {
  }

  lemma SleptSnoc(tries: seq<Try>, t: Try)
    ensures SleptBetween(tries + [t])
         == SleptBetween(tries) + (if tries != [] then BackoffAfter(tries[|tries| - 1].reply, |tries| - 1) else 0)
  {
    assert (tries + [t])[..|tries|] == tries;
  }

  // ----- what follows for a whole call -----

  /** No request goes out before any time an earlier reply of the call, or an earlier call, asked for. */
  lemma {:induction false} EarlierDemandsHonoured(tries: seq<Try>, firstDue: int, j: nat, k: nat)
    requires WellPaced(tries, firstDue) && j < k < |tries|
    ensures firstDue <= tries[j].due <= tries[j].nextDue <= tries[k].due <= tries[k].at
  {
    DueGrows(tries, firstDue, 0, j);
    NextDueLater(tries[j], j);
    DueGrows(tries, firstDue, j + 1, k);
  }

  function BackoffLimit(n: nat): nat {
    250 * MILLISECOND * (Power2(Min(n, 6)) - 1) + 8000 * MILLISECOND * Max(0, n - 6)
  }

  lemma {:induction false} SleptAtMost(tries: seq<Try>)
    ensures SleptBetween(tries) <= BackoffLimit(if tries == [] then 0 else |tries| - 1)
  {
    if |tries| > 1 {
      SleptAtMost(tries[..|tries| - 1]);
      NextBackoff(|tries| - 2);
    }
  }

  lemma NextBackoff(k: nat)
    ensures BackoffLimit(k) + RetryBackoff(k) == BackoffLimit(k + 1)
  {
    assert Power2(5) == 32 by {
      assert Power2(3) == 8;
    }
    if k < 6 {
      assert Power2(k + 1) == 2 * Power2(k);
    }
  }

  /** A call sleeps at most 250 (2^min(n,6) - 1) + 8000 max(0, n - 6) milliseconds, n its number of retries. */
  lemma BackoffBounded(tries: seq<Try>, maxRetries: nat)
    requires Complete(tries, maxRetries)
    ensures SleptBetween(tries) <= BackoffLimit(maxRetries)
  {
    SleptAtMost(tries);
    LimitGrows(|tries| - 1, maxRetries);
  }

  /** The bound is attained when every retry follows a network or server error. */
  lemma {:induction false} BoundAttained(tries: seq<Try>)
    requires forall k :: 0 <= k < |tries| - 1 ==> BackoffAfter(tries[k].reply, k) == RetryBackoff(k)
    ensures SleptBetween(tries) == BackoffLimit(if tries == [] then 0 else |tries| - 1)
  {
    if |tries| > 1 {
      BoundAttained(tries[..|tries| - 1]);
      NextBackoff(|tries| - 2);
    }
  }

  lemma {:induction false} LimitGrows(a: nat, b: nat)
    requires a <= b
    ensures BackoffLimit(a) <= BackoffLimit(b)
  {
    if a < b {
      LimitGrows(a, b - 1);
      NextBackoff(b - 1);
    }
  }

  /**
    * Two limits in one reply: the documentation promises that rate limits are honoured. The window in
    * the headers of a 429 is kept, whatever the clock does, exactly when the wait the 429 names is no shorter.
    */
  lemma WindowKeptIff(due: int, r: Reply, attempt: nat)
    requires RateLimited(r) && r.reset.Some?
    ensures (forall seen, later :: seen <= later ==>
               NextSendAfter(due, r, attempt, seen, later) >= seen + r.reset.value)
       <==> LimitWait(r, attempt) >= r.reset.value
  {
    hide LimitWait;
    if forall seen, later :: seen <= later ==> NextSendAfter(due, r, attempt, seen, later) >= seen + r.reset.value {
      assert NextSendAfter(due, r, attempt, 0, 0) >= 0 + r.reset.value;
    }
  }

  /**
    * A call that breaks into a window: a 429 whose headers close it for a minute and whose body asks for a
    * second, and the second request, made after that second and taken.
    */
  lemma WindowCanBeCutShort() returns (tries: seq<Try>)
    ensures Complete(tries, 1) && WellPaced(tries, 0) && |tries| == 2 && Succeeded(tries[1].reply)
    ensures RateLimited(tries[0].reply) && tries[0].reply.reset == Some(60_000 * MILLISECOND)
    ensures tries[1].at == 1_000 * MILLISECOND < tries[0].seen + tries[0].reply.reset.value
  {
    var second := 1_000 * MILLISECOND;
    var limited := Answer(429, Some(60 * second), second, 0);
    tries := [Try(0, 0, limited, 0, 0, second),
              Try(second, second, Answer(200, None, 0, 0), second, second, second)];
  }
}
