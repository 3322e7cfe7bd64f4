/** Removing terminal control sequences: StripANSI of internal/textutil (ECMA-48, section 5.4). */
module AnsiStrip {
  import opened Sequences
  import opened Utf8

  const ESC := '\U{1B}'
  const BEL := '\U{07}'

  /** The string terminator, ESC and a backslash. */
  const ST := [ESC, '\\']

  predicate IsParameter(c: char) { '0' <= c <= '?' }
  predicate IsIntermediate(c: char) { ' ' <= c <= '/' }
  predicate IsFinal(c: char) { '@' <= c <= '~' }

  /** Columns 3, 2 and 4 to 7 (without DELETE) of the code table (ECMA-48, section 5.4). */
  lemma ControlSequenceBytes(c: char)
    ensures IsParameter(c) <==> 0x30 <= c as int <= 0x3F
    ensures IsIntermediate(c) <==> 0x20 <= c as int <= 0x2F
    ensures IsFinal(c) <==> 0x40 <= c as int <= 0x7E
  {
  }

  predicate Introduced(s: string, second: char) {
    |s| >= 2 && s[0] == ESC && s[1] == second
  }

  // ----- the language of control sequences -----

  /** ESC [ parameters intermediates final, the boundaries at p and q */
  ghost predicate IsCsiWith(t: string, p: nat, q: nat) {
    && Introduced(t, '[') && 2 <= p <= q && q + 1 == |t|
    && (forall k :: 2 <= k < p ==> IsParameter(t[k]))
    && (forall k :: p <= k < q ==> IsIntermediate(t[k]))
    && IsFinal(t[q])
  }

  ghost predicate IsCsi(t: string) {
    exists p: nat, q: nat :: IsCsiWith(t, p, q)
  }

  /** ESC ] text BEL, the text free of BEL */
  ghost predicate IsBelOsc(t: string) {
    && Introduced(t, ']') && |t| >= 3 && t[|t| - 1] == BEL
    && forall k :: 2 <= k < |t| - 1 ==> t[k] != BEL
  }

  /** ESC ] text ST, the text free of BEL */
  ghost predicate IsStOsc(t: string) {
    && Introduced(t, ']') && |t| >= 4 && TerminatorAt(t, |t| - 2)
    && forall k :: 2 <= k < |t| - 2 ==> t[k] != BEL
  }

  ghost predicate IsSequence(t: string) {
    IsCsi(t) || IsBelOsc(t) || IsStOsc(t)
  }

  // ----- matching at the front of a string -----

  /** The first index from `i` on that is not a parameter byte. */
  function ParametersEnd(s: string, i: nat): (j: nat)
    requires i <= |s|
    ensures i <= j <= |s| && forall k :: i <= k < j ==> IsParameter(s[k])
    ensures j < |s| ==> !IsParameter(s[j])
    decreases |s| - i
  {
    if i < |s| && IsParameter(s[i]) then ParametersEnd(s, i + 1) else i
  }

  /** The first index from `i` on that is not an intermediate byte. */
  function IntermediatesEnd(s: string, i: nat): (j: nat)
    requires i <= |s|
    ensures i <= j <= |s| && forall k :: i <= k < j ==> IsIntermediate(s[k])
    ensures j < |s| ==> !IsIntermediate(s[j])
    decreases |s| - i
  {
    if i < |s| && IsIntermediate(s[i]) then IntermediatesEnd(s, i + 1) else i
  }

  /** The first BEL from `i` on, or the length. */
  function NextBel(s: string, i: nat): (j: nat)
    requires i <= |s|
    ensures i <= j <= |s| && forall k :: i <= k < j ==> s[k] != BEL
    ensures j < |s| ==> s[j] == BEL
    decreases |s| - i
  {
    if i == |s| || s[i] == BEL then i else NextBel(s, i + 1)
  }

  predicate TerminatorAt(s: string, i: nat) {
    i + 2 <= |s| && s[i] == ESC && s[i + 1] == '\\'
  }

  /** Where the last string terminator from `i` on begins, or None. */
  function LastTerminator(s: string, i: nat): (r: Option<nat>)
    ensures r.Some? ==> i <= r.value && TerminatorAt(s, r.value)
    ensures forall k: nat :: i <= k && TerminatorAt(s, k) ==> r.Some? && k <= r.value
    decreases |s| - i
  {
    if i >= |s| then None
    else if LastTerminator(s, i + 1).Some? then LastTerminator(s, i + 1)
    else if TerminatorAt(s, i) then Some(i)
    else None
  }

  function CsiEnd(s: string): (q: nat)
    requires |s| >= 2
    ensures 2 <= q <= |s|
  {
    IntermediatesEnd(s, ParametersEnd(s, 2))
  }

  /** The body runs to the next BEL; without one, to the last string terminator there is. */
  function OscLength(s: string): (n: nat)
    requires |s| >= 2
    ensures n <= |s|
  {
    if NextBel(s, 2) < |s| then NextBel(s, 2) + 1
    else
      match LastTerminator(s, 2)
      case Some(i) => i + 2
      case None => 0
  }

  /** The length of the sequence the pattern matches at the front, or 0. */
  function MatchLength(s: string): (n: nat)
    ensures n <= |s|
    ensures n > 0 ==> s[0] == ESC
  {
    if Introduced(s, '[') then
      if CsiEnd(s) < |s| && IsFinal(s[CsiEnd(s)]) then CsiEnd(s) + 1 else 0
    else if Introduced(s, ']') then OscLength(s)
    else 0
  }

  function StripAnsi(s: string): string {
    if s == [] then []
    else if MatchLength(s) > 0 then StripAnsi(s[MatchLength(s)..])
    else [s[0]] + StripAnsi(s[1..])
  }

  // ----- the match is the longest sequence at the front -----

  lemma CsiIsMatched(s: string, t: string)
    requires IsCsi(t) && t <= s
    ensures MatchLength(s) == |t|
  {
    var p: nat, q: nat :| IsCsiWith(t, p, q);
    var p', q' := ParametersEnd(s, 2), CsiEnd(s);
    assert s[p] == t[p] && s[q] == t[q] && forall k :: 0 <= k < |t| ==> s[k] == t[k];
    assert p == p';
    assert q == q';
  }

  lemma BelOscIsMatched(s: string, t: string)
    requires IsBelOsc(t) && t <= s
    ensures MatchLength(s) == |t|
  {
    var b := NextBel(s, 2);
    assert s[|t| - 1] == BEL;
  }

  /** What is removed is a control sequence. */
  lemma MatchIsSequence(s: string)
    requires MatchLength(s) > 0
    ensures IsSequence(s[..MatchLength(s)])
  {
    var t := s[..MatchLength(s)];
    if s[1] == '[' {
      assert IsCsiWith(t, ParametersEnd(s, 2), CsiEnd(s));
    }
  }

  /** And no longer one begins there. */
  lemma MatchIsLongest(s: string, m: nat)
    requires m <= |s| && IsSequence(s[..m])
    ensures m <= MatchLength(s)
  {
    var t := s[..m];
    if IsCsi(t) {
      CsiIsMatched(s, t);
    } else if IsBelOsc(t) {
      BelOscIsMatched(s, t);
    } else {
      assert TerminatorAt(s, m - 2);
      assert forall k :: 2 <= k < m - 2 ==> t[k] == s[k];
    }
  }

  // ----- what stripping does, by the language alone -----

  ghost predicate SequenceAt(s: string, i: nat, n: nat) {
    i + n <= |s| && IsSequence(s[i..i + n])
  }

  ghost predicate NoneBefore(s: string, k: nat) {
    forall i: nat, n: nat :: i < k ==> !SequenceAt(s, i, n)
  }

  lemma MatchFound(s: string, i: nat)
    requires i <= |s|
    ensures MatchLength(s[i..]) > 0 ==> SequenceAt(s, i, MatchLength(s[i..]))
  {
    hide MatchLength, IsSequence;
    var n := MatchLength(s[i..]);
    assert s[i..][..n] == s[i..i + n];
    if n > 0 {
      MatchIsSequence(s[i..]);
    }
  }

  lemma {:induction false} Kept(s: string, k: nat)
    requires k <= |s| && forall i :: 0 <= i < k ==> MatchLength(s[i..]) == 0
    ensures StripAnsi(s) == s[..k] + StripAnsi(s[k..])
  {
    hide MatchLength;
    if k == 0 {
      assert s[0..] == s;
    } else {
      assert s[0..] == s;
      forall i | 0 <= i < k - 1 ensures MatchLength(s[1..][i..]) == 0 {
        assert s[1..][i..] == s[i + 1..];
      }
      Kept(s[1..], k - 1);
      assert s[1..][k - 1..] == s[k..] && s[..k] == [s[0]] + s[1..][..k - 1];
    }
  }

  /** Text in which no control sequence stands anywhere is kept as it is. */
  lemma NothingToStrip(s: string)
    requires NoneBefore(s, |s|)
    ensures StripAnsi(s) == s
  {
    hide MatchLength, SequenceAt, StripAnsi;
    forall i | 0 <= i < |s| ensures MatchLength(s[i..]) == 0 {
      MatchFound(s, i);
    }
    Kept(s, |s|);
    assert s[|s|..] == "" && StripAnsi("") == "" by {
      NothingStrips();
    }
    assert s[..|s|] + "" == s;
  }

  lemma NothingStrips()
    ensures StripAnsi("") == ""
  {
  }

  /** Otherwise the first one, at its longest, is left out, and stripping goes on behind it. */
  lemma StripsFirstLongest(s: string, k: nat, m: nat)
    requires NoneBefore(s, k) && SequenceAt(s, k, m) && forall n: nat :: n > m ==> !SequenceAt(s, k, n)
    ensures StripAnsi(s) == s[..k] + StripAnsi(s[k + m..])
  {
    hide StripAnsi, MatchLength, IsSequence;
    forall i | 0 <= i < k ensures MatchLength(s[i..]) == 0 {
      MatchFound(s, i);
    }
    Kept(s, k);
    assert s[k..][..m] == s[k..k + m];
    MatchIsLongest(s[k..], m);
    var n := MatchLength(s[k..]);
    SequenceNotEmpty(s[k..k + m]);
    MatchIsSequence(s[k..]);
    assert s[k..][..n] == s[k..k + n] && SequenceAt(s, k, n);
    StripMatched(s[k..]);
    assert s[k..][m..] == s[k + m..];
  }

  lemma SequenceNotEmpty(t: string)
    requires IsSequence(t)
    ensures |t| > 0
  {
  }

  lemma StripMatched(s: string)
    requires MatchLength(s) > 0
    ensures StripAnsi(s) == StripAnsi(s[MatchLength(s)..])
  {
    hide MatchLength;
  }

  // ----- when a record boundary does no harm -----

  /** What stands at the front may still become a (longer) control sequence when more arrives. */
  predicate Live(s: string) {
    || s == [ESC]
    || (Introduced(s, '[') && CsiEnd(s) == |s|)
    || (Introduced(s, ']') && NextBel(s, 2) == |s|)
  }

  function Advance(s: string): (n: nat)
    requires s != []
    ensures 0 < n <= |s|
  {
    if MatchLength(s) > 0 then MatchLength(s) else 1
  }

  /** Scanning `s` never meets anything live: a caller can check this of one record alone. */
  predicate Settled(s: string)
    decreases |s|
  {
    s == [] || (!Live(s) && Settled(s[Advance(s)..]))
  }

  lemma CsiLocal(a: string, b: string)
    requires Introduced(a, '[') && !Live(a)
    ensures CsiEnd(a + b) == CsiEnd(a)
  {
    var ab := a + b;
    var p, p' := ParametersEnd(a, 2), ParametersEnd(ab, 2);
    var q, q' := CsiEnd(a), CsiEnd(ab);
    assert ab[..|a|] == a;
    assert p == p';
    assert q == q';
  }

  lemma MatchLocal(a: string, b: string)
    requires a != [] && !Live(a)
    ensures MatchLength(a + b) == MatchLength(a)
  {
    if Introduced(a, '[') {
      CsiLocal(a, b);
    } else if Introduced(a, ']') {
      var n, n' := NextBel(a, 2), NextBel(a + b, 2);
      assert (a + b)[n] == BEL;
    } else {
      assert |a| >= 2 ==> (a + b)[1] == a[1];
    }
  }

  /** One step of stripping, with or without what follows. */
  lemma StripStep(a: string, b: string)
    requires a != [] && !Live(a)
    ensures var front := if MatchLength(a) > 0 then [] else [a[0]];
      && StripAnsi(a) == front + StripAnsi(a[Advance(a)..])
      && StripAnsi(a + b) == front + StripAnsi(a[Advance(a)..] + b)
  {
    hide MatchLength;
    MatchLocal(a, b);
    assert (a + b)[Advance(a)..] == a[Advance(a)..] + b;
  }

  lemma {:induction false} SettledStrips(a: string, b: string)
    requires Settled(a)
    ensures StripAnsi(a + b) == StripAnsi(a) + StripAnsi(b)
    decreases |a|
  {
    hide MatchLength, Live;
    if a == [] {
      assert a + b == b;
    } else {
      StripStep(a, b);
      SettledStrips(a[Advance(a)..], b);
    }
  }

  /** Bytes that turn something live into a control sequence. */
  function Completion(s: string): (t: string)
    requires Live(s)
    ensures t != []
  {
    if |s| == 1 then "[m" else if s[1] == '[' then "m" else [BEL]
  }

  lemma CompletedIsMatched(s: string)
    requires Live(s)
    ensures MatchLength(s + Completion(s)) == |s + Completion(s)|
  {
    var whole := s + Completion(s);
    if Introduced(s, ']') {
      BelOscIsMatched(whole, whole);
    } else {
      var p := if |s| == 1 then 2 else ParametersEnd(s, 2);
      assert IsCsiWith(whole, p, |whole| - 1);
      CsiIsMatched(whole, whole);
    }
  }

  lemma CompletedIsStripped(s: string)
    requires Live(s)
    ensures StripAnsi(s + Completion(s)) == []
    ensures StripAnsi(Completion(s)) == Completion(s)
  {
    CompletedIsMatched(s);
    assert StripAnsi("m") == "m" && StripAnsi([BEL]) == [BEL];
    assert "[m"[1..] == "m";
  }

  /** Something live goes wrong when its completion arrives in the next record. */
  lemma {:induction false} UnsettledMisstrips(a: string) returns (b: string)
    requires !Settled(a)
    ensures StripAnsi(a + b) != StripAnsi(a) + StripAnsi(b)
    decreases |a|
  {
    hide MatchLength, Live, StripAnsi;
    if Live(a) {
      b := Completion(a);
      CompletedIsStripped(a);
    } else {
      b := UnsettledMisstrips(a[Advance(a)..]);
      StripStep(a, b);
      var front := if MatchLength(a) > 0 then [] else [a[0]];
      SameFront(front, StripAnsi(a[Advance(a)..] + b), StripAnsi(a[Advance(a)..]) + StripAnsi(b));
      assert front + (StripAnsi(a[Advance(a)..]) + StripAnsi(b)) == StripAnsi(a) + StripAnsi(b);
    }
  }

  lemma SameFront(front: string, x: string, y: string)
    ensures front + x == front + y <==> x == y
  {
    assert (front + x)[|front|..] == x && (front + y)[|front|..] == y;
  }

  /** Stripping distributes over a boundary, whatever follows it, exactly after a settled record. */
  lemma BoundaryHarmlessIffSettled(a: string)
    ensures Settled(a) <==> forall b :: StripAnsi(a + b) == StripAnsi(a) + StripAnsi(b)
  {
    if Settled(a) {
      forall b ensures StripAnsi(a + b) == StripAnsi(a) + StripAnsi(b) {
        SettledStrips(a, b);
      }
    } else {
      var b := UnsettledMisstrips(a);
    }
  }

  // ----- many records -----

  function StripEach(rs: seq<string>): (r: seq<string>)
    ensures |r| == |rs|
  {
    seq(|rs|, i requires 0 <= i < |rs| => StripAnsi(rs[i]))
  }

  /** Settled records strip one by one as they strip together, whatever the last one is and whatever follows it. */
  lemma {:induction false} SettledRecordsStrip(rs: seq<string>, rest: string)
    requires forall i :: 0 <= i < |rs| ==> Settled(rs[i])
    ensures StripAnsi(Flatten(rs) + rest) == Flatten(StripEach(rs)) + StripAnsi(rest)
  {
    hide StripAnsi, Settled;
    if rs == [] {
      assert StripEach(rs) == [] && [] + rest == rest && [] + StripAnsi(rest) == StripAnsi(rest);
    } else {
      var later := Flatten(rs[1..]) + rest;
      assert Flatten(rs) + rest == rs[0] + later;
      SettledStrips(rs[0], later);
      SettledRecordsStrip(rs[1..], rest);
      assert StripEach(rs)[1..] == StripEach(rs[1..]);
      assert StripAnsi(rs[0]) + (Flatten(StripEach(rs[1..])) + StripAnsi(rest))
          == StripAnsi(rs[0]) + Flatten(StripEach(rs[1..])) + StripAnsi(rest);
    }
  }

  /** Stripping record by record is stripping the whole where all records but the last are settled. */
  lemma {:induction false} RecordsStripTogether(rs: seq<string>)
    requires forall i :: 0 <= i < |rs| - 1 ==> Settled(rs[i])
    ensures StripAnsi(Flatten(rs)) == Flatten(StripEach(rs))
  {
    hide StripAnsi, Settled, Flatten;
    if rs != [] {
      var init, last := rs[..|rs| - 1], rs[|rs| - 1];
      assert rs == init + [last] && StripEach(rs) == StripEach(init) + [StripAnsi(last)];
      SettledRecordsStrip(init, last);
      FlattenSnoc(init, last);
      FlattenSnoc(StripEach(init), StripAnsi(last));
    } else {
      NoRecords();
    }
  }

  lemma NoRecords()
    ensures StripAnsi(Flatten([])) == Flatten(StripEach([]))
  {
  }

  /** At this boundary what was stripped so far stands, whatever comes. */
  ghost predicate BoundaryHarmless(rs: seq<string>, k: nat)
    requires k <= |rs|
  {
    forall rest :: StripAnsi(Flatten(rs[..k]) + rest) == Flatten(StripEach(rs[..k])) + StripAnsi(rest)
  }

  /** Every boundary of a stream of records is harmless, whatever comes after it, exactly if every record is settled. */
  lemma {:induction false} EveryBoundaryHarmlessIff(rs: seq<string>)
    ensures (forall k :: 0 <= k <= |rs| ==> BoundaryHarmless(rs, k)) <==> (forall i :: 0 <= i < |rs| ==> Settled(rs[i]))
  {
    hide StripAnsi, Settled, Flatten, BoundaryHarmless;
    if forall i :: 0 <= i < |rs| ==> Settled(rs[i]) {
      forall k | 0 <= k <= |rs| ensures BoundaryHarmless(rs, k) {
        SettledBoundary(rs, k);
      }
    }
    if forall k :: 0 <= k <= |rs| ==> BoundaryHarmless(rs, k) {
      forall i | 0 <= i < |rs| ensures Settled(rs[i]) {
        HarmlessRecord(rs, i);
      }
    }
  }

  lemma {:induction false} SettledBoundary(rs: seq<string>, k: nat)
    requires k <= |rs| && forall i :: 0 <= i < |rs| ==> Settled(rs[i])
    ensures BoundaryHarmless(rs, k)
  {
    hide StripAnsi, Settled, Flatten;
    forall rest ensures StripAnsi(Flatten(rs[..k]) + rest) == Flatten(StripEach(rs[..k])) + StripAnsi(rest) {
      SettledRecordsStrip(rs[..k], rest);
    }
  }

  /** Between two harmless boundaries lies a settled record. */
  lemma {:induction false} HarmlessRecord(rs: seq<string>, i: nat)
    requires i < |rs| && BoundaryHarmless(rs, i) && BoundaryHarmless(rs, i + 1)
    ensures Settled(rs[i])
  {
    hide StripAnsi, Settled, Flatten;
    var init, r := rs[..i], rs[i];
    assert rs[..i + 1] == init + [r] && StripEach(init + [r]) == StripEach(init) + [StripAnsi(r)];
    FlattenSnoc(init, r);
    FlattenSnoc(StripEach(init), StripAnsi(r));
    forall b ensures StripAnsi(r + b) == StripAnsi(r) + StripAnsi(b) {
      var done := Flatten(StripEach(init));
      assert StripAnsi(Flatten(init) + (r + b)) == done + StripAnsi(r + b);
      assert Flatten(init) + (r + b) == Flatten(init) + r + b;
      assert StripAnsi(Flatten(rs[..i + 1]) + b) == done + StripAnsi(r) + StripAnsi(b);
      SameFront(done, StripAnsi(r + b), StripAnsi(r) + StripAnsi(b));
      assert done + (StripAnsi(r) + StripAnsi(b)) == done + StripAnsi(r) + StripAnsi(b);
    }
    BoundaryHarmlessIffSettled(r);
  }

  /** For one given stream an unsettled record may still do no harm: a lone ESC before a letter. */
  lemma UnsettledMayBeHarmless()
    ensures !Settled([ESC]) && StripAnsi([ESC] + "x") == StripAnsi([ESC]) + StripAnsi("x")
  {
    assert [ESC][1..] == "" && ([ESC] + "x")[1..] == "x" && "x"[1..] == "";
  }

  /** Stripping only deletes. */
  lemma {:induction false} StrippedInOrder(s: string)
    ensures Subsequence(StripAnsi(s), s)
    decreases |s|
  {
    hide MatchLength;
    if s != [] {
      var n := Advance(s);
      StrippedInOrder(s[n..]);
      SubsequenceAfter(s[..n], StripAnsi(s[n..]), s[n..]);
      assert s[..n] + s[n..] == s;
      if MatchLength(s) == 0 {
        assert s[..1] == [s[0]];
      }
    }
  }

  // ----- ordinary terminal output -----

  datatype Segment = Plain(text: string) | Control(code: string)

  /** Text without ESC, complete CSI sequences and BEL-terminated OSC sequences. */
  ghost predicate Ordinary(segments: seq<Segment>) {
    forall g :: g in segments ==>
      match g
      case Plain(text) => ESC !in text
      case Control(code) => IsCsi(code) || IsBelOsc(code)
  }

  function Render(segments: seq<Segment>): string {
    if segments == [] then []
    else (match segments[0] case Plain(text) => text case Control(code) => code) + Render(segments[1..])
  }

  function TextOf(segments: seq<Segment>): string {
    if segments == [] then []
    else (match segments[0] case Plain(text) => text case Control(_) => []) + TextOf(segments[1..])
  }

  lemma {:induction false} PlainPrefix(text: string, rest: string)
    requires ESC !in text
    ensures StripAnsi(text + rest) == text + StripAnsi(rest)
    ensures Settled(text + rest) <==> Settled(rest)
  {
    if text == [] {
      assert text + rest == rest;
    } else {
      assert text[0] in text && (text + rest)[1..] == text[1..] + rest;
      PlainPrefix(text[1..], rest);
    }
  }

  lemma ControlPrefix(code: string, rest: string)
    requires IsCsi(code) || IsBelOsc(code)
    ensures StripAnsi(code + rest) == StripAnsi(rest)
    ensures Settled(code + rest) <==> Settled(rest)
  {
    var whole := code + rest;
    if IsCsi(code) {
      CsiIsMatched(whole, code);
    } else {
      BelOscIsMatched(whole, code);
      assert whole[|code| - 1] == BEL;
    }
    assert MatchLength(whole) == |code| && whole[|code|..] == rest;
    assert whole[0] == code[0] && whole[1] == code[1];
  }

  /** Stripping ordinary output leaves exactly its text, and such a record is settled. */
  lemma {:induction false} OrdinaryOutputStripped(segments: seq<Segment>)
    requires Ordinary(segments)
    ensures StripAnsi(Render(segments)) == TextOf(segments)
    ensures Settled(Render(segments))
  {
    if segments != [] {
      assert segments[0] in segments;
      assert forall g :: g in segments[1..] ==> g in segments;
      OrdinaryOutputStripped(segments[1..]);
      match segments[0]
      case Plain(text) => PlainPrefix(text, Render(segments[1..]));
      case Control(code) => ControlPrefix(code, Render(segments[1..]));
    }
  }

  /** A terminator-ended sequence is not safe: a later BEL makes everything up to it disappear. */
  lemma TerminatedOscSwallows(title: string, text: string)
    requires BEL !in title && BEL !in text
    ensures var osc := [ESC, ']'] + title + ST;
      && IsStOsc(osc) && !Settled(osc)
      && StripAnsi(osc + text + [BEL]) == []
  {
    var osc := [ESC, ']'] + title + ST;
    assert TerminatorAt(osc, |osc| - 2);
    assert Live(osc);
    var whole := osc + text + [BEL];
    BelOscIsMatched(whole, whole);
  }

  // ----- UTF-8 -----

  lemma {:induction false} CopiedUpTo(s: string, n: nat)
    requires n <= |s| && forall i :: 0 <= i < n ==> s[i] != ESC
    ensures StripAnsi(s) == s[..n] + StripAnsi(s[n..])
  {
    PlainPrefix(s[..n], s[n..]);
    assert s[..n] + s[n..] == s;
  }

  lemma MatchEndsInAscii(s: string)
    requires MatchLength(s) > 0
    ensures s[MatchLength(s) - 1] <= MAX_ASCII
  {
    var n := MatchLength(s);
    MatchIsSequence(s);
    assert s[n - 1] == s[..n][n - 1];
  }

  /** Removing control sequences never breaks a character. */
  lemma {:induction false} StripKeepsValid(s: string)
    requires Valid(s)
    ensures Valid(StripAnsi(s))
    decreases |s|
  {
    if s == [] {
    } else if MatchLength(s) > 0 {
      var n := MatchLength(s);
      MatchEndsInAscii(s);
      if n < |s| {
        StartAfterAscii(s, n - 1);
      }
      ValidCut(s, n);
      StripKeepsValid(s[n..]);
    } else {
      var n := RuneLength(s);
      if n > 1 {
        CopiedUpTo(s, n);
      }
      RuneLengthLocal(s, []);
      StripKeepsValid(s[n..]);
      ValidCons(s[..n], StripAnsi(s[n..]));
    }
  }
}
