/** Cutting text into bounded chunks: SplitUTF8 of internal/textutil. */
module TextSplit {
  import opened Sequences
  import opened Utf8

  /** The last index in 1..limit that can begin a character, or 0 if there is none. */
  function LastStart(s: string, limit: nat): (cut: nat)
    requires limit < |s|
    ensures cut <= limit
    ensures cut > 0 ==> RuneStart(s[cut])
    ensures forall i :: cut < i <= limit ==> IsContinuation(s[i])
  {
    if limit == 0 || RuneStart(s[limit]) then limit else LastStart(s, limit - 1)
  }

  /** One past the last newline in s[low..high], or `high` if there is none. */
  function AfterLastNewline(s: string, low: nat, high: nat): (cut: nat)
    requires low <= high <= |s|
    ensures low <= cut <= high && (low < high ==> low < cut)
    ensures cut < high ==> s[cut - 1] == '\n'
    ensures cut < high ==> '\n' !in s[cut..high]
    ensures (exists i :: low <= i < high && s[i] == '\n') && low < high ==> s[cut - 1] == '\n'
  {
    LastNewlineIn(s, low, high, high)
  }

  function LastNewlineIn(s: string, low: nat, at: nat, high: nat): (cut: nat)
    requires low <= at <= high <= |s| && '\n' !in s[at..high]
    ensures low <= cut <= high && (low < high ==> low < cut)
    ensures cut < high ==> s[cut - 1] == '\n'
    ensures cut < high ==> '\n' !in s[cut..high]
    ensures (exists i :: low <= i < high && s[i] == '\n') && low < high ==> s[cut - 1] == '\n'
  {
    if at == low then
      assert forall i :: low <= i < high ==> s[low..high][i - low] == s[i];
      high
    else if s[at - 1] == '\n' then at
    else
      assert s[at - 1..high] == [s[at - 1]] + s[at..high];
      LastNewlineIn(s, low, at - 1, high)
  }

  /** Where the first chunk of a too long string ends. */
  function Cut(s: string, maxBytes: nat): (cut: nat)
    requires 0 < maxBytes < |s|
    ensures 0 < cut <= |s| && cut <= Max(maxBytes, 4)
    ensures maxBytes >= 4 ==> cut <= maxBytes
  {
    var start := LastStart(s, maxBytes);
    var whole := if start == 0 then DecodedSize(s) else start;
    AfterLastNewline(s, whole / 2, whole)
  }

  function Split(s: string, maxBytes: int): (chunks: seq<string>)
    decreases |s|, 0
  {
    if maxBytes <= 0 then [s]
    else if |s| <= maxBytes then [s]
    else [s[..Cut(s, maxBytes)]] + SplitRest(s[Cut(s, maxBytes)..], maxBytes)
  }

  /** As `Split`, but nothing remains of an exhausted string. */
  function SplitRest(s: string, maxBytes: nat): (chunks: seq<string>)
    requires maxBytes > 0
    decreases |s|, 1
  {
    if s == [] then [] else Split(s, maxBytes)
  }

  method SplitUtf8(text: string, maxBytes: int) returns (chunks: seq<string>)
    ensures chunks == Split(text, maxBytes)
  {
    hide Cut;
    if maxBytes <= 0 || |text| <= maxBytes {
      return [text];
    }
    var s := text;
    chunks := [];
    while |s| > maxBytes
      invariant s != [] ==> chunks + Split(s, maxBytes) == Split(text, maxBytes)
      invariant s == [] ==> chunks == Split(text, maxBytes)
      decreases |s|
    {
      var cut := FindCut(s, maxBytes);
      ghost var before := chunks;
      chunks := chunks + [s[..cut]];
      assert before + Split(s, maxBytes) == chunks + SplitRest(s[cut..], maxBytes);
      s := s[cut..];
    }
    if s != "" {
      chunks := chunks + [s];
    }
  }

  /** Back to a byte that may begin a character, then back to a newline if one is near. */
  method FindCut(s: string, maxBytes: nat) returns (cut: nat)
    requires 0 < maxBytes < |s|
    ensures cut == Cut(s, maxBytes)
  {
    cut := maxBytes;
    while cut > 0 && !RuneStart(s[cut])
      invariant 0 <= cut <= maxBytes
      invariant LastStart(s, cut) == LastStart(s, maxBytes)
    {
      cut := cut - 1;
    }
    assert cut == LastStart(s, maxBytes);
    if cut == 0 {
      cut := DecodedSize(s);
    }
    var searchStart := cut / 2;
    var end := LastIndexOfNewline(s, searchStart, cut);
    if end > 0 {
      cut := end;
    }
    assert cut == Cut(s, maxBytes);
  }

  /** One past the last newline in s[low..high], or 0. */
  method LastIndexOfNewline(s: string, low: nat, high: nat) returns (end: nat)
    requires low < high <= |s|
    ensures end == 0 ==> '\n' !in s[low..high] && AfterLastNewline(s, low, high) == high
    ensures end > 0 ==> low < end <= high && s[end - 1] == '\n' && end == AfterLastNewline(s, low, high)
  {
    var at := high;
    while at > low && s[at - 1] != '\n'
      invariant low <= at <= high && '\n' !in s[at..high]
      invariant LastNewlineIn(s, low, at, high) == AfterLastNewline(s, low, high)
    {
      assert s[at - 1..high] == [s[at - 1]] + s[at..high];
      at := at - 1;
    }
    end := if at > low then at else 0;
  }

  // ----- what splitting guarantees -----

  lemma {:induction false} SplitJoins(s: string, maxBytes: int)
    ensures Flatten(Split(s, maxBytes)) == s
    ensures s != [] ==> [] !in Split(s, maxBytes)
    decreases |s|
  {
    hide Cut, RuneLength;
    assert Flatten([s]) == s + Flatten<char>([]);
    if maxBytes > 0 && |s| > maxBytes {
      var c := Cut(s, maxBytes);
      assert Split(s, maxBytes)[1..] == SplitRest(s[c..], maxBytes);
      if s[c..] != [] {
        SplitJoins(s[c..], maxBytes);
      }
    }
  }

  /** A limit below four may have to give way to a single longer character; no other limit does. */
  lemma {:induction false} SplitBounded(s: string, maxBytes: nat)
    requires maxBytes > 0
    ensures forall c :: c in Split(s, maxBytes) ==> |c| <= Max(maxBytes, 4)
    decreases |s|
  {
    hide Cut, RuneLength;
    if |s| > maxBytes {
      SplitBounded(s[Cut(s, maxBytes)..], maxBytes);
    }
  }

  lemma CutOfValid(s: string, maxBytes: nat)
    requires Valid(s) && 0 < maxBytes < |s|
    ensures Valid(s[..Cut(s, maxBytes)]) && Valid(s[Cut(s, maxBytes)..])
    ensures maxBytes >= 4 ==> Cut(s, maxBytes) >= (maxBytes - 3) / 2 + 1
  {
    hide LastStart, RuneLength, AfterLastNewline, Valid;
    var start := LastStart(s, maxBytes);
    var whole := if start == 0 then DecodedSize(s) else start;
    var c := Cut(s, maxBytes);
    var near := StartNearby(s, maxBytes);
    assert near <= start || near == 0;
    if start == 0 {
      RuneLengthStarts(s);
    }
    if c < whole {
      StartAfterAscii(s, c - 1);
    }
    ValidCut(s, c);
  }

  lemma RuneLengthStarts(s: string)
    requires Valid(s) && s != []
    ensures DecodedSize(s) < |s| ==> RuneStart(s[DecodedSize(s)])
  {
    assert RuneLength(s) < |s| ==> RuneLength(s[RuneLength(s)..]) > 0;
  }

  /** Text that is valid UTF-8 is never cut inside a character. */
  lemma {:induction false} SplitKeepsValid(s: string, maxBytes: int)
    requires Valid(s)
    ensures forall c :: c in Split(s, maxBytes) ==> Valid(c)
    decreases |s|
  {
    hide Cut, RuneLength;
    if maxBytes > 0 && |s| > maxBytes {
      CutOfValid(s, maxBytes);
      SplitKeepsValid(s[Cut(s, maxBytes)..], maxBytes);
    }
  }

  function LeastChunk(maxBytes: nat): nat
    requires maxBytes >= 4
  {
    (maxBytes - 3) / 2 + 1
  }

  /** Preferring newlines never makes a chunk small. */
  lemma {:induction false} SplitIsEconomical(s: string, maxBytes: nat)
    requires Valid(s) && maxBytes >= 4
    ensures forall i :: 0 <= i < |Split(s, maxBytes)| - 1 ==> |Split(s, maxBytes)[i]| >= LeastChunk(maxBytes)
    decreases |s|
  {
    hide Cut, RuneLength;
    if |s| > maxBytes {
      var c := Cut(s, maxBytes);
      CutOfValid(s, maxBytes);
      var later := Split(s[c..], maxBytes);
      SplitIsEconomical(s[c..], maxBytes);
      assert Split(s, maxBytes) == [s[..c]] + later;
      forall i | 0 <= i < |later| ensures |([s[..c]] + later)[i]| >= LeastChunk(maxBytes) {
        if i > 0 {
          assert ([s[..c]] + later)[i] == later[i - 1];
        }
      }
    }
  }

  lemma MoreChunks(k: nat, n: nat, c: nat, rest: nat)
    requires c >= k && (n - 1) * k < rest
    ensures n * k < c + rest
  {
    assert n * k == (n - 1) * k + k;
  }

  /** Hence the number of chunks is bounded by the length of the text. */
  lemma {:induction false} SplitCount(s: string, maxBytes: nat)
    requires Valid(s) && maxBytes >= 4 && s != []
    ensures (|Split(s, maxBytes)| - 1) * LeastChunk(maxBytes) < |s|
    decreases |s|
  {
    hide Cut, RuneLength;
    if |s| > maxBytes {
      var c := Cut(s, maxBytes);
      CutOfValid(s, maxBytes);
      SplitCount(s[c..], maxBytes);
      MoreChunks(LeastChunk(maxBytes), |Split(s[c..], maxBytes)|, c, |s[c..]|);
      assert Split(s, maxBytes) == [s[..c]] + Split(s[c..], maxBytes);
    }
  }

  /** A chunk ends with a newline unless there is none in its second half. */
  ghost predicate EndsReadably(chunk: string) {
    chunk != [] && (chunk[|chunk| - 1] == '\n' || '\n' !in chunk[|chunk| / 2..])
  }

  lemma {:induction false} SplitPrefersNewlines(s: string, maxBytes: int)
    ensures forall i :: 0 <= i < |Split(s, maxBytes)| - 1 ==> EndsReadably(Split(s, maxBytes)[i])
    decreases |s|
  {
    hide LastStart, RuneLength, AfterLastNewline;
    if maxBytes > 0 && |s| > maxBytes {
      var start := LastStart(s, maxBytes);
      var whole := if start == 0 then DecodedSize(s) else start;
      var c := Cut(s, maxBytes);
      assert EndsReadably(s[..c]) by {
        if s[c - 1] != '\n' {
          assert c == whole;
          assert forall i :: c / 2 <= i < c ==> s[i] != '\n';
        }
      }
      if s[c..] != [] {
        SplitPrefersNewlines(s[c..], maxBytes);
        assert Split(s, maxBytes) == [s[..c]] + Split(s[c..], maxBytes);
      }
    }
  }

  // ----- the end of a chunk, from the bytes alone -----

  /** The last place within the limit where a character may begin; without one, behind the first character. */
  ghost predicate CharacterEnd(s: string, maxBytes: nat, w: nat) {
    && 0 < w <= |s|
    && if exists i :: 1 <= i <= maxBytes && i < |s| && RuneStart(s[i]) then
         w <= maxBytes && w < |s| && RuneStart(s[w]) && forall i :: w < i <= maxBytes && i < |s| ==> !RuneStart(s[i])
       else w == DecodedSize(s)
  }

  /** There, or behind the last newline of the second half. */
  ghost predicate ThereOrAtNewline(s: string, w: nat, c: nat) {
    && c <= w <= |s|
    && if '\n' in s[w / 2..w] then w / 2 < c && s[c - 1] == '\n' && '\n' !in s[c..w] else c == w
  }

  /** For every byte string and limit. */
  lemma CutIs(s: string, maxBytes: nat) returns (w: nat)
    requires 0 < maxBytes < |s|
    ensures CharacterEnd(s, maxBytes, w) && ThereOrAtNewline(s, w, Cut(s, maxBytes))
  {
    hide LastStart, AfterLastNewline, DecodedSize, RuneStart;
    var start := LastStart(s, maxBytes);
    w := if start == 0 then DecodedSize(s) else start;
    var c := Cut(s, maxBytes);
    assert forall i :: start < i <= maxBytes ==> !RuneStart(s[i]) by {
      ContinuationsOnly(s, start, maxBytes);
    }
    assert forall i :: w / 2 <= i < w ==> s[i] == s[w / 2..w][i - w / 2];
    if '\n' in s[w / 2..w] {
      var k :| 0 <= k < |s[w / 2..w]| && s[w / 2..w][k] == '\n';
      assert s[w / 2 + k] == '\n';
    }
  }

  lemma ContinuationsOnly(s: string, start: nat, limit: nat)
    requires limit < |s| && forall i :: start < i <= limit ==> IsContinuation(s[i])
    ensures forall i :: start < i <= limit ==> !RuneStart(s[i])
  {
  }

  /** Where no newline interferes, the chunk ends at the last character boundary within the limit. */
  lemma CutIsGreatest(s: string, maxBytes: nat, i: nat)
    requires Valid(s) && 4 <= maxBytes < |s| && i <= maxBytes && Valid(s[..i])
    requires '\n' !in s[(maxBytes - 3) / 2..maxBytes]
    ensures i <= Cut(s, maxBytes)
  {
    hide RuneLength, Valid;
    var near := StartNearby(s, maxBytes);
    if i > 0 {
      BoundaryStarts(s, i);
    }
    var whole := LastStart(s, maxBytes);
    assert forall j :: whole / 2 <= j < whole ==> s[j] == s[(maxBytes - 3) / 2..maxBytes][j - (maxBytes - 3) / 2];
  }

  /** A newline in the second half of the limit: the chunk ends after the last one within the limit. */
  lemma CutAfterLastNewline(s: string, maxBytes: nat, j: nat)
    requires Valid(s) && 4 <= maxBytes < |s| && maxBytes / 2 <= j < maxBytes && s[j] == '\n'
    ensures j < Cut(s, maxBytes) <= maxBytes
    ensures s[Cut(s, maxBytes) - 1] == '\n' && '\n' !in s[Cut(s, maxBytes)..maxBytes]
  {
    hide RuneLength, Valid, LastStart, AfterLastNewline;
    StartAfterAscii(s, j);
    var whole, c := LastStart(s, maxBytes), Cut(s, maxBytes);
    assert whole >= j + 1 && c == AfterLastNewline(s, whole / 2, whole);
    assert s[c - 1] == '\n';
    forall k | c <= k < maxBytes ensures s[k] != '\n' {
      if k < whole {
        assert s[k] == s[c..whole][k - c];
      } else if s[k] == '\n' {
        StartAfterAscii(s, k);
      }
    }
    assert forall k :: c <= k < whole ==> s[k] == s[c..whole][k - c];
  }

  /** The end of a chunk of valid text, from what is ahead of it and the limit alone. */
  ghost predicate CutsWell(ahead: string, maxBytes: nat, c: nat) {
    && c <= |ahead| && maxBytes <= |ahead|
    && (forall j :: maxBytes / 2 <= j < maxBytes && ahead[j] == '\n' ==>
          j < c <= maxBytes && ahead[c - 1] == '\n' && '\n' !in ahead[c..maxBytes])
    && ('\n' !in ahead[Max(0, maxBytes - 3) / 2..maxBytes] ==>
          Valid(ahead[..c]) && c <= maxBytes && forall i :: 0 <= i <= maxBytes && Valid(ahead[..i]) ==> i <= c)
  }

  lemma CutMeetsThat(s: string, maxBytes: nat)
    requires Valid(s) && 4 <= maxBytes < |s|
    ensures CutsWell(s, maxBytes, Cut(s, maxBytes))
  {
    hide Cut, Valid, RuneLength;
    forall j | maxBytes / 2 <= j < maxBytes && s[j] == '\n'
      ensures j < Cut(s, maxBytes) <= maxBytes
      ensures s[Cut(s, maxBytes) - 1] == '\n' && '\n' !in s[Cut(s, maxBytes)..maxBytes]
    {
      CutAfterLastNewline(s, maxBytes, j);
    }
    CutOfValid(s, maxBytes);
    if '\n' !in s[Max(0, maxBytes - 3) / 2..maxBytes] {
      forall i | 0 <= i <= maxBytes && Valid(s[..i]) ensures i <= Cut(s, maxBytes) {
        CutIsGreatest(s, maxBytes, i);
      }
    }
  }

  /** Every chunk but the last ends after the last newline of the limit's second half, else at the last boundary. */
  lemma {:induction false} SplitCutsWell(s: string, maxBytes: nat, k: nat)
    requires Valid(s) && maxBytes >= 4 && k < |Split(s, maxBytes)| - 1
    ensures CutsWell(Flatten(Split(s, maxBytes)[k..]), maxBytes, |Split(s, maxBytes)[k]|)
    decreases |s|
  {
    hide Cut, RuneLength, CutsWell, Valid;
    var c := Cut(s, maxBytes);
    CutOfValid(s, maxBytes);
    if k == 0 {
      SplitJoins(s, maxBytes);
      assert Split(s, maxBytes)[0..] == Split(s, maxBytes);
      CutMeetsThat(s, maxBytes);
    } else {
      assert Split(s, maxBytes) == [s[..c]] + Split(s[c..], maxBytes);
      SplitCutsWell(s[c..], maxBytes, k - 1);
      assert Split(s, maxBytes)[k..] == Split(s[c..], maxBytes)[k - 1..];
    }
  }

  /** A prefix of valid text is valid only where a character ends. */
  lemma {:induction false} BoundaryStarts(s: string, i: nat)
    requires Valid(s) && i < |s| && Valid(s[..i])
    ensures RuneStart(s[i])
    decreases |s|
  {
    hide RuneLength;
    var n := RuneLength(s);
    if i > 0 {
      var m := RuneLength(s[..i]);
      RuneLengthLocal(s[..i], s[i..]);
      assert s[..i] + s[i..] == s;
      assert m == n && s[..i][n..] == s[n..][..i - n];
      BoundaryStarts(s[n..], i - n);
    }
  }
}
