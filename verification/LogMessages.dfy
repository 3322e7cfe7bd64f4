/** From one flush to the Discord messages that carry it: sendOutput of internal/daemon. */
module LogMessages {
  import opened Sequences
  import opened Protocol
  import opened Utf8
  import opened TextSplit
  import opened CodeFence
  import opened Batching

  function ShortRunID(runID: string): (s: string)
    ensures |s| <= 8
  {
    if |runID| <= 8 then runID else runID[..8]
  }

  function TrimNewline(part: string): (s: string)
    ensures |s| <= |part|
  {
    if part != "" && part[|part| - 1] == '\n' then part[..|part| - 1] else part
  }

  /** A middle dot between spaces, each between a closing and an opening backtick. */
  const SEPARATOR := "` \U{C2}\U{B7} `"

  function Content(cfg: Config, stream: string, part: string): string {
    "**`" + ShortRunID(cfg.runID) + SEPARATOR + stream + "`**\n```text\n" + TrimNewline(part) + "\n```"
  }

  /** The pieces of a flush, each the body of one message. */
  function Parts(cfg: Config, flush: Record): seq<string> {
    Split(EscapeCodeFence(flush.data), cfg.maxLogBytes)
  }

  function Contents(cfg: Config, stream: string, parts: seq<string>): (r: seq<string>)
    ensures |r| == |parts|
  {
    seq(|parts|, i requires 0 <= i < |parts| => Content(cfg, stream, parts[i]))
  }

  function MessagesOf(cfg: Config, flush: Record): seq<string> {
    Contents(cfg, flush.stream, Parts(cfg, flush))
  }

  function AllMessages(cfg: Config, flushes: seq<Record>): seq<string> {
    if flushes == [] then []
    else AllMessages(cfg, flushes[..|flushes| - 1]) + MessagesOf(cfg, flushes[|flushes| - 1])
  }

  lemma AllMessagesSnoc(cfg: Config, flushes: seq<Record>, f: Record)
    ensures AllMessages(cfg, flushes + [f]) == AllMessages(cfg, flushes) + MessagesOf(cfg, f)
  {
    assert (flushes + [f])[..|flushes|] == flushes;
  }

  lemma StreamsAreShort(stream: string)
    requires IsStream(stream)
    ensures |stream| == 6
  {
  }

  lemma ContentSize(cfg: Config, stream: string, part: string)
    requires IsStream(stream)
    ensures |Content(cfg, stream, part)| <= |part| + 39
  {
    StreamsAreShort(stream);
  }

  // ----- reading a message -----

  /** What a message says: the run, the stream, and the text of its code block. */
  datatype Said = Said(runID: string, stream: string, body: string)

  /** The end of the heading and the opening of the code block. */
  const BLOCK_OPENS := "`**\n```text\n"
  const BLOCK_CLOSES := "\n```"

  /** Where `needle` first occurs, or the length if it does not. */
  function FirstAt(s: string, needle: string): (p: nat)
    ensures p <= |s|
  {
    if needle <= s || s == "" then 0 else 1 + FirstAt(s[1..], needle)
  }

  /** Reads a message from the outside: the heading up to the first opening of a block, the block up to the end. */
  function ReadMessage(m: string): Option<Said> {
    var p := FirstAt(m, BLOCK_OPENS);
    if 15 <= p && p + 16 <= |m| && m[..3] == "**`"
       && m[p - 12..p - 6] == "` \U{C2}\U{B7} `" && m[|m| - 4..] == BLOCK_CLOSES
    then Some(Said(m[3..p - 12], m[p - 6..p], m[p + 12..|m| - 4]))
    else None
  }

  /** The message names this run by the first eight bytes of its ID. */
  ghost predicate NamesRun(message: string, runID: string) {
    && ReadMessage(message).Some?
    && ReadMessage(message).value.runID <= runID
    && |ReadMessage(message).value.runID| == Min(|runID|, 8)
  }

  predicate EndsLine(part: string) {
    part != "" && part[|part| - 1] == '\n'
  }

  /** The message names the run and the stream and holds the part, less one final newline. */
  ghost predicate Says(cfg: Config, message: string, stream: string, part: string) {
    && NamesRun(message, cfg.runID)
    && var said := ReadMessage(message).value;
       && said.stream == stream
       && part == said.body + (if EndsLine(part) then "\n" else "")
  }

  lemma {:induction false} FirstAtIs(s: string, needle: string, p: nat)
    requires p <= |s| && needle <= s[p..] && needle != ""
    requires forall q :: 0 <= q < p ==> !(needle <= s[q..])
    ensures FirstAt(s, needle) == p
  {
    assert s[0..] == s;
    if p > 0 {
      forall q | 0 <= q < p - 1 ensures !(needle <= s[1..][q..]) {
        assert s[1..][q..] == s[q + 1..];
      }
      assert s[1..][p - 1..] == s[p..];
      FirstAtIs(s[1..], needle, p - 1);
    }
  }

  lemma OpeningShape()
    ensures |BLOCK_OPENS| == 12 && BLOCK_OPENS[0] == '`' && BLOCK_OPENS[1] == '*' && ' ' !in BLOCK_OPENS
  {
  }

  lemma StreamLetters(stream: string)
    requires IsStream(stream)
    ensures |stream| == 6 && stream[0] != '*' && '`' !in stream
  {
  }

  lemma SeparatorShape()
    ensures |SEPARATOR| == 6 && SEPARATOR[1] == ' ' && SEPARATOR == "` \U{C2}\U{B7} `"
    ensures forall k :: 2 <= k < 5 ==> SEPARATOR[k] != '`'
  {
  }

  lemma Mismatch(m: string, needle: string, q: nat, k: nat)
    requires q + k < |m| && k < |needle| && m[q + k] != needle[k]
    ensures !(needle <= m[q..])
  {
    assert m[q..][k] == m[q + k];
  }

  /** The opening cannot occur earlier: the heading has a blank near its end, and letters behind that. */
  lemma OpensFirstHere(id: string, sep: string, stream: string, opens: string, rest: string)
    requires |id| <= 8 && |sep| == 6 && sep[1] == ' ' && (forall k :: 2 <= k < 5 ==> sep[k] != '`')
    requires |stream| == 6 && stream[0] != '*' && '`' !in stream
    requires |opens| == 12 && opens[0] == '`' && opens[1] == '*' && ' ' !in opens
    ensures FirstAt("**`" + id + sep + stream + opens + rest, opens) == 3 + |id| + 12
  {
    hide FirstAt;
    var m := "**`" + id + sep + stream + opens + rest;
    var p := 3 + |id| + 12;
    assert m[p..] == opens + rest;
    assert forall k :: 0 <= k < 6 ==> m[p - 12 + k] == sep[k] && m[p - 6 + k] == stream[k];
    forall q | 0 <= q < p ensures !(opens <= m[q..]) {
      if q == 0 {
        Mismatch(m, opens, q, 0);
      } else if q <= p - 11 {
        Mismatch(m, opens, q, p - 11 - q);
      } else if q == p - 7 {
        Mismatch(m, opens, q, 1);
      } else if q > p - 7 {
        assert m[q] == stream[q - (p - 6)];
        Mismatch(m, opens, q, 0);
      } else {
        assert m[q] == sep[q - (p - 12)];
        Mismatch(m, opens, q, 0);
      }
    }
    FirstAtIs(m, opens, p);
  }

  /** Every message reads back as what was put in. */
  lemma ContentSays(cfg: Config, stream: string, part: string)
    requires IsStream(stream)
    ensures Says(cfg, Content(cfg, stream, part), stream, part)
  {
    hide FirstAt;
    var id, body := ShortRunID(cfg.runID), TrimNewline(part);
    var m := Content(cfg, stream, part);
    var p := 3 + |id| + 12;
    OpeningShape();
    StreamLetters(stream);
    SeparatorShape();
    OpensFirstHere(id, SEPARATOR, stream, BLOCK_OPENS, body + BLOCK_CLOSES);
    assert m == "**`" + id + SEPARATOR + stream + BLOCK_OPENS + (body + BLOCK_CLOSES);
    assert m[..3] == "**`" && m[3..p - 12] == id && m[p - 12..p - 6] == SEPARATOR && m[p - 6..p] == stream;
    assert m[p + 12..|m| - 4] == body && m[|m| - 4..] == BLOCK_CLOSES;
  }

  /** The messages of one flush carry its escaped data, cut into parts, and nothing else. */
  ghost predicate SaysFlush(cfg: Config, messages: seq<string>, flush: Record) {
    exists parts :: CarriesParts(cfg, messages, flush.stream, parts) && Flatten(parts) == EscapeCodeFence(flush.data)
  }

  ghost predicate CarriesParts(cfg: Config, messages: seq<string>, stream: string, parts: seq<string>) {
    |messages| == |parts| && forall i :: 0 <= i < |messages| ==> Says(cfg, messages[i], stream, parts[i])
  }

  lemma MessagesSay(cfg: Config, flush: Record)
    requires IsStream(flush.stream)
    ensures SaysFlush(cfg, MessagesOf(cfg, flush), flush)
  {
    hide Content, Says, Split, IsStream;
    var parts := Parts(cfg, flush);
    SplitJoins(EscapeCodeFence(flush.data), cfg.maxLogBytes);
    forall i | 0 <= i < |parts| ensures Says(cfg, MessagesOf(cfg, flush)[i], flush.stream, parts[i]) {
      ContentSays(cfg, flush.stream, parts[i]);
    }
    assert CarriesParts(cfg, MessagesOf(cfg, flush), flush.stream, parts);
  }

  // ----- what all messages of a run say together -----

  /** One record per message, as read, with the newline put back where it was trimmed at a cut. */
  function Resaid(messages: seq<string>, trimmed: seq<bool>): (r: seq<Record>)
    requires |messages| == |trimmed|
    ensures |r| == |messages|
  {
    seq(|messages|, i requires 0 <= i < |messages| =>
      match ReadMessage(messages[i])
      case None => Record("", "")
      case Some(said) => Record(said.stream, said.body + (if trimmed[i] then "\n" else "")))
  }

  function EscapedAll(flushes: seq<Record>): (r: seq<Record>)
    ensures |r| == |flushes|
  {
    seq(|flushes|, i requires 0 <= i < |flushes| => Record(flushes[i].stream, EscapeCodeFence(flushes[i].data)))
  }

  lemma {:induction false} PartsTagged(stream: string, parts: seq<string>, rs: seq<Record>)
    requires |rs| == |parts| && forall i :: 0 <= i < |rs| ==> rs[i] == Record(stream, parts[i])
    ensures TaggedAll(rs) == Tagged(Record(stream, Flatten(parts)))
    decreases |parts|
  {
    hide Tagged;
    if parts == [] {
      assert Tagged(Record(stream, Flatten(parts))) == [] by {
        NothingTagged(stream);
      }
    } else {
      var init, last := parts[..|parts| - 1], parts[|parts| - 1];
      PartsTagged(stream, init, rs[..|rs| - 1]);
      assert parts == init + [last];
      FlattenSnoc(init, last);
      TaggedConcat(stream, Flatten(init), last);
    }
  }

  lemma NothingTagged(stream: string)
    ensures Tagged(Record(stream, [])) == []
  {
  }

  lemma FlushResaid(cfg: Config, flush: Record) returns (trimmed: seq<bool>)
    requires IsStream(flush.stream)
    ensures |trimmed| == |MessagesOf(cfg, flush)|
    ensures TaggedAll(Resaid(MessagesOf(cfg, flush), trimmed))
         == Tagged(Record(flush.stream, EscapeCodeFence(flush.data)))
    ensures forall m :: m in MessagesOf(cfg, flush) ==> NamesRun(m, cfg.runID)
  {
    hide ReadMessage, MessagesOf, EscapeCodeFence, IsStream, TaggedAll, Tagged, Flatten;
    MessagesSay(cfg, flush);
    var messages := MessagesOf(cfg, flush);
    var parts :| CarriesParts(cfg, messages, flush.stream, parts) && Flatten(parts) == EscapeCodeFence(flush.data);
    trimmed := seq(|messages|, i requires 0 <= i < |messages| => EndsLine(parts[i]));
    var rs := Resaid(messages, trimmed);
    forall i | 0 <= i < |rs| ensures rs[i] == Record(flush.stream, parts[i]) {
      assert Says(cfg, messages[i], flush.stream, parts[i]);
    }
    PartsTagged(flush.stream, parts, rs);
  }

  lemma ResaidAppend(a: seq<string>, s: seq<bool>, b: seq<string>, t: seq<bool>)
    requires |a| == |s| && |b| == |t|
    ensures Resaid(a + b, s + t) == Resaid(a, s) + Resaid(b, t)
  {
    hide ReadMessage;
  }

  /**
    * Read one after the other, the messages of all flushes say what was flushed, escaped, byte by byte under
    * the right stream; escaping adds nothing that can be seen.
    */
  lemma {:induction false} FlushesResaid(cfg: Config, flushes: seq<Record>) returns (trimmed: seq<bool>)
    requires forall f :: f in flushes ==> IsStream(f.stream)
    ensures |trimmed| == |AllMessages(cfg, flushes)|
    ensures TaggedAll(Resaid(AllMessages(cfg, flushes), trimmed)) == TaggedAll(EscapedAll(flushes))
    ensures forall i :: 0 <= i < |flushes| ==>
      && EscapedAll(flushes)[i].stream == flushes[i].stream
      && EraseZeroWidth(EscapedAll(flushes)[i].data) == EraseZeroWidth(flushes[i].data)
    ensures forall m :: m in AllMessages(cfg, flushes) ==> NamesRun(m, cfg.runID)
    decreases |flushes|
  {
    hide MessagesOf, Resaid, IsStream, Tagged, EscapeCodeFence, EraseZeroWidth, NamesRun;
    if flushes == [] {
      trimmed := [];
      assert Resaid([], []) == [] && EscapedAll(flushes) == [];
    } else {
      var init, last := flushes[..|flushes| - 1], flushes[|flushes| - 1];
      assert flushes == init + [last] && last in flushes;
      var earlier := FlushesResaid(cfg, init);
      var own := FlushResaid(cfg, last);
      trimmed := earlier + own;
      AllMessagesSnoc(cfg, init, last);
      ResaidAppend(AllMessages(cfg, init), earlier, MessagesOf(cfg, last), own);
      TaggedAppend(Resaid(AllMessages(cfg, init), earlier), Resaid(MessagesOf(cfg, last), own));
      assert EscapedAll(flushes) == EscapedAll(init) + [Record(last.stream, EscapeCodeFence(last.data))];
      TaggedSnoc(EscapedAll(init), Record(last.stream, EscapeCodeFence(last.data)));
      EscapeIsInvisible(last.data);
    }
  }

  /** No log message exceeds the chunk limit by more than the 39 bytes of its frame, escapes included. */
  lemma MessagesFit(cfg: Config, flush: Record)
    requires ValidConfig(cfg) && IsStream(flush.stream)
    ensures forall m :: m in MessagesOf(cfg, flush) ==> |m| <= cfg.maxLogBytes + 39
  {
    hide Content, Split;
    var parts := Parts(cfg, flush);
    SplitBounded(EscapeCodeFence(flush.data), cfg.maxLogBytes);
    forall i | 0 <= i < |parts| ensures |MessagesOf(cfg, flush)[i]| <= cfg.maxLogBytes + 39 {
      assert parts[i] in parts;
      ContentSize(cfg, flush.stream, parts[i]);
    }
  }

  /** Nothing of a flush is lost in its messages: their bodies are the escaped data, cut up. */
  lemma PartsJoin(cfg: Config, flush: Record)
    ensures Flatten(Parts(cfg, flush)) == EscapeCodeFence(flush.data)
    ensures EraseZeroWidth(Flatten(Parts(cfg, flush))) == EraseZeroWidth(flush.data)
  {
    SplitJoins(EscapeCodeFence(flush.data), cfg.maxLogBytes);
    EscapeIsInvisible(flush.data);
  }

  /** Message bodies made from valid UTF-8 are valid UTF-8. */
  lemma PartsAreUtf8(cfg: Config, flush: Record)
    requires Valid(flush.data)
    ensures forall p :: p in Parts(cfg, flush) ==> Valid(p)
  {
    EscapeKeepsValid(flush.data);
    SplitKeepsValid(EscapeCodeFence(flush.data), cfg.maxLogBytes);
  }

  lemma {:induction false} ChunkIsInfix(chunks: seq<string>, i: nat) returns (before: string, after: string)
    requires i < |chunks|
    ensures Flatten(chunks) == before + chunks[i] + after
  {
    if i == 0 {
      before, after := [], Flatten(chunks[1..]);
    } else {
      before, after := ChunkIsInfix(chunks[1..], i - 1);
      before := chunks[0] + before;
    }
  }

  lemma InfixRun(before: string, middle: string, after: string, n: nat)
    requires HasRun(middle, n)
    ensures HasRun(before + middle + after, n)
  {
    var i: nat :| RunAt(middle, i, n);
    var whole := before + middle + after;
    assert whole[|before| + i..|before| + i + n] == middle[i..i + n];
    assert RunAt(whole, |before| + i, n);
  }

  /** Unless four backticks come in a row, no body contains a fence that could end its code block. */
  lemma PartsHaveNoFence(cfg: Config, flush: Record)
    requires !HasRun(flush.data, 4)
    ensures forall p :: p in Parts(cfg, flush) ==> !HasRun(p, 3)
  {
    hide HasRun, EscapeCodeFence, Split;
    FenceSurvives(flush.data);
    PartsJoin(cfg, flush);
    var parts := Parts(cfg, flush);
    forall i | 0 <= i < |parts| ensures !HasRun(parts[i], 3) {
      var before, after := ChunkIsInfix(parts, i);
      if HasRun(parts[i], 3) {
        InfixRun(before, parts[i], after, 3);
      }
    }
  }

  /** With four in a row a fence survives escaping: here it stands in the only body. */
  lemma FourBackticksGetThrough(cfg: Config)
    requires ValidConfig(cfg)
    ensures Parts(cfg, Record(STDOUT, Ticks(4))) == [EscapeCodeFence(Ticks(4))]
    ensures HasRun(EscapeCodeFence(Ticks(4)), 3)
  {
    assert RunAt(Ticks(4), 0, 4);
    FenceSurvives(Ticks(4));
    assert FENCE <= Ticks(4) && Ticks(4)[3..] == Ticks(1);
    assert |EscapeCodeFence(Ticks(1))| == 1;
    assert |EscapeCodeFence(Ticks(4))| == 7;
  }
}
