/**
  * Well-formed UTF-8 (RFC 3629, sections 3 and 4), as the Go library decodes it.
  * A Go string is the sequence of its bytes; here each byte is one `char` below 256.
  */
module Utf8 {

  const MAX_ASCII := '\U{7F}'

  predicate InRange(c: char, low: char, high: char) {
    low <= c <= high
  }

  predicate IsContinuation(c: char) {
    InRange(c, '\U{80}', '\U{BF}')
  }

  /** A byte that is not a continuation byte may begin a character. */
  predicate RuneStart(c: char) {
    !IsContinuation(c)
  }

  predicate SecondByteFits(first: char, second: char) {
    if first == '\U{E0}' then InRange(second, '\U{A0}', '\U{BF}')
    else if first == '\U{ED}' then InRange(second, '\U{80}', '\U{9F}')
    else if first == '\U{F0}' then InRange(second, '\U{90}', '\U{BF}')
    else if first == '\U{F4}' then InRange(second, '\U{80}', '\U{8F}')
    else IsContinuation(second)
  }

  /** The length of the well-formed character at the front, or 0 if there is none. */
  function RuneLength(s: string): (n: nat)
    ensures n <= 4 && n <= |s|
    ensures n > 0 ==> RuneStart(s[0]) && forall i :: 0 < i < n ==> IsContinuation(s[i])
  {
    if s == [] then 0
    else if s[0] <= MAX_ASCII then 1
    else if InRange(s[0], '\U{C2}', '\U{DF}') then
      if |s| >= 2 && IsContinuation(s[1]) then 2 else 0
    else if InRange(s[0], '\U{E0}', '\U{EF}') then
      if |s| >= 3 && SecondByteFits(s[0], s[1]) && IsContinuation(s[2]) then 3 else 0
    else if InRange(s[0], '\U{F0}', '\U{F4}') then
      if |s| >= 4 && SecondByteFits(s[0], s[1]) && IsContinuation(s[2]) && IsContinuation(s[3]) then 4 else 0
    else 0
  }

  /** How far the decoder advances: malformed input is skipped one byte at a time. */
  function DecodedSize(s: string): (n: nat)
    requires s != []
    ensures 1 <= n <= 4 && n <= |s|
  {
    if RuneLength(s) == 0 then 1 else RuneLength(s)
  }

  predicate Valid(s: string)
    decreases |s|
  {
    s == [] || (RuneLength(s) > 0 && Valid(s[RuneLength(s)..]))
  }

  /** A character is recognised from its own bytes alone. */
  lemma RuneLengthLocal(s: string, t: string)
    requires RuneLength(s) > 0
    ensures RuneLength(s + t) == RuneLength(s)
    ensures RuneLength(s[..RuneLength(s)]) == RuneLength(s)
  {
  }

  lemma {:induction false} ValidAppend(a: string, b: string)
    requires Valid(a) && Valid(b)
    ensures Valid(a + b)
    decreases |a|
  {
    hide RuneLength;
    if a == [] {
      assert a + b == b;
    } else {
      var n := RuneLength(a);
      RuneLengthLocal(a, b);
      ValidAppend(a[n..], b);
      assert (a + b)[n..] == a[n..] + b;
    }
  }

  lemma ValidCons(head: string, t: string)
    requires head != [] && RuneLength(head) == |head| && Valid(t)
    ensures Valid(head + t)
  {
    hide RuneLength;
    RuneLengthLocal(head, t);
    assert (head + t)[|head|..] == t;
  }

  lemma SliceBeyond(s: string, n: nat, i: nat)
    requires n <= i <= |s|
    ensures s[..i] == s[..n] + s[n..][..i - n] && s[n..][i - n..] == s[i..]
  {
  }

  /** A valid string may be cut anywhere except before a continuation byte. */
  lemma {:induction false} ValidCut(s: string, i: nat)
    requires Valid(s) && i <= |s| && (i < |s| ==> RuneStart(s[i]))
    ensures Valid(s[..i]) && Valid(s[i..])
    decreases |s|
  {
    hide RuneLength;
    if i == 0 {
      assert s[i..] == s;
    } else {
      var n := RuneLength(s);
      assert i >= n;
      ValidCut(s[n..], i - n);
      RuneLengthLocal(s, []);
      ValidCons(s[..n], s[n..][..i - n]);
      SliceBeyond(s, n, i);
    }
  }

  /** In valid UTF-8 some character begins within any four neighbouring bytes. */
  lemma {:induction false} StartNearby(s: string, i: nat) returns (j: nat)
    requires Valid(s) && i < |s|
    ensures j <= i < j + 4 && RuneStart(s[j])
    decreases |s|
  {
    hide RuneLength;
    var n := RuneLength(s);
    if i < n {
      j := 0;
    } else {
      j := StartNearby(s[n..], i - n);
      j := j + n;
    }
  }

  /** Nothing continues an ASCII byte. */
  lemma StartAfterAscii(s: string, i: nat)
    requires Valid(s) && i + 1 < |s| && s[i] <= MAX_ASCII
    ensures RuneStart(s[i + 1])
  {
    ValidCut(s, i);
    assert RuneLength(s[i..]) == 1 && s[i..][1..] == s[i + 1..];
    assert RuneLength(s[i + 1..]) > 0;
  }

  // ----- the characters it encodes (RFC 3629, section 3) -----

  /** A Unicode scalar value. */
  predicate IsScalar(c: nat) {
    c < 0xD800 || 0xE000 <= c < 0x11_0000
  }

  /** The low six bits of `n` behind the bits 10. */
  function Tail(n: nat): char {
    (0x80 + n % 64) as char
  }

  function Encode(c: nat): (s: string)
    requires IsScalar(c)
    ensures s != []
  {
    if c < 0x80 then [c as char]
    else if c < 0x800 then [(0xC0 + c / 64) as char, Tail(c)]
    else if c < 0x1_0000 then [(0xE0 + c / 64 / 64) as char, Tail(c / 64), Tail(c)]
    else [(0xF0 + c / 64 / 64 / 64) as char, Tail(c / 64 / 64), Tail(c / 64), Tail(c)]
  }

  function EncodeAll(cs: seq<nat>): string
    requires forall c :: c in cs ==> IsScalar(c)
  {
    if cs == [] then [] else Encode(cs[0]) + EncodeAll(cs[1..])
  }

  lemma EncodedIsRune(c: nat)
    requires IsScalar(c)
    ensures RuneLength(Encode(c)) == |Encode(c)|
  {
  }

  /** A value extended by the low six bits of a continuation byte. */
  function Extended(high: nat, tail: char): nat
    requires IsContinuation(tail)
  {
    high * 64 + (tail as int - 0x80)
  }

  lemma ExtendedSplits(high: nat, tail: char)
    requires IsContinuation(tail)
    ensures Extended(high, tail) / 64 == high && Tail(Extended(high, tail)) == tail
  {
  }

  /** The value of the character at the front. */
  function Decode(s: string): (c: nat)
    requires RuneLength(s) > 0
  {
    match RuneLength(s)
    case 1 => s[0] as int
    case 2 => Extended(s[0] as int - 0xC0, s[1])
    case 3 => Extended(Extended(s[0] as int - 0xE0, s[1]), s[2])
    case _ => Extended(Extended(Extended(s[0] as int - 0xF0, s[1]), s[2]), s[3])
  }

  lemma RuneIsEncoded(s: string)
    requires RuneLength(s) > 0
    ensures IsScalar(Decode(s)) && Encode(Decode(s)) == s[..RuneLength(s)]
  {
    hide Tail;
    match RuneLength(s) {
      case 1 =>
      case 2 =>
        ExtendedSplits(s[0] as int - 0xC0, s[1]);
      case 3 =>
        var x := Extended(s[0] as int - 0xE0, s[1]);
        ExtendedSplits(s[0] as int - 0xE0, s[1]);
        ExtendedSplits(x, s[2]);
      case _ =>
        var x := Extended(s[0] as int - 0xF0, s[1]);
        var y := Extended(x, s[2]);
        ExtendedSplits(s[0] as int - 0xF0, s[1]);
        ExtendedSplits(x, s[2]);
        ExtendedSplits(y, s[3]);
    }
  }

  /** The decoder advances over the encoded character at the front, or over one byte if there is none. */
  lemma DecodedSizeIs(s: string)
    requires s != []
    ensures forall c: nat :: IsScalar(c) && Encode(c) <= s ==> DecodedSize(s) == |Encode(c)|
    ensures (forall c: nat :: IsScalar(c) ==> !(Encode(c) <= s)) ==> DecodedSize(s) == 1
  {
    hide RuneLength, Encode, IsScalar, Decode;
    forall c: nat | IsScalar(c) && Encode(c) <= s ensures DecodedSize(s) == |Encode(c)| {
      EncodedIsRune(c);
      RuneLengthLocal(Encode(c), s[|Encode(c)|..]);
      assert Encode(c) + s[|Encode(c)|..] == s;
    }
    if RuneLength(s) > 0 {
      RuneIsEncoded(s);
    }
  }

  /** Valid UTF-8 is exactly what encoding some scalar values gives. */
  lemma ValidIffEncoded(s: string)
    ensures Valid(s) <==> exists cs: seq<nat> :: (forall c :: c in cs ==> IsScalar(c)) && s == EncodeAll(cs)
  {
    if Valid(s) {
      var cs := ValuesOf(s);
    }
    if cs: seq<nat> :| (forall c :: c in cs ==> IsScalar(c)) && s == EncodeAll(cs) {
      EncodedIsValid(cs);
    }
  }

  lemma {:induction false} ValuesOf(s: string) returns (cs: seq<nat>)
    requires Valid(s)
    ensures (forall c :: c in cs ==> IsScalar(c)) && s == EncodeAll(cs)
    decreases |s|
  {
    hide RuneLength, Encode, Decode, IsScalar;
    if s == [] {
      cs := [];
    } else {
      var n := RuneLength(s);
      RuneIsEncoded(s);
      var later := ValuesOf(s[n..]);
      cs := [Decode(s)] + later;
      assert cs[1..] == later && s == s[..n] + s[n..];
    }
  }

  lemma {:induction false} EncodedIsValid(cs: seq<nat>)
    requires forall c :: c in cs ==> IsScalar(c)
    ensures Valid(EncodeAll(cs))
  {
    hide RuneLength, Encode, IsScalar, Valid;
    if cs == [] {
      NothingIsValid();
    } else {
      EncodedIsValid(cs[1..]);
      EncodedIsRune(cs[0]);
      ValidCons(Encode(cs[0]), EncodeAll(cs[1..]));
    }
  }

  lemma NothingIsValid()
    ensures Valid([])
  {
  }
}
