/** Defusing code fences: EscapeCodeFence of internal/textutil. */
module CodeFence {
  import opened Utf8

  const TICK := '`'

  /** U+200B in UTF-8: the invisible character put into a fence. */
  const ZERO_WIDTH_SPACE := "\U{E2}\U{80}\U{8B}"

  const FENCE := "```"

  /** Every fence, from the left and without overlap, gets the invisible character after its first backtick. */
  function EscapeCodeFence(s: string): string {
    if s == [] then []
    else if FENCE <= s then "`" + ZERO_WIDTH_SPACE + "``" + EscapeCodeFence(s[3..])
    else [s[0]] + EscapeCodeFence(s[1..])
  }

  lemma ZeroWidthSpaceIs200B()
    ensures ZERO_WIDTH_SPACE == Encode(0x200B)
  {
  }

  function Ticks(n: nat): string {
    seq(n, _ => TICK)
  }

  predicate RunAt(s: string, i: nat, n: nat) {
    i + n <= |s| && s[i..i + n] == Ticks(n)
  }

  /** `n` consecutive backticks occur in `s`. */
  ghost predicate HasRun(s: string, n: nat) {
    exists i: nat :: RunAt(s, i, n)
  }

  // ----- runs of backticks and the characters around them -----

  lemma RunFreeOf(k: nat, c: char, t: string, n: nat)
    requires c != TICK && k < n
    ensures HasRun(Ticks(k) + [c] + t, n) <==> HasRun(t, n)
  {
    var whole := Ticks(k) + [c] + t;
    if HasRun(t, n) {
      var i: nat :| RunAt(t, i, n);
      assert whole[k + 1 + i..k + 1 + i + n] == t[i..i + n];
      assert RunAt(whole, k + 1 + i, n);
    }
    if HasRun(whole, n) {
      var i: nat :| RunAt(whole, i, n);
      assert forall m :: i <= m < i + n ==> whole[m] == whole[i..i + n][m - i];
      assert whole[k] == c;
      assert t[i - k - 1..i - k - 1 + n] == whole[i..i + n];
      assert RunAt(t, i - k - 1, n);
    }
  }

  lemma RunAtFront(s: string, n: nat)
    requires Ticks(n) <= s
    ensures HasRun(s, n)
  {
    assert RunAt(s, 0, n);
  }

  lemma ShortRunFree(k: nat, n: nat)
    requires k < n
    ensures !HasRun(Ticks(k), n)
  {
  }

  /** The text after a fence just replaced begins after two backticks; the input there had three. */
  lemma {:induction false} AfterFence(s: string)
    ensures HasRun(Ticks(2) + EscapeCodeFence(s), 3) <==> HasRun(Ticks(3) + s, 4)
    decreases |s|, 0
  {
    if s == [] {
      assert Ticks(2) + EscapeCodeFence(s) == Ticks(2) && Ticks(3) + s == Ticks(3);
      ShortRunFree(2, 3);
      ShortRunFree(3, 4);
    } else if s[0] == TICK {
      assert EscapeCodeFence(s)[0] == TICK;
      assert Ticks(3) <= Ticks(2) + EscapeCodeFence(s) && Ticks(4) <= Ticks(3) + s;
      RunAtFront(Ticks(2) + EscapeCodeFence(s), 3);
      RunAtFront(Ticks(3) + s, 4);
    } else {
      RunFreeOf(2, s[0], EscapeCodeFence(s[1..]), 3);
      RunFreeOf(3, s[0], s[1..], 4);
      assert Ticks(2) + EscapeCodeFence(s) == Ticks(2) + [s[0]] + EscapeCodeFence(s[1..]);
      assert Ticks(3) + s == Ticks(3) + [s[0]] + s[1..];
      FenceSurvives(s[1..]);
    }
  }

  /** A fence survives exactly where the input has four backticks in a row. */
  lemma {:induction false} FenceSurvives(s: string)
    ensures HasRun(EscapeCodeFence(s), 3) <==> HasRun(s, 4)
    decreases |s|, 1
  {
    if s == [] {
    } else if FENCE <= s {
      var later := EscapeCodeFence(s[3..]);
      AfterFence(s[3..]);
      assert s == Ticks(3) + s[3..];
      RunFreeOf(1, ZERO_WIDTH_SPACE[0], ZERO_WIDTH_SPACE[1..] + Ticks(2) + later, 3);
      RunFreeOf(0, ZERO_WIDTH_SPACE[1], ZERO_WIDTH_SPACE[2..] + Ticks(2) + later, 3);
      RunFreeOf(0, ZERO_WIDTH_SPACE[2], Ticks(2) + later, 3);
      assert EscapeCodeFence(s) == Ticks(1) + [ZERO_WIDTH_SPACE[0]] + (ZERO_WIDTH_SPACE[1..] + Ticks(2) + later);
      assert ZERO_WIDTH_SPACE[1..] + Ticks(2) + later
          == Ticks(0) + [ZERO_WIDTH_SPACE[1]] + (ZERO_WIDTH_SPACE[2..] + Ticks(2) + later);
      assert ZERO_WIDTH_SPACE[2..] + Ticks(2) + later == Ticks(0) + [ZERO_WIDTH_SPACE[2]] + (Ticks(2) + later);
    } else {
      var k := LeadingTicks(s);
      LeadingTicksSpec(s);
      ShortRunKept(s, k);
      if k == |s| {
        ShortRunFree(k, 3);
        ShortRunFree(k, 4);
        assert s == Ticks(k) && EscapeCodeFence(s) == Ticks(k);
      } else {
        var t := s[k + 1..];
        FenceSurvives(t);
        RunFreeOf(k, s[k], t, 4);
        RunFreeOf(k, s[k], EscapeCodeFence(t), 3);
        assert s == Ticks(k) + [s[k]] + t;
      }
    }
  }

  function LeadingTicks(s: string): (k: nat)
    ensures k <= |s|
  {
    if s == [] || s[0] != TICK then 0 else 1 + LeadingTicks(s[1..])
  }

  lemma {:induction false} LeadingTicksSpec(s: string)
    ensures s[..LeadingTicks(s)] == Ticks(LeadingTicks(s))
    ensures LeadingTicks(s) < |s| ==> s[LeadingTicks(s)] != TICK
    ensures !(FENCE <= s) ==> LeadingTicks(s) < 3
  {
    if s != [] && s[0] == TICK {
      LeadingTicksSpec(s[1..]);
      var k := LeadingTicks(s[1..]);
      assert s[..k + 1] == [s[0]] + s[1..][..k];
      if k + 1 >= 3 {
        assert s[..3] == s[..k + 1][..3] == FENCE;
      }
    }
  }

  lemma FenceIsRun(s: string)
    requires FENCE <= s
    ensures LeadingTicks(s) >= 3
  {
    assert s[0] == FENCE[0] && s[1..][0] == FENCE[1] && s[1..][1..][0] == FENCE[2];
    assert LeadingTicks(s[1..][1..]) >= 1 && LeadingTicks(s[1..]) >= 2;
  }

  /** A run too short to be a fence, and the character that ends it, are copied. */
  lemma {:induction false} ShortRunKept(s: string, k: nat)
    requires k == LeadingTicks(s) && k < 3
    ensures EscapeCodeFence(s) ==
      if k == |s| then s else Ticks(k) + [s[k]] + EscapeCodeFence(s[k + 1..])
  {
    LeadingTicksSpec(s);
    if FENCE <= s {
      FenceIsRun(s);
    }
    if k == 0 {
      assert Ticks(0) == [];
    } else {
      ShortRunKept(s[1..], k - 1);
      assert k < |s| ==> s[1..][k - 1] == s[k] && s[1..][k..] == s[k + 1..];
      ShortRunStep(s, k);
    }
  }

  lemma ShortRunStep(s: string, k: nat)
    requires 0 < k <= |s| && s[0] == TICK && !(FENCE <= s)
    requires k - 1 == |s[1..]| ==> EscapeCodeFence(s[1..]) == s[1..]
    requires k < |s| ==> EscapeCodeFence(s[1..]) == Ticks(k - 1) + [s[k]] + EscapeCodeFence(s[k + 1..])
    ensures EscapeCodeFence(s) == if k == |s| then s else Ticks(k) + [s[k]] + EscapeCodeFence(s[k + 1..])
  {
    hide EscapeCodeFence;
    CopiedOne(s);
    assert Ticks(k) == [s[0]] + Ticks(k - 1);
  }

  lemma CopiedOne(s: string)
    requires s != [] && !(FENCE <= s)
    ensures EscapeCodeFence(s) == [s[0]] + EscapeCodeFence(s[1..])
  {
  }

  // ----- escaping only adds the invisible character -----

  function EraseZeroWidth(s: string): string {
    if s == [] then []
    else if ZERO_WIDTH_SPACE <= s then EraseZeroWidth(s[3..])
    else [s[0]] + EraseZeroWidth(s[1..])
  }

  lemma EraseCons(c: char, s: string)
    requires c != ZERO_WIDTH_SPACE[0]
    ensures EraseZeroWidth([c] + s) == [c] + EraseZeroWidth(s)
  {
    assert ([c] + s)[1..] == s && ([c] + s)[0] == c;
  }

  lemma {:induction false} EraseTicks(k: nat, s: string)
    ensures EraseZeroWidth(Ticks(k) + s) == Ticks(k) + EraseZeroWidth(s)
  {
    hide EraseZeroWidth;
    if k == 0 {
      assert Ticks(0) + s == s && Ticks(0) + EraseZeroWidth(s) == EraseZeroWidth(s);
    } else {
      EraseTicks(k - 1, s);
      EraseCons(TICK, Ticks(k - 1) + s);
      assert Ticks(k) == [TICK] + Ticks(k - 1);
      assert [TICK] + Ticks(k - 1) + s == [TICK] + (Ticks(k - 1) + s);
      assert Ticks(k) + EraseZeroWidth(s) == [TICK] + (Ticks(k - 1) + EraseZeroWidth(s));
    }
  }

  lemma EraseAdded(s: string)
    ensures EraseZeroWidth(ZERO_WIDTH_SPACE + s) == EraseZeroWidth(s)
  {
    assert (ZERO_WIDTH_SPACE + s)[3..] == s;
  }

  /** Escaping leaves the invisible character where it is, and puts none at the front. */
  lemma EscapeFront(s: string)
    ensures ZERO_WIDTH_SPACE <= s <==> ZERO_WIDTH_SPACE <= EscapeCodeFence(s)
    ensures ZERO_WIDTH_SPACE <= s ==> EscapeCodeFence(s) == ZERO_WIDTH_SPACE + EscapeCodeFence(s[3..])
  {
    if ZERO_WIDTH_SPACE <= s {
      CopiedUpTo(s, 3);
    }
    if ZERO_WIDTH_SPACE <= EscapeCodeFence(s) {
      EscapeFrontOnly(s);
    }
  }

  lemma EscapeFrontOnly(s: string)
    requires ZERO_WIDTH_SPACE <= EscapeCodeFence(s)
    ensures ZERO_WIDTH_SPACE <= s
  {
    hide EscapeCodeFence;
    var e := EscapeCodeFence(s);
    assert e[0] == ZERO_WIDTH_SPACE[0] && e[1] == ZERO_WIDTH_SPACE[1] && e[2] == ZERO_WIDTH_SPACE[2];
    EscapeHead(s);
    assert e[1..][0] == e[1];
    EscapeHead(s[1..]);
    assert e[1..][1..][0] == e[2];
    EscapeHead(s[1..][1..]);
  }

  lemma EscapeHead(s: string)
    ensures s == [] <==> EscapeCodeFence(s) == []
    ensures s != [] ==> EscapeCodeFence(s)[0] == s[0]
    ensures s != [] && s[0] != TICK ==> EscapeCodeFence(s)[1..] == EscapeCodeFence(s[1..])
  {
  }

  lemma EscapedFence(s: string)
    requires FENCE <= s
    ensures s == Ticks(3) + s[3..]
    ensures EscapeCodeFence(s) == Ticks(1) + (ZERO_WIDTH_SPACE + (Ticks(2) + EscapeCodeFence(s[3..])))
  {
  }

  lemma ThreeTicks(t: string)
    ensures Ticks(1) + (Ticks(2) + t) == Ticks(3) + t
  {
  }

  /** Deleting the invisible characters from the output and from the input gives the same text. */
  lemma {:induction false} EscapeIsInvisible(s: string)
    ensures EraseZeroWidth(EscapeCodeFence(s)) == EraseZeroWidth(s)
    decreases |s|
  {
    if s == [] {
    } else if FENCE <= s {
      EscapedFence(s);
      hide EraseZeroWidth, EscapeCodeFence, Ticks;
      var later := EscapeCodeFence(s[3..]);
      EscapeIsInvisible(s[3..]);
      EraseTicks(3, s[3..]);
      EraseTicks(1, ZERO_WIDTH_SPACE + (Ticks(2) + later));
      EraseAdded(Ticks(2) + later);
      EraseTicks(2, later);
      ThreeTicks(EraseZeroWidth(later));
    } else {
      EscapeFront(s);
      if ZERO_WIDTH_SPACE <= s {
        EscapeIsInvisible(s[3..]);
        EraseAdded(EscapeCodeFence(s[3..]));
      } else {
        EscapeIsInvisible(s[1..]);
        assert EscapeCodeFence(s)[1..] == EscapeCodeFence(s[1..]);
      }
    }
  }

  lemma {:induction false} CopiedUpTo(s: string, n: nat)
    requires n <= |s| && forall i :: 0 <= i < n ==> s[i] != TICK
    ensures EscapeCodeFence(s) == s[..n] + EscapeCodeFence(s[n..])
  {
    if n == 0 {
      assert s[0..] == s;
    } else {
      CopiedUpTo(s[1..], n - 1);
      assert s[1..][n - 1..] == s[n..] && s[..n] == [s[0]] + s[1..][..n - 1];
    }
  }

  lemma InsertedIsValid()
    ensures Valid("`" + ZERO_WIDTH_SPACE + "``")
  {
    assert RuneLength("`") == 1 && Valid("`"[1..]);
    assert RuneLength(ZERO_WIDTH_SPACE) == 3 && Valid(ZERO_WIDTH_SPACE[3..]);
    assert Valid("`") && Valid(ZERO_WIDTH_SPACE);
    ValidAppend("`", ZERO_WIDTH_SPACE);
    ValidAppend("`" + ZERO_WIDTH_SPACE, "`");
    ValidAppend("`" + ZERO_WIDTH_SPACE + "`", "`");
    assert "`" + ZERO_WIDTH_SPACE + "`" + "`" == "`" + ZERO_WIDTH_SPACE + "``";
  }

  /** Escaping keeps UTF-8 valid, so the result can be split safely. */
  lemma {:induction false} EscapeKeepsValid(s: string)
    requires Valid(s)
    ensures Valid(EscapeCodeFence(s))
    decreases |s|
  {
    if s == [] {
    } else if FENCE <= s {
      assert s[2] == FENCE[2];
      if |s| > 3 {
        StartAfterAscii(s, 2);
      }
      ValidCut(s, 3);
      EscapeKeepsValid(s[3..]);
      InsertedIsValid();
      ValidAppend("`" + ZERO_WIDTH_SPACE + "``", EscapeCodeFence(s[3..]));
    } else {
      var n := RuneLength(s);
      if n > 1 {
        CopiedUpTo(s, n);
      }
      RuneLengthLocal(s, []);
      EscapeKeepsValid(s[n..]);
      ValidCons(s[..n], EscapeCodeFence(s[n..]));
    }
  }
}
