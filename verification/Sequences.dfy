/** Option, and the few facts about sequences that several modules share. */
module Sequences {

  datatype Option<+T> = None | Some(value: T)

  function Min(a: int, b: int): int {
    if a < b then a else b
  }

  function Max(a: int, b: int): int {
    if a < b then b else a
  }

  function Power2(n: nat): (p: nat)
    ensures p > 0
  {
    if n == 0 then 1 else 2 * Power2(n - 1)
  }

  /** The concatenation of a sequence of sequences. */
  function Flatten<T>(parts: seq<seq<T>>): seq<T> {
    if parts == [] then [] else parts[0] + Flatten(parts[1..])
  }

  lemma {:induction false} FlattenAppend<T>(a: seq<seq<T>>, b: seq<seq<T>>)
    ensures Flatten(a + b) == Flatten(a) + Flatten(b)
  {
    if a == [] {
      assert a + b == b;
    } else {
      assert (a + b)[1..] == a[1..] + b;
      FlattenAppend(a[1..], b);
    }
  }

  lemma FlattenSnoc<T>(a: seq<seq<T>>, x: seq<T>)
    ensures Flatten(a + [x]) == Flatten(a) + x
  {
    FlattenAppend(a, [x]);
    assert Flatten([x]) == x + Flatten<T>([]);
  }

  /** `a` is obtained from `b` by deleting elements and keeping the order. */
  predicate Subsequence<T(==)>(a: seq<T>, b: seq<T>) {
    if a == [] then true
    else if b == [] then false
    else if a[0] == b[0] && Subsequence(a[1..], b[1..]) then true
    else Subsequence(a, b[1..])
  }

  lemma {:induction false} SubsequenceSnoc<T>(a: seq<T>, b: seq<T>, x: T)
    requires Subsequence(a, b)
    ensures Subsequence(a + [x], b + [x])
    ensures Subsequence(a, b + [x])
  {
    if b == [] {
      assert a == [] && a + [x] == [x] && b + [x] == [x];
    } else {
      assert (b + [x])[1..] == b[1..] + [x];
      if a == [] {
        SubsequenceSnoc(a, b[1..], x);
        assert a + [x] == [x];
      } else if a[0] == b[0] && Subsequence(a[1..], b[1..]) {
        SubsequenceSnoc(a[1..], b[1..], x);
        assert (a + [x])[1..] == a[1..] + [x];
      } else {
        SubsequenceSnoc(a, b[1..], x);
      }
    }
  }

  lemma {:induction false} SubsequenceTrans<T>(a: seq<T>, b: seq<T>, c: seq<T>)
    requires Subsequence(a, b) && Subsequence(b, c)
    ensures Subsequence(a, c)
    decreases |a| + |b| + |c|
  {
    if a == [] || b == [] || c == [] {
    } else if b[0] == c[0] && Subsequence(b[1..], c[1..]) {
      if a[0] == b[0] && Subsequence(a[1..], b[1..]) {
        SubsequenceTrans(a[1..], b[1..], c[1..]);
      } else {
        SubsequenceTrans(a, b[1..], c[1..]);
      }
    } else {
      SubsequenceTrans(a, b, c[1..]);
    }
  }

  lemma {:induction false} SubsequenceMember<T>(a: seq<T>, b: seq<T>, x: T)
    requires Subsequence(a, b) && x in a
    ensures x in b
  {
    if a[0] == b[0] && Subsequence(a[1..], b[1..]) {
      if x != a[0] {
        SubsequenceMember(a[1..], b[1..], x);
      }
    } else {
      SubsequenceMember(a, b[1..], x);
    }
  }

  /** A subsequence is no longer, and a subsequence of the same length is the sequence itself. */
  lemma {:induction false} SubsequenceLength<T>(a: seq<T>, b: seq<T>)
    requires Subsequence(a, b)
    ensures |a| <= |b| && (|a| == |b| ==> a == b)
  {
    if a != [] {
      if a[0] == b[0] && Subsequence(a[1..], b[1..]) {
        SubsequenceLength(a[1..], b[1..]);
      } else {
        SubsequenceLength(a, b[1..]);
      }
    }
  }

  lemma {:induction false} SubsequenceAfter<T>(front: seq<T>, a: seq<T>, b: seq<T>)
    requires Subsequence(a, b)
    ensures Subsequence(front + a, front + b) && Subsequence(a, front + b)
  {
    if front == [] {
      assert [] + a == a && [] + b == b;
    } else {
      SubsequenceAfter(front[1..], a, b);
      assert (front + a)[1..] == front[1..] + a && (front + b)[1..] == front[1..] + b;
    }
  }

  lemma {:induction false} SubsequenceBefore<T>(a: seq<T>, b: seq<T>, back: seq<T>)
    requires Subsequence(a, b)
    ensures Subsequence(a, b + back)
  {
    if a != [] {
      assert (b + back)[1..] == b[1..] + back;
      if a[0] == b[0] && Subsequence(a[1..], b[1..]) {
        SubsequenceBefore(a[1..], b[1..], back);
      } else {
        SubsequenceBefore(a, b[1..], back);
      }
    }
  }

  lemma {:induction false} SubsequenceConcat<T>(a: seq<T>, b: seq<T>, c: seq<T>, d: seq<T>)
    requires Subsequence(a, b) && Subsequence(c, d)
    ensures Subsequence(a + c, b + d)
  {
    if b == [] {
      assert a + c == c && b + d == d;
    } else if a == [] {
      SubsequenceAfter(b, c, d);
      assert a + c == c;
    } else {
      assert (b + d)[1..] == b[1..] + d && (a + c)[1..] == a[1..] + c;
      if a[0] == b[0] && Subsequence(a[1..], b[1..]) {
        SubsequenceConcat(a[1..], b[1..], c, d);
      } else {
        SubsequenceConcat(a, b[1..], c, d);
      }
    }
  }

  /** What does not use the last element does without it. */
  lemma {:induction false} SubsequenceWithout<T>(a: seq<T>, b: seq<T>, x: T)
    requires Subsequence(a, b + [x]) && x !in a
    ensures Subsequence(a, b)
  {
    if a != [] && b != [] {
      assert (b + [x])[1..] == b[1..] + [x];
      if a[0] == b[0] && Subsequence(a[1..], (b + [x])[1..]) {
        SubsequenceWithout(a[1..], b[1..], x);
      } else {
        SubsequenceWithout(a, b[1..], x);
      }
    }
  }
}
