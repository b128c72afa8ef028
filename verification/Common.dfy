/** Small vocabulary shared by all modules. */
module Common {
  datatype Option<+T> = None | Some(value: T)

  type byte = b: int | 0 <= b < 256

  type int64 = x: int | -0x8000_0000_0000_0000 <= x < 0x8000_0000_0000_0000

  /** Two's complement wrap-around: 2^64 is taken off or added until x fits. */
  function Int64(x: int): int64
    decreases if x < 0 then -x - 1 else x
  {
    if x >= 0x8000_0000_0000_0000 then Int64(x - 0x1_0000_0000_0000_0000)
    else if x < -0x8000_0000_0000_0000 then Int64(x + 0x1_0000_0000_0000_0000)
    else x
  }

  lemma {:induction false} Int64Period(x: int)
    ensures Int64(x + 0x1_0000_0000_0000_0000) == Int64(x)
  {
  }

  /** Wrapping a summand first makes no difference to the wrapped sum. */
  lemma {:induction false} Int64Absorbs(a: int, b: int)
    ensures Int64(Int64(a) + b) == Int64(a + b)
    decreases if a < 0 then -a - 1 else a
  {
    if a >= 0x8000_0000_0000_0000 {
      Int64Absorbs(a - 0x1_0000_0000_0000_0000, b);
      Int64Period(a - 0x1_0000_0000_0000_0000 + b);
    } else if a < -0x8000_0000_0000_0000 {
      Int64Absorbs(a + 0x1_0000_0000_0000_0000, b);
      Int64Period(a + b);
    }
  }

  function Last<T>(s: seq<T>): T
    requires s != []
  {
    s[|s| - 1]
  }

  function Init<T>(s: seq<T>): seq<T>
    requires s != []
  {
    s[..|s| - 1]
  }

  predicate NoDuplicates(s: seq<string>) {
    forall i, j :: 0 <= i < j < |s| ==> s[i] != s[j]
  }

  /** t is s with some elements left out. */
  predicate Subsequence<T(==)>(t: seq<T>, s: seq<T>) {
    t == [] || (s != [] && ((Last(t) == Last(s) && Subsequence(Init(t), Init(s))) || Subsequence(t, Init(s))))
  }

  lemma {:induction false} SubsequenceGrows<T>(t: seq<T>, s: seq<T>, x: T)
    requires Subsequence(t, s)
    ensures Subsequence(t, s + [x]) && Subsequence(t + [x], s + [x])
  {
    assert Init(s + [x]) == s && Last(s + [x]) == x;
    assert Init(t + [x]) == t && Last(t + [x]) == x;
  }

  /** A filter that goes through s in order keeps its last element or leaves it out. */
  lemma {:induction false} FilterStep<T>(t: seq<T>, s: seq<T>, keep: bool)
    requires s != [] && Subsequence(t, Init(s))
    ensures Subsequence(t + (if keep then [Last(s)] else []), s)
  {
    assert s == Init(s) + [Last(s)] && t + [] == t;
    SubsequenceGrows(t, Init(s), Last(s));
  }

  lemma {:induction false} SubsequenceOfSelf<T>(s: seq<T>)
    ensures Subsequence(s, s)
  {
    if s != [] {
      SubsequenceOfSelf(Init(s));
    }
  }

  lemma {:induction false} OneLeftOut<T>(a: seq<T>, x: T, c: seq<T>)
    ensures Subsequence(a + c, a + [x] + c)
  {
    if c == [] {
      SubsequenceOfSelf(a);
      SubsequenceGrows(a, a, x);
      assert a + c == a && a + [x] + c == a + [x];
    } else {
      OneLeftOut(a, x, Init(c));
      SubsequenceGrows(a + Init(c), a + [x] + Init(c), Last(c));
      assert a + Init(c) + [Last(c)] == a + c && a + [x] + Init(c) + [Last(c)] == a + [x] + c;
    }
  }

  function Min(a: int, b: int): int {
    if a <= b then a else b
  }
}
