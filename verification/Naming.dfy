/** The search for an unused worker id: host, host-2, host-3, ... */
module Naming {
  import opened Text

  function Candidate(host: string, n: nat): string
    requires n >= 1
  {
    if n == 1 then host else host + "-" + Itoa(n)
  }

  lemma {:induction false} CandidatesDiffer(host: string, i: nat, j: nat)
    requires 1 <= i && 1 <= j && Candidate(host, i) == Candidate(host, j)
    ensures i == j
  {
    if i > 1 && j > 1 {
      assert Candidate(host, i)[|host| + 1..] == Itoa(i);
      assert Candidate(host, j)[|host| + 1..] == Itoa(j);
      ItoaInjective(i, j);
    }
  }

  ghost function FirstCandidates(host: string, n: nat): set<string> {
    if n == 0 then {} else FirstCandidates(host, n - 1) + {Candidate(host, n)}
  }

  lemma {:induction false} FirstCandidatesMeaning(host: string, n: nat)
    ensures |FirstCandidates(host, n)| == n
    ensures forall s :: s in FirstCandidates(host, n) ==> exists k :: 1 <= k <= n && s == Candidate(host, k)
  {
    if n > 0 {
      FirstCandidatesMeaning(host, n - 1);
      if Candidate(host, n) in FirstCandidates(host, n - 1) {
        var k :| 1 <= k <= n - 1 && Candidate(host, n) == Candidate(host, k);
        CandidatesDiffer(host, n, k);
      }
    }
  }

  lemma {:induction false} SubsetIsSmaller(a: set<string>, b: set<string>)
    requires a <= b
    ensures |a| <= |b|
  {
    assert |b| == |a| + |b - a| by {
      assert b == a + (b - a);
    }
  }

  /** Only as many candidates can be taken as there are ids. */
  lemma {:induction false} TakenCandidates(host: string, used: set<string>, n: nat)
    requires forall k :: 1 <= k <= n ==> Candidate(host, k) in used
    ensures n <= |used|
  {
    FirstCandidatesMeaning(host, n);
    SubsetIsSmaller(FirstCandidates(host, n), used);
  }

  /** The least number from n on whose candidate is free. */
  function FirstFree(host: string, used: set<string>, n: nat): (r: nat)
    requires n >= 1 && forall k :: 1 <= k < n ==> Candidate(host, k) in used
    ensures n <= r <= |used| + 1
    ensures Candidate(host, r) !in used && forall k :: 1 <= k < r ==> Candidate(host, k) in used
    decreases |used| + 1 - n
  {
    TakenCandidates(host, used, n - 1);
    if Candidate(host, n) in used then
      TakenCandidates(host, used, n);
      FirstFree(host, used, n + 1)
    else n
  }

  /** The first free name; the search makes at most |used| + 1 checks. */
  function UniqueName(host: string, used: set<string>): (name: string)
    ensures name !in used
  {
    Candidate(host, FirstFree(host, used, 1))
  }
}
