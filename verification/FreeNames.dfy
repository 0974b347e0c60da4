/**
 The next free name: a base name, else the base with the smallest suffix `-2`, `-3`, ... that is not
 taken. Heading ids in the handbook and credential keys of channels are chosen this way.
 */
module FreeNames {
  import opened Basics

  const DIGITS := "0123456789"

  function Decimal(n: nat): (s: string)
    ensures s != ""
  {
    if n < 10 then [DIGITS[n]] else Decimal(n / 10) + [DIGITS[n % 10]]
  }

  /** The number that a digit string denotes. */
  function Denotes(s: string): int {
    if s == "" then 0 else 10 * Denotes(s[..|s| - 1]) + (s[|s| - 1] as int - '0' as int)
  }

  lemma {:induction false} DecimalDenotes(n: nat)
    ensures Denotes(Decimal(n)) == n
  {
    assert forall d | 0 <= d < 10 :: DIGITS[d] as int - '0' as int == d;
    if n < 10 {
      assert Decimal(n)[..0] == "";
      assert Denotes(Decimal(n)[..0]) == 0;
    } else {
      DecimalDenotes(n / 10);
      assert Decimal(n)[..|Decimal(n)| - 1] == Decimal(n / 10);
    }
  }

  /** Digits only, and no leading zero. */
  lemma {:induction false} DecimalIsPlain(n: nat)
    ensures forall c | c in Decimal(n) :: '0' <= c <= '9'
    ensures Decimal(n)[0] == '0' <==> n == 0
    ensures n == 0 ==> Decimal(n) == "0"
  {
    assert forall d | 0 <= d < 10 :: DIGITS[d] as int - '0' as int == d;
    if n >= 10 {
      DecimalIsPlain(n / 10);
      assert Decimal(n)[0] == Decimal(n / 10)[0];
    }
  }

  function Candidate(base: string, k: nat): string
    requires k >= 1
  {
    if k == 1 then base else base + "-" + Decimal(k)
  }

  /** Different suffixes give different names. */
  lemma CandidatesDiffer(base: string, j: nat, k: nat)
    requires 1 <= j < k
    ensures Candidate(base, j) != Candidate(base, k)
  {
    var b := base + "-";
    if j == 1 {
      assert |Candidate(base, k)| > |base|;
    } else {
      DecimalDenotes(j);
      DecimalDenotes(k);
      assert Candidate(base, j)[|b|..] == Decimal(j);
      assert Candidate(base, k)[|b|..] == Decimal(k);
    }
  }

  /** The `k`-th candidate is free, and no earlier one is. */
  ghost predicate FirstFree(base: string, taken: set<string>, k: nat) {
    k >= 1 && Candidate(base, k) !in taken && forall j | 1 <= j < k :: Candidate(base, j) in taken
  }

  /** The candidates tried: all before the `k`-th, and as many. */
  ghost predicate Tried(base: string, tried: set<string>, k: nat) {
    && k >= 1 && |tried| == k - 1
    && (forall j | 1 <= j < k :: Candidate(base, j) in tried)
    && (forall x | x in tried :: exists j: nat :: 1 <= j < k && x == Candidate(base, j))
  }

  /** One more try is a new name. */
  lemma OneMoreTried(base: string, tried: set<string>, k: nat)
    requires Tried(base, tried, k)
    ensures Tried(base, tried + {Candidate(base, k)}, k + 1) && |tried + {Candidate(base, k)}| == |tried| + 1
  {
    forall j: nat | 1 <= j < k ensures Candidate(base, j) != Candidate(base, k) {
      CandidatesDiffer(base, j, k);
    }
    assert Candidate(base, k) !in tried;
  }

  /** Candidates tried in vain are taken, so the first that is not is the first free one. */
  lemma FirstOfTried(base: string, tried: set<string>, taken: set<string>, k: nat)
    requires Tried(base, tried, k) && tried <= taken && Candidate(base, k) !in taken
    ensures FirstFree(base, taken, k) && k <= |taken| + 1
  {
    SubsetSize(tried, taken);
  }

  lemma FirstCandidates(base: string, k: nat)
    ensures Candidate(base, 1) == base && Tried(base, {}, 1)
    ensures k >= 2 ==> Candidate(base, k) == base + "-" + Decimal(k)
  {
  }

  /** Among one more candidate than there are taken names, one is free: the search ends. */
  method NextFree(base: string, taken: set<string>) returns (name: string)
    ensures exists k: nat :: FirstFree(base, taken, k) && k <= |taken| + 1 && name == Candidate(base, k)
    ensures name !in taken
    ensures name == base <==> base !in taken
    ensures name != base ==> exists k: nat :: SuffixFits(base, taken, k) && k <= |taken| + 1
                                              && name == base + "-" + Decimal(k)
  {
    hide Candidate, Tried, FirstFree;
    name := base;
    var k := 2;
    ghost var tried: set<string> := {};
    FirstCandidates(base, 1);
    while name in taken
      invariant k >= 2 && name == Candidate(base, k - 1)
      invariant tried <= taken && |tried| == k - 2 && Tried(base, tried, k - 1)
      decreases |taken| - |tried|
    {
      OneMoreTried(base, tried, k - 1);
      tried := tried + {name};
      SubsetSize(tried, taken);
      FirstCandidates(base, k);
      name := base + "-" + Decimal(k);
      k := k + 1;
    }
    FirstOfTried(base, tried, taken, k - 1);
    SuffixOfFirst(base, taken, k - 1);
  }

  /** The base and its suffixes from 2 up to `k` are taken, `k` itself left out. */
  ghost predicate SuffixFits(base: string, taken: set<string>, k: nat) {
    && k >= 2 && base in taken && base + "-" + Decimal(k) !in taken
    && forall j | 2 <= j < k :: base + "-" + Decimal(j) in taken
  }

  lemma SuffixOfFirst(base: string, taken: set<string>, k: nat)
    requires FirstFree(base, taken, k)
    ensures k == 1 ==> Candidate(base, k) == base && base !in taken
    ensures k > 1 ==> Candidate(base, k) == base + "-" + Decimal(k) != base && SuffixFits(base, taken, k)
  {
    if k > 1 {
      CandidatesDiffer(base, 1, k);
      assert Candidate(base, 1) == base;
      forall j | 2 <= j < k ensures base + "-" + Decimal(j) in taken {
        assert Candidate(base, j) == base + "-" + Decimal(j);
      }
    }
  }
}
