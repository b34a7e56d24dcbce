/** The leading number AB: the fair payoff owed, when pattern A completes, to the sequences of
    bets on pattern B that started at each of A's positions and are still alive. */
module LeadingNumbers {
  import opened Results
  import opened Alphabets

  function Min(x: int, y: int): int {
    if x < y then x else y
  }

  /** `A[i:] == B[0:len(A)-i]`, where the slice of B stops at the end of B. */
  predicate Overlaps(A: string, B: string, i: nat)
    requires i <= |A|
  {
    A[i..] == B[..Min(|A| - i, |B|)]
  }

  /** The suffix of A from offset i is exactly the prefix of B of the same length. */
  lemma OverlapsMeansPrefix(A: string, B: string, i: nat)
    requires i <= |A|
    ensures Overlaps(A, B, i) <==> |A| - i <= |B| && A[i..] == B[..|A| - i]
  {
  }

  /** `1/alphabet[c]` can be computed: `c` is a key with a non-zero probability. */
  predicate Invertible(a: Alphabet, c: char) {
    HasKey(a, [c]) && Prob(a, c) != 0.0
  }

  predicate AllInvertible(a: Alphabet, s: string) {
    forall k :: 0 <= k < |s| ==> Invertible(a, s[k])
  }

  /** The gross return of a bet sequence that is right on every symbol of `s`: the product of
      `1/alphabet[c]` over `s`, multiplied in from the left. */
  function Gross(a: Alphabet, s: string): real
    requires AllInvertible(a, s)
  {
    if s == [] then 1.0
    else Gross(a, s[..|s| - 1]) * (1.0 / Prob(a, s[|s| - 1]))
  }

  /** No division by zero at any of the first n offsets that overlap. */
  predicate PayableUpTo(A: string, B: string, a: Alphabet, n: nat)
    requires n <= |A|
  {
    forall i :: 0 <= i < n && Overlaps(A, B, i) ==> AllInvertible(a, A[i..])
  }

  predicate Payable(A: string, B: string, a: Alphabet) {
    PayableUpTo(A, B, a, |A|)
  }

  /** The value of `AB` after the first n offsets: the sum of the gross returns of the suffixes
      `A[i:]`, i < n, that overlap B. */
  function Accumulated(A: string, B: string, a: Alphabet, n: nat): real
    requires n <= |A| && PayableUpTo(A, B, a, n)
  {
    if n == 0 then 0.0
    else Accumulated(A, B, a, n - 1) + (if Overlaps(A, B, n - 1) then Gross(a, A[n - 1..]) else 0.0)
  }

  /** What `payoff_to_B_bets_if_A_occurs_first(A, B, alphabet)` returns or raises. */
  function LeadingNumber(A: string, B: string, a: Alphabet): Result<real> {
    match Validate(A, B, a)
    case Fail(e) => Err(e)
    case Pass => if Payable(A, B, a) then Ok(Accumulated(A, B, a, |A|)) else Err(DivisionByZero)
  }

  /** One more symbol multiplies the gross return by its inverse probability. */
  lemma GrossStep(a: Alphabet, s: string, k: nat)
    requires k < |s| && AllInvertible(a, s[..k]) && Invertible(a, s[k])
    ensures AllInvertible(a, s[..k + 1])
    ensures Gross(a, s[..k + 1]) == Gross(a, s[..k]) * (1.0 / Prob(a, s[k]))
  {
    assert s[..k + 1][..k] == s[..k];
  }

  /** The source's inner loop: multiply the wealth by `1/alphabet[c]` for each symbol `c` of
      the matched suffix in turn; a zero probability raises ZeroDivisionError. */
  method Wealth(a: Alphabet, s: string) returns (r: Result<real>)
    requires Covers(a, s)
    ensures AllInvertible(a, s) ==> r == Ok(Gross(a, s))
    ensures !AllInvertible(a, s) ==> r == Err(DivisionByZero)
  {
    var wealth := 1.0;
    var k := 0;
    while k < |s|
      invariant 0 <= k <= |s|
      invariant AllInvertible(a, s[..k])
      invariant wealth == Gross(a, s[..k])
    {
      var p := Prob(a, s[k]);
      if p == 0.0 {
        assert !Invertible(a, s[k]);
        return Err(DivisionByZero);
      }
      GrossStep(a, s, k);
      wealth := wealth * (1.0 / p);
      k := k + 1;
    }
    assert s[..k] == s;
    return Ok(wealth);
  }

  /** One more offset keeps the sum payable exactly when it does not overlap, or its suffix
      can be paid; the sum then grows by that suffix's gross return if it overlaps. */
  lemma AccumulatedStep(A: string, B: string, a: Alphabet, i: nat)
    requires i < |A| && PayableUpTo(A, B, a, i)
    ensures PayableUpTo(A, B, a, i + 1) <==> (Overlaps(A, B, i) ==> AllInvertible(a, A[i..]))
    ensures PayableUpTo(A, B, a, i + 1) ==>
      Accumulated(A, B, a, i + 1) ==
        Accumulated(A, B, a, i) + (if Overlaps(A, B, i) then Gross(a, A[i..]) else 0.0)
  {
  }

  /** An offset that overlaps but cannot be paid makes the whole sum unpayable. */
  lemma NotPayable(A: string, B: string, a: Alphabet, i: nat)
    requires i < |A| && Overlaps(A, B, i) && !AllInvertible(a, A[i..])
    ensures !Payable(A, B, a)
  {
  }

  /** The source's outer loop: for each offset, compare A's suffix with B's prefix and, when
      they are equal, add the wealth of that bet sequence to AB. */
  method SumOverlaps(A: string, B: string, a: Alphabet) returns (r: Result<real>)
    requires Covers(a, A)
    ensures Payable(A, B, a) ==> r == Ok(Accumulated(A, B, a, |A|))
    ensures !Payable(A, B, a) ==> r == Err(DivisionByZero)
  {
    var ab := 0.0;
    var i := 0;
    while i < |A|
      invariant 0 <= i <= |A|
      invariant PayableUpTo(A, B, a, i)
      invariant ab == Accumulated(A, B, a, i)
    {
      var trailing := A[i..];
      var leading := B[..Min(|trailing|, |B|)];
      AccumulatedStep(A, B, a, i);
      if trailing == leading {
        CoversSlice(a, A, i, |A|);
        var wealth := Wealth(a, trailing);
        if wealth.Err? {
          NotPayable(A, B, a, i);
          return wealth;
        }
        ab := ab + wealth.value;
      }
      i := i + 1;
    }
    return Ok(ab);
  }

  /** `payoff_to_B_bets_if_A_occurs_first`: the checks, then the sum over the offsets. */
  method Payoff(A: string, B: string, a: Alphabet) returns (r: Result<real>)
    ensures r == LeadingNumber(A, B, a)
  {
    var check := Validate(A, B, a);
    if check.Fail? {
      return Err(check.error);
    }
    CoversConcat(a, A, B);
    r := SumOverlaps(A, B, a);
  }

  /** 1/p is at least 1 for p in (0, 1]. */
  lemma InverseAtLeastOne(p: real)
    requires 0.0 < p <= 1.0
    ensures 1.0 / p >= 1.0
  {
    assert (1.0 / p) * p == 1.0;
  }

  /** Each gross return is at least 1 when every probability is in (0, 1]. */
  lemma {:induction false} GrossAtLeastOne(a: Alphabet, s: string)
    requires Proper(a) && Covers(a, s)
    ensures AllInvertible(a, s) && Gross(a, s) >= 1.0
  {
    if s != [] {
      var init := s[..|s| - 1];
      CoversSlice(a, s, 0, |s| - 1);
      GrossAtLeastOne(a, init);
      var p := Prob(a, s[|s| - 1]);
      var g := Gross(a, init);
      InverseAtLeastOne(p);
      assert g * (1.0 / p) - 1.0 == (g - 1.0) * (1.0 / p) + (1.0 / p - 1.0);
    }
  }

  /** Every suffix of a covered A has a gross return of at least 1. */
  lemma SuffixesAtLeastOne(A: string, B: string, a: Alphabet)
    requires Proper(a) && Covers(a, A)
    ensures forall i :: 0 <= i < |A| ==> AllInvertible(a, A[i..]) && Gross(a, A[i..]) >= 1.0
    ensures Payable(A, B, a)
  {
    forall i | 0 <= i < |A|
      ensures AllInvertible(a, A[i..]) && Gross(a, A[i..]) >= 1.0
    {
      CoversSlice(a, A, i, |A|);
      GrossAtLeastOne(a, A[i..]);
    }
  }

  function OverlapSet(A: string, B: string, n: nat): set<nat>
    requires n <= |A|
  {
    set i: nat | i < n && Overlaps(A, B, i)
  }

  /** One more offset adds one element to the overlap set exactly when it overlaps. */
  lemma OverlapSetStep(A: string, B: string, n: nat)
    requires 0 < n <= |A|
    ensures |OverlapSet(A, B, n)| == |OverlapSet(A, B, n - 1)| + (if Overlaps(A, B, n - 1) then 1 else 0)
  {
    if Overlaps(A, B, n - 1) {
      assert OverlapSet(A, B, n) == OverlapSet(A, B, n - 1) + {n - 1};
    } else {
      assert OverlapSet(A, B, n) == OverlapSet(A, B, n - 1);
    }
  }

  /** Every contribution is non-negative and each overlapping offset adds at least 1, so
      the sum over n offsets is at least the number of overlapping offsets among them. */
  lemma {:induction false} AccumulatedCountsOverlaps(A: string, B: string, a: Alphabet, n: nat)
    requires n <= |A| && Proper(a) && Covers(a, A)
    ensures PayableUpTo(A, B, a, n)
    ensures Accumulated(A, B, a, n) >= |OverlapSet(A, B, n)| as real
  {
    if n > 0 {
      AccumulatedCountsOverlaps(A, B, a, n - 1);
      OverlapSetStep(A, B, n);
      CoversSlice(a, A, n - 1, |A|);
      GrossAtLeastOne(a, A[n - 1..]);
    }
  }

  /** The sum over n offsets is zero exactly when none of them overlaps. */
  lemma {:induction false} AccumulatedZero(A: string, B: string, a: Alphabet, n: nat)
    requires n <= |A| && Proper(a) && Covers(a, A)
    ensures PayableUpTo(A, B, a, n)
    ensures Accumulated(A, B, a, n) == 0.0 <==> forall i :: 0 <= i < n ==> !Overlaps(A, B, i)
  {
    SuffixesAtLeastOne(A, B, a);
    if n > 0 {
      AccumulatedZero(A, B, a, n - 1);
      AccumulatedCountsOverlaps(A, B, a, n - 1);
      if Overlaps(A, B, n - 1) {
        assert Gross(a, A[n - 1..]) >= 1.0;
      } else {
        forall i | 0 <= i < n && Overlaps(A, B, i)
          ensures i < n - 1
        {
        }
      }
    }
  }

  /** The validated leading number is the sum over the overlapping offsets: it is at least the
      number of overlapping offsets, and it is zero exactly when no offset overlaps. */
  lemma LeadingNumberCountsOverlaps(A: string, B: string, a: Alphabet)
    requires Validate(A, B, a) == Pass && Proper(a)
    ensures LeadingNumber(A, B, a).Ok?
    ensures LeadingNumber(A, B, a).value >= |OverlapSet(A, B, |A|)| as real
    ensures LeadingNumber(A, B, a).value == 0.0 <==> forall i :: 0 <= i < |A| ==> !Overlaps(A, B, i)
  {
    CoversConcat(a, A, B);
    AccumulatedCountsOverlaps(A, B, a, |A|);
    AccumulatedZero(A, B, a, |A|);
  }

  /** The sum over offsets never falls as more offsets are taken in. */
  lemma {:induction false} AccumulatedGrows(A: string, B: string, a: Alphabet, m: nat, n: nat)
    requires m <= n <= |A| && Proper(a) && Covers(a, A)
    ensures Payable(A, B, a) && Accumulated(A, B, a, m) <= Accumulated(A, B, a, n)
  {
    SuffixesAtLeastOne(A, B, a);
    if m < n {
      AccumulatedGrows(A, B, a, m, n - 1);
    }
  }

  /** A pattern against itself: offset 0 always overlaps, so AA is at least 1. */
  lemma SelfLeadingNumberAtLeastOne(A: string, a: Alphabet)
    requires |A| > 0 && IsDistribution(a) && AllKeysSingle(a) && Covers(a, A) && Proper(a)
    ensures LeadingNumber(A, A, a).Ok? && LeadingNumber(A, A, a).value >= 1.0
  {
    CoversConcat(a, A, A);
    assert Validate(A, A, a) == Pass;
    SuffixesAtLeastOne(A, A, a);
    AccumulatedGrows(A, A, a, 1, |A|);
    assert Overlaps(A, A, 0);
    assert Accumulated(A, A, a, 1) == Gross(a, A[0..]);
  }

  function Power(x: real, n: nat): real {
    if n == 0 then 1.0 else Power(x, n - 1) * x
  }

  /** Every key has probability q. */
  ghost predicate Uniform(a: Alphabet, q: real) {
    forall i :: 0 <= i < |a| ==> a[i].prob == q
  }

  /** Conway's leading number for equally likely symbols: each overlap of length L adds (1/q)^L. */
  function ConwaySum(A: string, B: string, q: real, n: nat): real
    requires n <= |A| && q != 0.0
  {
    if n == 0 then 0.0
    else ConwaySum(A, B, q, n - 1) + (if Overlaps(A, B, n - 1) then Power(1.0 / q, |A| - (n - 1)) else 0.0)
  }

  lemma {:induction false} UniformGross(a: Alphabet, q: real, s: string)
    requires Uniform(a, q) && q != 0.0 && Covers(a, s)
    ensures AllInvertible(a, s) && Gross(a, s) == Power(1.0 / q, |s|)
  {
    if s != [] {
      CoversSlice(a, s, 0, |s| - 1);
      UniformGross(a, q, s[..|s| - 1]);
    }
  }

  /** With equally likely symbols (a fair coin: q = 1/2), the leading number is the classical
      Conway number, a sum of powers of 1/q over the overlapping offsets. */
  lemma {:induction false} UniformAccumulated(A: string, B: string, a: Alphabet, q: real, n: nat)
    requires n <= |A| && Uniform(a, q) && q != 0.0 && Covers(a, A)
    ensures PayableUpTo(A, B, a, n) && Accumulated(A, B, a, n) == ConwaySum(A, B, q, n)
  {
    forall i | 0 <= i < n
      ensures AllInvertible(a, A[i..]) && Gross(a, A[i..]) == Power(1.0 / q, |A| - i)
    {
      CoversSlice(a, A, i, |A|);
      UniformGross(a, q, A[i..]);
    }
    if n > 0 {
      UniformAccumulated(A, B, a, q, n - 1);
    }
  }

  lemma UniformLeadingNumber(A: string, B: string, a: Alphabet, q: real)
    requires Validate(A, B, a) == Pass && Uniform(a, q) && q != 0.0
    ensures LeadingNumber(A, B, a) == Ok(ConwaySum(A, B, q, |A|))
  {
    CoversConcat(a, A, B);
    UniformAccumulated(A, B, a, q, |A|);
  }

  /** The fair coin used in the examples. */
  function FairCoin(): (a: Alphabet)
    ensures IsDistribution(a) && AllKeysSingle(a) && Proper(a) && Uniform(a, 0.5)
  {
    var a: Alphabet := [Entry("T", 0.5), Entry("H", 0.5)];
    assert Total(a) == 1.0 by {
      assert a[..1] == [Entry("T", 0.5)];
      assert a[..1][..0] == [];
    }
    a
  }

  /** The worked example: THH against HHH with a fair coin. B bettors who enter two steps before
      the end lose at once, those who enter one step before win twice (4), those who enter at the
      end win once (2): AB = 6. */
  lemma ThhAgainstHhh()
    ensures LeadingNumber("THH", "HHH", FairCoin()) == Ok(6.0)
  {
    var a := FairCoin();
    assert HasKey(a, "T") && HasKey(a, "H");
    assert Covers(a, "THH" + "HHH");
    assert Find("THH", "HHH") == -1 && Find("HHH", "THH") == -1;
    UniformLeadingNumber("THH", "HHH", a, 0.5);
    assert !Overlaps("THH", "HHH", 0);
    assert Overlaps("THH", "HHH", 1);
    assert Overlaps("THH", "HHH", 2);
  }
}
