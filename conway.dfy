/** The quantities derived from the leading numbers AA, AB, BB and BA: the odds that A precedes
    B, the probability that it does, and the expected waiting time until A or B occurs. */
module Conway {
  import opened Results
  import opened Alphabets
  import opened LeadingNumbers

  /** `[odds[0], odds[1]]`: the chances against A preceding B and the chances in favour of it.
      These are twice Conway's odds; the scaling is kept as the library defines it. */
  datatype Odds = Odds(against: real, favor: real)

  /** The four leading numbers of the generic case. */
  datatype Leading = Leading(AA: real, AB: real, BB: real, BA: real)

  /** A and B differ and neither is a strict substring of the other. */
  predicate Generic(A: string, B: string) {
    A != B && !StrictlyInside(B, A) && !StrictlyInside(A, B)
  }

  /** AA, AB, BB, BA, computed in that order; the first failure is the one raised. */
  function FourLeading(A: string, B: string, a: Alphabet): (r: Result<Leading>)
    ensures r.Ok? <==>
      LeadingNumber(A, A, a).Ok? && LeadingNumber(A, B, a).Ok? &&
      LeadingNumber(B, B, a).Ok? && LeadingNumber(B, A, a).Ok?
    ensures r.Ok? ==> r.value == Leading(LeadingNumber(A, A, a).value, LeadingNumber(A, B, a).value,
                                         LeadingNumber(B, B, a).value, LeadingNumber(B, A, a).value)
  {
    var aa :- LeadingNumber(A, A, a);
    var ab :- LeadingNumber(A, B, a);
    var bb :- LeadingNumber(B, B, a);
    var ba :- LeadingNumber(B, A, a);
    Ok(Leading(aa, ab, bb, ba))
  }

  /** `oddsAB(A, B, alphabet)`. */
  function OddsAB(A: string, B: string, a: Alphabet): (r: Result<Odds>)
    ensures A == B ==> r == Err(SamePattern)
    ensures |B| < |A| && Contains(A, B) ==> r == Ok(Odds(1.0, 0.0))
    ensures |A| < |B| && Contains(B, A) ==> r == Ok(Odds(0.0, 1.0))
    ensures Generic(A, B) ==> (r.Ok? <==> FourLeading(A, B, a).Ok?)
    ensures Generic(A, B) && r.Ok? ==>
      var l := FourLeading(A, B, a).value; r.value == Odds(l.AA - l.AB, l.BB - l.BA)
  {
    if A == B then Err(SamePattern)
    else if StrictlyInside(B, A) then Ok(Odds(1.0, 0.0))
    else if StrictlyInside(A, B) then Ok(Odds(0.0, 1.0))
    else
      var l :- FourLeading(A, B, a);
      Ok(Odds(l.AA - l.AB, l.BB - l.BA))
  }

  /** `o[1]/(o[0]+o[1])`; a zero denominator raises ZeroDivisionError. */
  function ProbOf(o: Odds): Result<real> {
    if o.against + o.favor == 0.0 then Err(DivisionByZero)
    else Ok(o.favor / (o.against + o.favor))
  }

  /** `probAB(A, B, alphabet)`. */
  function ProbAB(A: string, B: string, a: Alphabet): Result<real> {
    var o :- OddsAB(A, B, a);
    ProbOf(o)
  }

  /** `expected_waiting_time(A, B, alphabet)`. */
  function ExpectedWait(A: string, B: string, a: Alphabet): (r: Result<real>)
    ensures A == B ==> r == LeadingNumber(A, A, a)
    ensures |B| < |A| && Contains(A, B) ==> r == LeadingNumber(B, B, a)
    ensures |A| < |B| && Contains(B, A) ==> r == LeadingNumber(A, A, a)
    ensures Generic(A, B) ==>
      (r.Ok? <==> (FourLeading(A, B, a).Ok? &&
                   var l := FourLeading(A, B, a).value; l.AA + l.BB - l.AB - l.BA != 0.0))
    ensures Generic(A, B) && FourLeading(A, B, a).Ok? ==> r == WaitOf(FourLeading(A, B, a).value)
  {
    if A == B then LeadingNumber(A, A, a)
    else if StrictlyInside(B, A) then LeadingNumber(B, B, a)
    else if StrictlyInside(A, B) then LeadingNumber(A, A, a)
    else
      var l :- FourLeading(A, B, a);
      WaitOf(l)
  }

  /** `(AA*BB - AB*BA)/(AA + BB - AB - BA)`; a zero denominator raises ZeroDivisionError. */
  function WaitOf(l: Leading): Result<real> {
    var d := l.AA + l.BB - l.AB - l.BA;
    if d == 0.0 then Err(DivisionByZero)
    else Ok((l.AA * l.BB - l.AB * l.BA) / d)
  }

  /** The four leading numbers with the roles of A and B exchanged. */
  function SwapLeading(l: Leading): Leading {
    Leading(l.BB, l.BA, l.AA, l.AB)
  }

  function Swap(o: Odds): Odds {
    Odds(o.favor, o.against)
  }

  /** Swapping A and B swaps the two components of the odds, and one order succeeds exactly
      when the other does. */
  lemma OddsSwap(A: string, B: string, a: Alphabet)
    ensures OddsAB(A, B, a).Ok? <==> OddsAB(B, A, a).Ok?
    ensures OddsAB(A, B, a).Ok? ==> OddsAB(B, A, a).value == Swap(OddsAB(A, B, a).value)
  {
    assert Generic(A, B) <==> Generic(B, A);
  }

  /** Swapping the odds turns the probability p into 1 - p. */
  lemma ProbOfSwap(o: Odds)
    requires ProbOf(o).Ok?
    ensures ProbOf(Swap(o)).Ok? && ProbOf(o).value + ProbOf(Swap(o)).value == 1.0
  {
    var d := o.against + o.favor;
    assert o.favor / d + o.against / d == (o.favor + o.against) / d;
  }

  /** With non-negative odds the probability lies in [0, 1]. */
  lemma ProbOfInUnitInterval(o: Odds)
    requires ProbOf(o).Ok? && o.against >= 0.0 && o.favor >= 0.0
    ensures 0.0 <= ProbOf(o).value <= 1.0
  {
    var d := o.against + o.favor;
    assert d > 0.0;
    var p := o.favor / d;
    assert p * d == o.favor;
    assert (1.0 - p) * d == o.against;
  }

  /** The probability that A comes first and the probability that B comes first add up to 1. */
  lemma ProbComplement(A: string, B: string, a: Alphabet)
    requires ProbAB(A, B, a).Ok?
    ensures ProbAB(B, A, a).Ok? && ProbAB(A, B, a).value + ProbAB(B, A, a).value == 1.0
  {
    OddsSwap(A, B, a);
    ProbOfSwap(OddsAB(A, B, a).value);
  }

  /** With non-negative odds the probability that A comes first lies in [0, 1]. */
  lemma ProbInUnitInterval(A: string, B: string, a: Alphabet)
    requires ProbAB(A, B, a).Ok?
    requires OddsAB(A, B, a).value.against >= 0.0 && OddsAB(A, B, a).value.favor >= 0.0
    ensures 0.0 <= ProbAB(A, B, a).value <= 1.0
  {
    ProbOfInUnitInterval(OddsAB(A, B, a).value);
  }

  /** A strict substring always completes first: the probability is exactly 0 or 1, and a
      pattern cannot race itself. */
  lemma ProbCorners(A: string, B: string, a: Alphabet)
    ensures A == B ==> ProbAB(A, B, a) == Err(SamePattern)
    ensures |B| < |A| && Contains(A, B) ==> ProbAB(A, B, a).Ok? && ProbAB(A, B, a).value == 0.0
    ensures |A| < |B| && Contains(B, A) ==> ProbAB(A, B, a).Ok? && ProbAB(A, B, a).value == 1.0
  {
  }

  /** Exchanging A and B exchanges AA with BB and AB with BA, and all four are computed in
      one order exactly when they are in the other. */
  lemma FourLeadingSwap(A: string, B: string, a: Alphabet)
    ensures FourLeading(B, A, a).Ok? <==> FourLeading(A, B, a).Ok?
    ensures FourLeading(A, B, a).Ok? ==> FourLeading(B, A, a).value == SwapLeading(FourLeading(A, B, a).value)
  {
  }

  /** The waiting-time formula is symmetric in the two patterns. */
  lemma WaitOfSwap(l: Leading)
    ensures WaitOf(SwapLeading(l)).Ok? <==> WaitOf(l).Ok?
    ensures WaitOf(l).Ok? ==> WaitOf(SwapLeading(l)).value == WaitOf(l).value
  {
    var m := SwapLeading(l);
    assert m.AA + m.BB - m.AB - m.BA == l.AA + l.BB - l.AB - l.BA;
    assert m.AA * m.BB - m.AB * m.BA == l.AA * l.BB - l.AB * l.BA;
  }

  /** The waiting time does not depend on the order of A and B. */
  lemma WaitSymmetric(A: string, B: string, a: Alphabet)
    ensures ExpectedWait(A, B, a).Ok? <==> ExpectedWait(B, A, a).Ok?
    ensures ExpectedWait(A, B, a).Ok? ==> ExpectedWait(A, B, a).value == ExpectedWait(B, A, a).value
  {
    assert Generic(A, B) <==> Generic(B, A);
    if Generic(A, B) {
      FourLeadingSwap(A, B, a);
      if FourLeading(A, B, a).Ok? {
        WaitOfSwap(FourLeading(A, B, a).value);
      }
    }
  }

  /** In the generic case the probability and the waiting time share one denominator,
      AA + BB - AB - BA, so one is defined exactly when the other is. */
  lemma ProbDefinedIffWaitDefined(A: string, B: string, a: Alphabet)
    requires Generic(A, B)
    ensures ProbAB(A, B, a).Ok? <==> ExpectedWait(A, B, a).Ok?
  {
  }

  /** The expected payoff e, with A first with probability p, is the same whether it is paid
      to the bettors on A (AA if A comes first, BA if B does) or to those on B (AB or BB). */
  predicate FairlyPaid(p: real, e: real, l: Leading) {
    e == p * l.AA + (1.0 - p) * l.BA && e == p * l.AB + (1.0 - p) * l.BB
  }

  /** The waiting time is the fair payoff owed when the game stops, weighted by the
      probability that A comes first. */
  lemma WaitIsFairPayoff(A: string, B: string, a: Alphabet)
    requires Generic(A, B) && ExpectedWait(A, B, a).Ok?
    ensures ProbAB(A, B, a).Ok?
    ensures FairlyPaid(ProbAB(A, B, a).value, ExpectedWait(A, B, a).value, FourLeading(A, B, a).value)
  {
    var l := FourLeading(A, B, a).value;
    assert ExpectedWait(A, B, a) == WaitOf(l);
    assert ProbAB(A, B, a) == ProbOf(Odds(l.AA - l.AB, l.BB - l.BA));
    WaitOfIsFairPayoff(l);
  }

  /** The same on the four numbers: the probability from the odds AA - AB : BB - BA weighs
      the two payoffs to each side into the waiting time. */
  lemma WaitOfIsFairPayoff(l: Leading)
    requires WaitOf(l).Ok?
    ensures ProbOf(Odds(l.AA - l.AB, l.BB - l.BA)).Ok?
    ensures FairlyPaid(ProbOf(Odds(l.AA - l.AB, l.BB - l.BA)).value, WaitOf(l).value, l)
  {
    assert (l.AA - l.AB) + (l.BB - l.BA) == l.AA + l.BB - l.AB - l.BA;
    FairPayoffAlgebra(l.AA, l.AB, l.BB, l.BA);
  }

  /** The algebra behind the lemma above, on the four numbers alone. */
  lemma FairPayoffAlgebra(aa: real, ab: real, bb: real, ba: real)
    requires aa + bb - ab - ba != 0.0
    ensures var d := aa + bb - ab - ba; var p, e := (bb - ba) / d, (aa * bb - ab * ba) / d;
      e == p * aa + (1.0 - p) * ba && e == p * ab + (1.0 - p) * bb
  {
    var d := aa + bb - ab - ba;
    var p := (bb - ba) / d;
    var e := (aa * bb - ab * ba) / d;
    var q := 1.0 - p;
    assert p * d == bb - ba;
    assert q * d == aa - ab;
    assert e * d == aa * bb - ab * ba;
    assert (p * aa + q * ba) * d == (p * d) * aa + (q * d) * ba;
    assert (p * ab + q * bb) * d == (p * d) * ab + (q * d) * bb;
    Cancel(e, p * aa + q * ba, d);
    Cancel(e, p * ab + q * bb, d);
  }

  lemma Cancel(x: real, y: real, d: real)
    requires d != 0.0 && x * d == y * d
    ensures x == y
  {
    assert (x - y) * d == 0.0;
  }

  lemma HthHth()
    ensures LeadingNumber("HTH", "HTH", FairCoin()) == Ok(10.0)
  {
    var a := FairCoin();
    assert HasKey(a, "T") && HasKey(a, "H");
    assert Covers(a, "HTH" + "HTH");
    UniformLeadingNumber("HTH", "HTH", a, 0.5);
    assert Overlaps("HTH", "HTH", 0) && !Overlaps("HTH", "HTH", 1) && Overlaps("HTH", "HTH", 2);
    assert 1.0 / 0.5 == 2.0 && Power(2.0, 1) == 2.0 && Power(2.0, 2) == 4.0 && Power(2.0, 3) == 8.0;
  }

  lemma HthHht()
    ensures LeadingNumber("HTH", "HHT", FairCoin()) == Ok(2.0)
  {
    var a := FairCoin();
    assert HasKey(a, "T") && HasKey(a, "H");
    assert Covers(a, "HTH" + "HHT");
    UniformLeadingNumber("HTH", "HHT", a, 0.5);
    assert !Overlaps("HTH", "HHT", 0) && !Overlaps("HTH", "HHT", 1) && Overlaps("HTH", "HHT", 2);
    assert 1.0 / 0.5 == 2.0 && Power(2.0, 1) == 2.0 && Power(2.0, 2) == 4.0 && Power(2.0, 3) == 8.0;
  }

  lemma HhtHht()
    ensures LeadingNumber("HHT", "HHT", FairCoin()) == Ok(8.0)
  {
    var a := FairCoin();
    assert HasKey(a, "T") && HasKey(a, "H");
    assert Covers(a, "HHT" + "HHT");
    UniformLeadingNumber("HHT", "HHT", a, 0.5);
    assert Overlaps("HHT", "HHT", 0) && !Overlaps("HHT", "HHT", 1) && !Overlaps("HHT", "HHT", 2);
    assert 1.0 / 0.5 == 2.0 && Power(2.0, 1) == 2.0 && Power(2.0, 2) == 4.0 && Power(2.0, 3) == 8.0;
  }

  lemma HhtHth()
    ensures LeadingNumber("HHT", "HTH", FairCoin()) == Ok(4.0)
  {
    var a := FairCoin();
    assert HasKey(a, "T") && HasKey(a, "H");
    assert Covers(a, "HHT" + "HTH");
    UniformLeadingNumber("HHT", "HTH", a, 0.5);
    assert !Overlaps("HHT", "HTH", 0) && Overlaps("HHT", "HTH", 1) && !Overlaps("HHT", "HTH", 2);
    assert 1.0 / 0.5 == 2.0 && Power(2.0, 1) == 2.0 && Power(2.0, 2) == 4.0 && Power(2.0, 3) == 8.0;
  }

  /** The four leading numbers of HTH against HHT with a fair coin: AA = 8 + 2, AB = 2,
      BB = 8, BA = 4. */
  lemma HthHhtLeadingNumbers()
    ensures FourLeading("HTH", "HHT", FairCoin()) == Ok(Leading(10.0, 2.0, 8.0, 4.0))
  {
    HthHth();
    HthHht();
    HhtHht();
    HhtHth();
  }

  /** The classic game: HTH against HHT with a fair coin. HHT wins two times in three, and
      the game lasts six tosses on average. */
  lemma HthAgainstHht()
    ensures OddsAB("HTH", "HHT", FairCoin()) == Ok(Odds(8.0, 4.0))
    ensures ProbAB("HTH", "HHT", FairCoin()) == Ok(1.0 / 3.0)
    ensures ExpectedWait("HTH", "HHT", FairCoin()) == Ok(6.0)
  {
    HthHhtLeadingNumbers();
    assert Generic("HTH", "HHT");
  }
}
