/** The simulator of Penney's game, with each trial's draws supplied as a sequence instead of
    taken from a random source: a sliding window of the last max(len(A), len(B)) draws, filled
    with the sentinel '!' at the start, in which A's match is tested before B's. */
module Simulation {

  function Max(x: nat, y: nat): nat {
    if x < y then y else x
  }

  function Min(x: nat, y: nat): nat {
    if x < y then x else y
  }

  /** The symbol the window starts out with. */
  const Sentinel: char := '!'

  function Repeat(c: char, n: nat): (s: string)
    ensures |s| == n && forall i :: 0 <= i < n ==> s[i] == c
  {
    seq(n, _ => c)
  }

  /** The window after `window.pop(0)` and `window.append(d)` for each `d` of `draws` in turn,
      starting from n sentinels: the last n symbols of the sentinels followed by the draws. */
  function WindowAfter(n: nat, draws: seq<char>): (w: string)
    ensures |w| == n
  {
    (Repeat(Sentinel, n) + draws)[|draws|..]
  }

  /** One more draw pops the oldest symbol and appends the draw. */
  lemma WindowStep(n: nat, draws: seq<char>, k: nat)
    requires n > 0 && k < |draws|
    ensures WindowAfter(n, draws[..k + 1]) == WindowAfter(n, draws[..k])[1..] + [draws[k]]
  {
    var all := Repeat(Sentinel, n) + draws[..k];
    assert Repeat(Sentinel, n) + draws[..k + 1] == all + [draws[k]];
    assert (all + [draws[k]])[k + 1..] == all[k..][1..] + [draws[k]];
  }

  /** p is the last |p| symbols of w. */
  predicate EndsWith(w: string, p: string) {
    |p| <= |w| && forall i :: 0 <= i < |p| ==> w[|w| - |p| + i] == p[i]
  }

  /** The slice test `ch_window[max_length-len(p):] == p` is EndsWith. */
  lemma EndsWithSlice(w: string, p: string)
    requires |p| <= |w|
    ensures EndsWith(w, p) <==> w[|w| - |p|..] == p
  {
    if EndsWith(w, p) {
      assert w[|w| - |p|..] == p;
    }
  }

  /** After the k-th draw, A or B ends the window. */
  predicate Hit(A: string, B: string, draws: seq<char>, k: nat)
    requires k <= |draws|
  {
    var w := WindowAfter(Max(|A|, |B|), draws[..k]);
    EndsWith(w, A) || EndsWith(w, B)
  }

  /** No draw before the n-th ended the trial. */
  predicate NoHitBefore(A: string, B: string, draws: seq<char>, n: nat) {
    forall k :: 1 <= k < n && k <= |draws| ==> !Hit(A, B, draws, k)
  }

  /** How one trial ends: the winner and the number of draws it took, or the supplied draws
      ran out first, or the window was empty (both patterns empty: the first `pop(0)` fails). */
  datatype TrialOutcome = AWins(draws: nat) | BWins(draws: nat) | OutOfDraws | EmptyWindow

  /** The outcome of the trial, scanning the draws from the n-th on. */
  function PlayFrom(A: string, B: string, draws: seq<char>, n: nat): TrialOutcome
    requires Max(|A|, |B|) > 0 && n <= |draws|
    decreases |draws| - n
  {
    if n == |draws| then OutOfDraws
    else
      var w := WindowAfter(Max(|A|, |B|), draws[..n + 1]);
      if EndsWith(w, A) then AWins(n + 1)
      else if EndsWith(w, B) then BWins(n + 1)
      else PlayFrom(A, B, draws, n + 1)
  }

  function Play(A: string, B: string, draws: seq<char>): TrialOutcome {
    if Max(|A|, |B|) == 0 then EmptyWindow else PlayFrom(A, B, draws, 0)
  }

  /** The inner `while True` loop of `simulate_winrates_penney_game`: shift each draw into the
      window and stop as soon as A, or else B, ends it. */
  method Trial(A: string, B: string, draws: seq<char>) returns (r: TrialOutcome)
    ensures r == Play(A, B, draws)
  {
    var m := Max(|A|, |B|);
    if m == 0 {
      return EmptyWindow;
    }
    var window := Repeat(Sentinel, m);
    var flips := 0;
    while flips < |draws|
      invariant 0 <= flips <= |draws|
      invariant window == WindowAfter(m, draws[..flips])
      invariant PlayFrom(A, B, draws, flips) == Play(A, B, draws)
    {
      window := window[1..];
      var d := draws[flips];
      WindowStep(m, draws, flips);
      flips := flips + 1;
      window := window + [d];
      EndsWithSlice(window, A);
      EndsWithSlice(window, B);
      if window[m - |A|..] == A {
        return AWins(flips);
      } else if window[m - |B|..] == B {
        return BWins(flips);
      }
    }
    return OutOfDraws;
  }

  /** The number of draws a trial looked at: up to and including the winning one, or all of
      them and one more when it ran out. */
  function Looked(r: TrialOutcome, draws: seq<char>): nat {
    if r.AWins? || r.BWins? then r.draws else |draws| + 1
  }

  /** The winner PlayFrom names from the n-th draw on is the pattern ending the window, A first. */
  lemma {:induction false} PlayFromWinner(A: string, B: string, draws: seq<char>, n: nat)
    requires Max(|A|, |B|) > 0 && n <= |draws|
    ensures var r := PlayFrom(A, B, draws, n); var m := Max(|A|, |B|);
      match r
      case AWins(k) => n < k <= |draws| && EndsWith(WindowAfter(m, draws[..k]), A)
      case BWins(k) =>
        n < k <= |draws| && !EndsWith(WindowAfter(m, draws[..k]), A) &&
        EndsWith(WindowAfter(m, draws[..k]), B)
      case OutOfDraws => true
      case EmptyWindow => false
    decreases |draws| - n
  {
    if n < |draws| {
      PlayFromWinner(A, B, draws, n + 1);
    }
  }

  /** Given no hit before the n-th draw, PlayFrom sees no hit before the draw it stops at. */
  lemma {:induction false} PlayFromNoEarlierHit(A: string, B: string, draws: seq<char>, n: nat)
    requires Max(|A|, |B|) > 0 && n <= |draws| && NoHitBefore(A, B, draws, n + 1)
    ensures NoHitBefore(A, B, draws, Looked(PlayFrom(A, B, draws, n), draws))
    decreases |draws| - n
  {
    if n < |draws| {
      var w := WindowAfter(Max(|A|, |B|), draws[..n + 1]);
      if !EndsWith(w, A) && !EndsWith(w, B) {
        NoHitExtend(A, B, draws, n + 1);
        PlayFromNoEarlierHit(A, B, draws, n + 1);
        assert PlayFrom(A, B, draws, n) == PlayFrom(A, B, draws, n + 1);
      }
    }
  }

  /** A draw that completes neither pattern extends the run of draws without a hit. */
  lemma NoHitExtend(A: string, B: string, draws: seq<char>, k: nat)
    requires 1 <= k <= |draws| && NoHitBefore(A, B, draws, k) && !Hit(A, B, draws, k)
    ensures NoHitBefore(A, B, draws, k + 1)
  {
  }

  /** A trial stops at the first draw after which A or B ends the window; if both do, A wins
      because it is tested first; a trial that runs out of draws saw neither. */
  lemma PlayStopsAtFirstHit(A: string, B: string, draws: seq<char>)
    ensures Play(A, B, draws) == EmptyWindow <==> |A| == 0 && |B| == 0
    ensures var r := Play(A, B, draws); var m := Max(|A|, |B|);
      match r
      case AWins(k) =>
        1 <= k <= |draws| && NoHitBefore(A, B, draws, k) && EndsWith(WindowAfter(m, draws[..k]), A)
      case BWins(k) =>
        1 <= k <= |draws| && NoHitBefore(A, B, draws, k) &&
        !EndsWith(WindowAfter(m, draws[..k]), A) && EndsWith(WindowAfter(m, draws[..k]), B)
      case OutOfDraws => NoHitBefore(A, B, draws, |draws| + 1)
      case EmptyWindow => m == 0
  {
    if Max(|A|, |B|) > 0 {
      PlayFromWinner(A, B, draws, 0);
      PlayFromNoEarlierHit(A, B, draws, 0);
    }
  }

  /** Conversely, the first draw that completes A or B decides the trial, A before B. */
  lemma FirstHitDecides(A: string, B: string, draws: seq<char>, k: nat)
    requires Max(|A|, |B|) > 0 && 1 <= k <= |draws| && NoHitBefore(A, B, draws, k) && Hit(A, B, draws, k)
    ensures var w := WindowAfter(Max(|A|, |B|), draws[..k]);
      Play(A, B, draws) == if EndsWith(w, A) then AWins(k) else BWins(k)
  {
    PlayStopsAtFirstHit(A, B, draws);
    var r := Play(A, B, draws);
    assert r.AWins? || r.BWins? ==> Hit(A, B, draws, r.draws);
  }

  /** The sentinel does not occur in p. */
  predicate SentinelFree(p: string) {
    forall i :: 0 <= i < |p| ==> p[i] != Sentinel
  }

  /** Fewer than |p| draws leave a sentinel in the last |p| places of the window. */
  lemma EndsWithNeedsDraws(n: nat, draws: seq<char>, p: string)
    requires 0 < n && |p| <= n && SentinelFree(p) && EndsWith(WindowAfter(n, draws), p)
    ensures |draws| >= |p|
  {
    if |p| > 0 {
      var w := WindowAfter(n, draws);
      var all := Repeat(Sentinel, n) + draws;
      var j := n - |p|;
      assert p[0] == w[j];
      assert w[j] == all[|draws| + j];
      assert all[|draws| + j] != Sentinel;
    }
  }

  /** A winner needs at least as many draws as its own length (when the sentinel is in
      neither pattern), so every decided trial takes at least min(len(A), len(B)) draws. */
  lemma WinnerNeedsItsLength(A: string, B: string, draws: seq<char>)
    requires SentinelFree(A) && SentinelFree(B)
    ensures Play(A, B, draws).AWins? ==> Play(A, B, draws).draws >= |A|
    ensures Play(A, B, draws).BWins? ==> Play(A, B, draws).draws >= |B|
    ensures Play(A, B, draws).AWins? || Play(A, B, draws).BWins? ==>
      Play(A, B, draws).draws >= Min(|A|, |B|)
  {
    PlayStopsAtFirstHit(A, B, draws);
    var m := Max(|A|, |B|);
    match Play(A, B, draws)
    case AWins(k) => EndsWithNeedsDraws(m, draws[..k], A);
    case BWins(k) => EndsWithNeedsDraws(m, draws[..k], B);
    case OutOfDraws =>
    case EmptyWindow =>
  }

  /** The shorter pattern can win before the window is full of draws: with A = H and B = TTT,
      a first draw of H ends the trial after one draw, fewer than max(len(A), len(B)) = 3. */
  lemma ShortPatternWinsEarly()
    ensures Play("H", "TTT", "H") == AWins(1)
  {
    assert WindowAfter(3, "H"[..1]) == "!!H";
  }

  /** The outer loop's counters: wins of A, wins of B and draws, over the trials so far; or the
      index of the first trial that did not finish. */
  datatype Tally = Counts(winsA: nat, winsB: nat, flips: nat) | Unfinished(trial: nat)

  /** Add the outcome of the trial with index i to the counters. */
  function AddTrial(t: Tally, r: TrialOutcome, i: nat): Tally {
    if t.Unfinished? then t
    else if r.AWins? then Counts(t.winsA + 1, t.winsB, t.flips + r.draws)
    else if r.BWins? then Counts(t.winsA, t.winsB + 1, t.flips + r.draws)
    else Unfinished(i)
  }

  /** The outcome of every trial, each played on its own draws. */
  function Outcomes(A: string, B: string, trials: seq<seq<char>>): (rs: seq<TrialOutcome>)
    ensures |rs| == |trials|
  {
    seq(|trials|, i requires 0 <= i < |trials| => Play(A, B, trials[i]))
  }

  /** The counters after the first n outcomes. */
  function TallyOf(rs: seq<TrialOutcome>, n: nat): Tally
    requires n <= |rs|
  {
    if n == 0 then Counts(0, 0, 0) else AddTrial(TallyOf(rs, n - 1), rs[n - 1], n - 1)
  }

  /** Once a trial has not finished, the tally stays stuck at it. */
  lemma {:induction false} UnfinishedStays(rs: seq<TrialOutcome>, i: nat, j: nat)
    requires i < j <= |rs| && TallyOf(rs, i).Counts? && !rs[i].AWins? && !rs[i].BWins?
    ensures TallyOf(rs, j) == Unfinished(i)
  {
    if j > i + 1 {
      UnfinishedStays(rs, i, j - 1);
    }
  }

  /** `for i in range(N)`: run each trial and add its result to `n_wins` and `n_flips`. */
  method Simulate(A: string, B: string, trials: seq<seq<char>>) returns (t: Tally)
    ensures t == TallyOf(Outcomes(A, B, trials), |trials|)
  {
    ghost var rs := Outcomes(A, B, trials);
    var winsA: nat, winsB: nat, flips: nat := 0, 0, 0;
    var i := 0;
    while i < |trials|
      invariant 0 <= i <= |trials|
      invariant TallyOf(rs, i) == Counts(winsA, winsB, flips)
    {
      var r := Trial(A, B, trials[i]);
      assert r == rs[i];
      if r.AWins? {
        winsA, flips := winsA + 1, flips + r.draws;
      } else if r.BWins? {
        winsB, flips := winsB + 1, flips + r.draws;
      } else {
        UnfinishedStays(rs, i, |trials|);
        return Unfinished(i);
      }
      i := i + 1;
    }
    return Counts(winsA, winsB, flips);
  }

  /** Counting alone: when every outcome is a win, the win counts add up to the number of
      outcomes, and the draws add up to at least m per outcome when every win took m or more. */
  lemma {:induction false} TallyCounts(rs: seq<TrialOutcome>, n: nat, m: nat)
    requires n <= |rs|
    requires forall i :: 0 <= i < n && (rs[i].AWins? || rs[i].BWins?) ==> rs[i].draws >= m
    ensures TallyOf(rs, n).Counts? ==>
      TallyOf(rs, n).winsA + TallyOf(rs, n).winsB == n && TallyOf(rs, n).flips >= n * m
  {
    if n > 0 {
      TallyCounts(rs, n - 1, m);
      assert n * m == (n - 1) * m + m;
    }
  }

  /** Every finished trial is won by exactly one pattern, so the win counts add up to the
      number of trials (the win rates sum to 1), and the draws are at least
      min(len(A), len(B)) per trial. */
  lemma TallyTotals(A: string, B: string, trials: seq<seq<char>>)
    requires SentinelFree(A) && SentinelFree(B)
    ensures var t := TallyOf(Outcomes(A, B, trials), |trials|);
      t.Counts? ==> t.winsA + t.winsB == |trials| && t.flips >= |trials| * Min(|A|, |B|)
  {
    var rs := Outcomes(A, B, trials);
    forall i | 0 <= i < |trials| && (rs[i].AWins? || rs[i].BWins?)
      ensures rs[i].draws >= Min(|A|, |B|)
    {
      WinnerNeedsItsLength(A, B, trials[i]);
    }
    TallyCounts(rs, |trials|, Min(|A|, |B|));
  }
}
