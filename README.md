# Conway leading numbers and Penney's game, in Dafny

`conway.py` computes, for two patterns A and B over a finite alphabet with given symbol
probabilities, three things:
- the odds that A appears before B in a stream of independent draws;
- the probability of that;
- the expected waiting time until one of them appears.

All three are built on Conway's *leading numbers*. `payoff_to_B_bets_if_A_occurs_first(A, B, alphabet)`
is the fair payoff owed to gamblers betting on B when the stream stops at A. It sums, over every
suffix of A that is a prefix of B, the product of the inverse probabilities of that suffix's symbols.
The file also has a Monte Carlo simulator of the game and a recursive enumerator of all patterns of a
given length.

This project models that core:

- `results.dfy` (`Results`): the error kinds the library raises or lets Python raise
  (an invalid distribution, a bad key, a symbol missing from the alphabet, a strict substring,
  A == B, division by zero), and the `Result`/`Outcome` types that carry them.
- `alphabets.dfy` (`Alphabets`): the alphabet dict, as a sequence of (key, probability) entries
  with distinct keys in insertion order; `str.find`; and the input validation done before a
  leading number is computed.
- `leading.dfy` (`LeadingNumbers`): the leading number, both as a specification function
  (`LeadingNumber`) and as the source's two nested loops (`Payoff`, `Wealth`), with its properties:
  - at least one per matching offset;
  - zero exactly when no offset matches;
  - at least 1 for a pattern against itself;
  - Conway's closed form `sum (1/q)^L` over overlaps of length L when all symbols have probability q;
  - the documented example THH/HHH = 6.
- `conway.dfy` (`Conway`): `oddsAB`, `probAB` and `expected_waiting_time`, with their
  properties:
  - the corner cases;
  - swapping A and B swaps the odds;
  - P(A first) + P(B first) = 1;
  - the waiting time is symmetric;
  - the waiting time equals the fair payoff of both betting schemes;
  - HTH against HHT with a fair coin: odds 8:4, probability 1/3, waiting time 6.
- `simulation.dfy` (`Simulation`): one trial of the simulator, the sentinel-filled sliding window
  driven by a given sequence of draws, and the counting of wins and draws over several trials.
- `patterns.dfy` (`Patterns`): `all_patterns`, as a class holding the shared buffer
  `list_pattern` (an array) and the shared list `patterns`, proved against a specification
  `Words` of all words, leftmost position slowest.

Floating-point numbers are modelled as exact reals. A Python `ZeroDivisionError` is modelled as
`Err(DivisionByZero)`, not excluded by a precondition.

## Model

| member | source | states |
|---|---|---|
| Alphabets.AnyKeyLongerThanOne | conway.py:52-53 | The key check as written: true exactly when some key is longer than one character. |
| Alphabets.AnyKeyNotOneSymbol | conway.py:52-53 | The key check as its message states it: true exactly when some key is not one character long. |
| Alphabets.AnyMissing | conway.py:57-58 | True exactly when some character of the pattern is not a key of the alphabet. |
| Alphabets.Find | conway.py:62 | `str.find`: -1 exactly when the pattern does not occur, otherwise an occurrence with none before it. |
| Alphabets.StrictlyInside | conway.py:62 | `len(b) < len(a) and a.find(b) > -1` holds exactly when b is shorter than a and occurs in it. |
| Alphabets.Validate | conway.py:44-63 | The checks in source order. It rejects a sum differing from 1 by more than 1e-10, then a key that is not one character, then a character of A+B missing from the alphabet, then one pattern strictly inside the other. Each failure holds exactly when its condition holds and the earlier checks passed; otherwise it passes. |
| Alphabets.EmptyKeyPassesSourceCheck | conway.py:52-53 | An alphabet with the empty key passes the `len(el) > 1` check, although its message requires length 1. The corrected check rejects it. |
| LeadingNumbers.OverlapsMeansPrefix | conway.py:68-71 | `A[i:] == B[0:len(A)-i]` holds exactly when the suffix of A from i is a prefix of B. |
| LeadingNumbers.Wealth | conway.py:81-84 | The inner loop ends with the product of `1/alphabet[c]` over the suffix, or with a division-by-zero error when some symbol has probability 0. |
| LeadingNumbers.SumOverlaps | conway.py:67-85 | The loop over offsets returns the sum of the wealths of the suffixes of A that are prefixes of B. It returns a division-by-zero error exactly when one of those suffixes has a symbol of probability 0. |
| LeadingNumbers.Payoff | conway.py:44-86 | The whole function, with both loops, returns exactly the specified leading number: every validation error, a division by zero, or the sum over matching offsets. |
| LeadingNumbers.InverseAtLeastOne | conway.py:83 | Each gross return `1/p` is at least 1 when 0 < p <= 1. |
| LeadingNumbers.GrossAtLeastOne | conway.py:81-84 | With probabilities in (0, 1], the wealth of a matched suffix is defined and at least 1. |
| LeadingNumbers.SuffixesAtLeastOne | conway.py:67-85 | With probabilities in (0, 1], every suffix's wealth is at least 1, and the loop never divides by zero. |
| LeadingNumbers.AccumulatedCountsOverlaps | conway.py:67-85 | AB after n offsets is at least the number of matching offsets below n. |
| LeadingNumbers.AccumulatedZero | conway.py:67-85 | AB after n offsets is 0 exactly when no offset below n matches. |
| LeadingNumbers.LeadingNumberCountsOverlaps | conway.py:44-86 | For valid inputs with probabilities in (0, 1], the result is defined. It is at least the number of matching offsets, and 0 exactly when none matches. |
| LeadingNumbers.AccumulatedGrows | conway.py:67-85 | AB never decreases from one offset to the next. |
| LeadingNumbers.SelfLeadingNumberAtLeastOne | conway.py:44-86 | A non-empty pattern against itself has leading number at least 1, since offset 0 always matches. |
| LeadingNumbers.UniformGross | conway.py:81-84 | When every symbol has probability q, a suffix of length L has wealth `(1/q)^L`. |
| LeadingNumbers.UniformAccumulated | conway.py:67-85 | When every symbol has probability q, AB is Conway's sum of `(1/q)^L` over the overlaps of length L. |
| LeadingNumbers.UniformLeadingNumber | conway.py:44-86 | For valid inputs whose symbols all have probability q, the leading number is Conway's sum. |
| LeadingNumbers.FairCoin | conway.py:35 | The documented coin `{'T': .5, 'H': .5}` is a valid distribution of one-character keys, each with probability 1/2. |
| LeadingNumbers.ThhAgainstHhh | conway.py:32-38 | The documented example: THH against HHH under a fair coin gives 4 + 2 = 6. |
| Conway.FourLeading | conway.py:104-107 | AA, AB, BB and BA are all defined exactly when the four leading numbers are, and the result then holds those four values. |
| Conway.OddsAB | conway.py:88-110 | A == B fails. B strictly inside A gives exactly [1, 0]. A strictly inside B gives exactly [0, 1]. Otherwise the result is defined exactly when the four leading numbers are, and then equals [AA - AB, BB - BA]. |
| Conway.ExpectedWait | conway.py:121-139 | For A == B it is AA. For B strictly inside A it is BB. For A strictly inside B it is AA. Otherwise it is defined exactly when the four leading numbers are and `AA + BB - AB - BA` is not 0. When the four are defined, it is the formula `(AA*BB - AB*BA)/(AA + BB - AB - BA)` on them, or the division-by-zero error. |
| Conway.OddsSwap | conway.py:97-110 | The odds for (A, B) are defined exactly when those for (B, A) are, and the two components are swapped. |
| Conway.ProbOfSwap | conway.py:118-119 | Exchanging the two odds components turns `o[1]/(o[0]+o[1])` into 1 minus it. |
| Conway.ProbOfInUnitInterval | conway.py:118-119 | With non-negative components, `o[1]/(o[0]+o[1])` lies in [0, 1]. |
| Conway.ProbComplement | conway.py:112-119 | When P(A before B) is defined, so is P(B before A), and the two add up to 1. |
| Conway.ProbInUnitInterval | conway.py:112-119 | With non-negative odds, P(A before B) lies in [0, 1]. |
| Conway.ProbCorners | conway.py:97-119 | The probability fails for A == B. It is 0 when B is strictly inside A, and 1 when A is strictly inside B. |
| Conway.FourLeadingSwap | conway.py:104-107 | Exchanging A and B exchanges AA with BB and AB with BA, and all four are defined in one order exactly when they are in the other. |
| Conway.WaitOfSwap | conway.py:138 | `(AA*BB - AB*BA)/(AA + BB - AB - BA)` is unchanged, defined or not, when the roles of A and B are exchanged. |
| Conway.WaitSymmetric | conway.py:121-139 | The expected waiting time for (A, B) is defined exactly when the one for (B, A) is, and the two are equal. |
| Conway.ProbDefinedIffWaitDefined | conway.py:118-119 | In the generic case the probability is defined exactly when the waiting time is, because both divide by `AA + BB - AB - BA`. |
| Conway.WaitIsFairPayoff | conway.py:133-138 | In the generic case the waiting time is the expected payoff both to A-bettors and to B-bettors: `e = p·AA + (1-p)·BA = p·AB + (1-p)·BB`, where p = P(A first). |
| Conway.WaitOfIsFairPayoff | conway.py:118-119 | The same identity on the four numbers: when the waiting-time formula is defined, so is the probability from the odds `[AA - AB, BB - BA]`, and the two satisfy it. |
| Conway.HthHth | conway.py:104 | Under a fair coin the leading number of HTH against itself is 10. |
| Conway.HthHht | conway.py:105 | Under a fair coin the leading number of HTH against HHT is 2. |
| Conway.HhtHht | conway.py:106 | Under a fair coin the leading number of HHT against itself is 8. |
| Conway.HhtHth | conway.py:107 | Under a fair coin the leading number of HHT against HTH is 4. |
| Conway.HthHhtLeadingNumbers | conway.py:104-107 | The four leading numbers of HTH and HHT under a fair coin are 10, 2, 8 and 4. |
| Conway.HthAgainstHht | conway.py:88-139 | HTH against HHT under a fair coin: odds [8, 4], P(HTH first) = 1/3, expected waiting time 6. |
| Simulation.WindowAfter | conway.py:159-167 | The window keeps length `max(len(A), len(B))` after any number of draws. |
| Simulation.WindowStep | conway.py:164-167 | One more draw pops the oldest symbol and appends the draw: the window after k + 1 draws is the window after k draws without its first symbol, followed by draw k. |
| Simulation.EndsWithSlice | conway.py:169-172 | `ch_window[max_length-len(p):] == p` holds exactly when p is the last len(p) symbols of the window. |
| Simulation.Trial | conway.py:159-174 | The `while True` loop for one trial returns exactly the specified outcome `Play` of the draws. |
| Simulation.PlayFromWinner | conway.py:163-174 | Scanning from draw n, a win for A is reported at a later draw whose window ends with A. A win for B is reported at a later draw whose window ends with B but not with A. |
| Simulation.PlayFromNoEarlierHit | conway.py:163-174 | Scanning from a draw before which nothing matched, no window before the reported draw (or before the end of the draws) ends with A or B. |
| Simulation.PlayStopsAtFirstHit | conway.py:159-174 | A trial reports an empty window exactly when both patterns are empty. It is won by A at draw k exactly when k is the first draw whose window ends with A. It is won by B at k exactly when k is the first such draw for B and the window does not also end with A. Otherwise no draw matches. |
| Simulation.FirstHitDecides | conway.py:169-174 | At the first matching draw, A wins if the window ends with A, even when it also ends with B; otherwise B wins. |
| Simulation.EndsWithNeedsDraws | conway.py:159-169 | A pattern without `'!'` can end the window only after at least as many draws as its length, since the sentinels are still in place before that. |
| Simulation.WinnerNeedsItsLength | conway.py:159-174 | For patterns without `'!'`, a trial won by A takes at least len(A) draws, and one won by B at least len(B). |
| Simulation.ShortPatternWinsEarly | conway.py:159-174 | A = "H" against B = "TTT" is won by A after one draw "H", fewer than `max(len(A), len(B))` draws. |
| Simulation.UnfinishedStays | conway.py:158-174 | Once a trial has ended without a winner, the running tally stays marked unfinished at that trial. |
| Simulation.Simulate | conway.py:155-174 | The loop over trials returns exactly the tally of the trials' outcomes: win counts for A and B and the total number of draws, or the first trial that did not finish. |
| Simulation.TallyCounts | conway.py:155-174 | When the first n outcomes all finished, the two win counts add up to n. The draws total at least n·m when every win took m draws or more. |
| Simulation.TallyTotals | conway.py:155-174 | For patterns without `'!'`, when every trial finishes the two win counts add up to the number of trials. The draws total at least the trials times the shorter pattern length. |
| Patterns.PatternBuffer.constructor | conway.py:183-186 | The required initialisation: a buffer of k placeholders `'-'` and an empty list. |
| Patterns.PatternBuffer.AllPatterns | conway.py:180-200 | `all_patterns(j, alphabet)` appends the joins of the untouched left part of the buffer with every word of length j over the keys, in order. It leaves positions before `-j` unchanged and leaves the last key in positions `-j..-1`; with no keys the buffer is unchanged. |
| Patterns.PatternBuffer.AppendEach | conway.py:192-196 | For j == 1, each key in turn is written at the last position and the joined buffer is appended. |
| Patterns.PatternBuffer.RecurseEach | conway.py:197-200 | For j > 1, each key in turn is written at position `-j` and followed by the whole enumeration of the positions to its right. |
| Patterns.PatternBuffer.PlaceAndRecurse | conway.py:199-200 | Writing the i-th key at position `-j` and recursing appends that key's block of patterns and fills the positions to its right with the last key. |
| Patterns.PatternBuffer.Place | conway.py:199 | `list_pattern[-j] = key` changes that one position, so the buffer then holds the untouched left part followed by the key. |
| Patterns.Enumerate | conway.py:183-188 | The documented calling sequence returns exactly the enumeration `Enumeration(k, alphabet)`. |
| Patterns.WordsCount | conway.py:190-200 | There are `|alphabet|^j` words of length j. |
| Patterns.WordsMember | conway.py:190-200 | The words are exactly the sequences of j keys, with none missing and nothing else. |
| Patterns.WordsOrder | conway.py:192-200 | The leftmost position varies slowest: word `q·|keys|^(j-1) + r` is key q followed by word r of length j - 1. |
| Patterns.WordsDistinct | conway.py:190-200 | With distinct keys, no word is produced twice. |
| Patterns.EnumerationCount | conway.py:183-200 | `|alphabet|^k` patterns are produced. |
| Patterns.EnumerationMember | conway.py:183-200 | With one-character keys, a string is produced exactly when it has length k and all its characters are keys. |
| Patterns.EnumerationDistinct | conway.py:183-200 | With one-character keys, every pattern is produced once. |
| Patterns.EnumerationOrder | conway.py:192-200 | Pattern `q·|alphabet|^(k-1) + r` of length k is key q followed by pattern r of length k - 1. |
| Patterns.TwoFlipsOf | conway.py:183-200 | For any alphabet with two keys h then t, such as a coin with keys H then T, and k = 2, the list is hh, ht, th, tt in that order. |

## Left out

- The random draws `np.random.choice`. A trial reads its draws from a given sequence, and a trial that
  uses them all up without a winner is reported as `OutOfDraws`. The claim that the empirical win
  rates approach `probAB` is probabilistic and is not stated.
- The averages `n_wins/N` and `n_flips/N` with numpy arrays (conway.py:176-178). `Simulate` returns
  the counters they are computed from.
- IEEE floating-point rounding. Probabilities are exact reals, so the 1e-10 tolerance check is an
  exact comparison.
- The dynamic check `type(el) is not str` (conway.py:48-49). Keys are strings by construction.
- The module header and any code outside the six functions modelled.
- `all_patterns` for j outside 1..len(list_pattern). With at least one key, j > len(list_pattern)
  raises IndexError at `list_pattern[-j]`. With at least one key, j <= 0 writes `list_pattern[-j]`
  and recurses with j - 1, so positions 0, 1, 2, … are written until IndexError. With no keys, any j
  appends nothing. `AllPatterns` requires 1 <= j <= the buffer length.
- Simulation draws are single characters. The simulator does not validate the alphabet, and a
  multi-character key would lengthen the joined window; that case is not modelled.
- An empty window (both patterns empty) makes `window.pop(0)` raise an IndexError. The model reports
  it as `EmptyWindow`.
- Simulation.WinnerNeedsItsLength: a trial that stops after n draws is NOT bounded below by
  `max(len(A), len(B))` draws (see `ShortPatternWinsEarly`). The bound proved is the winner's own
  length, and only for patterns that do not contain the sentinel `'!'`. The code does not stop
  `'!'` from being a key.
- Conway.ProbInUnitInterval: requires both odds components to be non-negative. That they always
  are (AA >= AB and BB >= BA) is not proved.
- Conway.ProbAB has no contract of its own. Its properties are `ProbCorners`, `ProbComplement`,
  `ProbInUnitInterval`, `ProbDefinedIffWaitDefined` and `WaitIsFairPayoff`.

## Findings

| source | as written | input that shows it | evidently intended | confidence | as-written member | corrected member |
|---|---|---|---|---|---|---|
| conway.py:52-53 | `any(len(el) > 1 ...)` rejects only keys longer than one character | alphabet `{'': 0.5, 'H': 0.5}` passes the check and the sum check | reject every key whose length is not 1, as the message "Strings must be length 1" says | not executed | Alphabets.AnyKeyLongerThanOne, Alphabets.EmptyKeyPassesSourceCheck | Alphabets.AnyKeyNotOneSymbol, Alphabets.Validate |
