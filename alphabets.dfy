/** Alphabets (a dict from one-character keys to probabilities), substring search on patterns,
    and the input validation that the leading-number computation performs before it computes. */
module Alphabets {
  import opened Results

  /** One key of the alphabet with its probability. */
  datatype Entry = Entry(key: string, prob: real)

  predicate DistinctKeys(s: seq<Entry>) {
    forall i, j :: 0 <= i < j < |s| ==> s[i].key != s[j].key
  }

  /** A dict keeps its keys in insertion order and never holds a key twice. */
  type Alphabet = s: seq<Entry> | DistinctKeys(s) witness []

  predicate HasKey(a: seq<Entry>, k: string) {
    exists i :: 0 <= i < |a| && a[i].key == k
  }

  /** `alphabet[c]`: the probability stored under the one-character key `c`. */
  function Prob(a: Alphabet, c: char): (p: real)
    requires HasKey(a, [c])
    ensures forall i :: 0 <= i < |a| && a[i].key == [c] ==> a[i].prob == p
  {
    if a[0].key == [c] then a[0].prob
    else
      var rest: Alphabet := a[1..];
      assert forall i :: 1 <= i < |a| ==> rest[i - 1] == a[i];
      Prob(rest, c)
  }

  /** `sum(alphabet.values())`, added from the first entry to the last. */
  function Total(s: seq<Entry>): real {
    if s == [] then 0.0 else Total(s[..|s| - 1]) + s[|s| - 1].prob
  }

  function Abs(x: real): real {
    if x < 0.0 then -x else x
  }

  /** The deviation from 1 that the probability sum may have. */
  const Tolerance: real := 1e-10

  /** The probabilities sum to 1 within the tolerance. */
  predicate IsDistribution(a: seq<Entry>) {
    Abs(Total(a) - 1.0) <= Tolerance
  }

  /** Every probability lies in (0, 1]: what a categorical distribution is, though nothing checks it. */
  ghost predicate Proper(a: seq<Entry>) {
    forall i :: 0 <= i < |a| ==> 0.0 < a[i].prob <= 1.0
  }

  ghost predicate AllKeysSingle(a: seq<Entry>) {
    forall i :: 0 <= i < |a| ==> |a[i].key| == 1
  }

  /** Every character of `w` is a key of the alphabet. */
  ghost predicate Covers(a: seq<Entry>, w: string) {
    forall i :: 0 <= i < |w| ==> HasKey(a, [w[i]])
  }

  /** Every slice of a covered pattern is covered. */
  lemma CoversSlice(a: seq<Entry>, w: string, i: nat, j: nat)
    requires i <= j <= |w| && Covers(a, w)
    ensures Covers(a, w[i..j])
  {
    assert forall k :: 0 <= k < j - i ==> w[i..j][k] == w[i + k];
  }

  /** A covers both halves of a concatenation exactly when it covers the whole. */
  lemma CoversConcat(a: seq<Entry>, v: string, w: string)
    ensures Covers(a, v + w) <==> Covers(a, v) && Covers(a, w)
  {
    assert forall k :: 0 <= k < |v| ==> (v + w)[k] == v[k];
    assert forall k :: 0 <= k < |w| ==> (v + w)[|v| + k] == w[k];
  }

  /** `any(len(el) > 1 for el in alphabet.keys())`: the key check as the source writes it. */
  function AnyKeyLongerThanOne(s: seq<Entry>): (r: bool)
    ensures r <==> exists i :: 0 <= i < |s| && |s[i].key| > 1
  {
    if s == [] then false
    else
      assert forall i :: 1 <= i < |s| ==> s[1..][i - 1] == s[i];
      |s[0].key| > 1 || AnyKeyLongerThanOne(s[1..])
  }

  /** The key check as its message states it: some key is not exactly one character long. */
  function AnyKeyNotOneSymbol(s: seq<Entry>): (r: bool)
    ensures r <==> !AllKeysSingle(s)
  {
    if s == [] then false
    else
      assert forall i :: 1 <= i < |s| ==> s[1..][i - 1] == s[i];
      |s[0].key| != 1 || AnyKeyNotOneSymbol(s[1..])
  }

  /** `any(char not in alphabet.keys() for char in w)`. */
  function AnyMissing(a: seq<Entry>, w: string): (r: bool)
    ensures r <==> !Covers(a, w)
  {
    if w == [] then false
    else
      assert forall i :: 1 <= i < |w| ==> w[1..][i - 1] == w[i];
      !HasKey(a, [w[0]]) || AnyMissing(a, w[1..])
  }

  /** `s[k:k+len(p)] == p` with the whole of `p` inside `s`. */
  predicate OccursAt(s: string, p: string, k: int) {
    0 <= k && k + |p| <= |s| && s[k..k + |p|] == p
  }

  ghost predicate Contains(s: string, p: string) {
    exists k :: OccursAt(s, p, k)
  }

  /** `s.find(p)`: the lowest index at which `p` occurs in `s`, or -1. */
  function Find(s: string, p: string): (r: int)
    ensures r == -1 <==> !Contains(s, p)
    ensures r != -1 ==> OccursAt(s, p, r) && forall k :: 0 <= k < r ==> !OccursAt(s, p, k)
  {
    FindFrom(s, p, 0)
  }

  function FindFrom(s: string, p: string, k: nat): (r: int)
    decreases |s| - k
    ensures r == -1 ==> forall j :: k <= j ==> !OccursAt(s, p, j)
    ensures r != -1 ==> k <= r && OccursAt(s, p, r) && forall j :: k <= j < r ==> !OccursAt(s, p, j)
  {
    if k + |p| > |s| then -1
    else if s[k..k + |p|] == p then k
    else FindFrom(s, p, k + 1)
  }

  /** `len(b) < len(a) and a.find(b) > -1`: `b` is a strict substring of `a`. */
  function StrictlyInside(b: string, a: string): (r: bool)
    ensures r <==> |b| < |a| && Contains(a, b)
  {
    |b| < |a| && Find(a, b) > -1
  }

  /** The checks made, in this order, before a leading number is computed. */
  function Validate(A: string, B: string, a: Alphabet): (r: Outcome)
    ensures r == Fail(NotADistribution) <==> !IsDistribution(a)
    ensures r == Fail(KeyNotOneSymbol) <==> IsDistribution(a) && !AllKeysSingle(a)
    ensures r == Fail(SymbolNotInAlphabet) <==>
      IsDistribution(a) && AllKeysSingle(a) && !Covers(a, A + B)
    ensures r == Fail(StrictSubstring) <==>
      IsDistribution(a) && AllKeysSingle(a) && Covers(a, A + B) &&
      ((|B| < |A| && Contains(A, B)) || (|A| < |B| && Contains(B, A)))
    ensures r == Pass <==>
      IsDistribution(a) && AllKeysSingle(a) && Covers(a, A + B) &&
      !(|B| < |A| && Contains(A, B)) && !(|A| < |B| && Contains(B, A))
  {
    if !IsDistribution(a) then Fail(NotADistribution)
    else if AnyKeyNotOneSymbol(a) then Fail(KeyNotOneSymbol)
    else if AnyMissing(a, A + B) then Fail(SymbolNotInAlphabet)
    else if StrictlyInside(B, A) || StrictlyInside(A, B) then Fail(StrictSubstring)
    else Pass
  }

  /** The key check as written lets an empty key through, although its message asks for length 1. */
  lemma EmptyKeyPassesSourceCheck()
    ensures var a: Alphabet := [Entry("", 0.5), Entry("H", 0.5)];
      IsDistribution(a) && !AnyKeyLongerThanOne(a) && AnyKeyNotOneSymbol(a) &&
      Validate("H", "H", a) == Fail(KeyNotOneSymbol)
  {
    var a: Alphabet := [Entry("", 0.5), Entry("H", 0.5)];
    assert Total(a) == 1.0 by {
      assert a[..1] == [Entry("", 0.5)];
      assert a[..1][..0] == [];
    }
  }
}
