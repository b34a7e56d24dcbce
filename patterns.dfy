/** Enumeration of every pattern of a given length over an alphabet, built by filling a shared
    buffer from the right and appending each completed buffer to a shared list. */
module Patterns {
  import opened Alphabets

  /** `alphabet.keys()`, in insertion order. */
  function Keys(a: Alphabet): (ks: seq<string>)
    ensures |ks| == |a| && forall i :: 0 <= i < |a| ==> ks[i] == a[i].key
  {
    seq(|a|, i requires 0 <= i < |a| => a[i].key)
  }

  lemma KeysAreTheKeys(a: Alphabet, k: string)
    ensures k in Keys(a) <==> HasKey(a, k)
  {
    var ks := Keys(a);
    if HasKey(a, k) {
      var i :| 0 <= i < |a| && a[i].key == k;
      assert ks[i] == k;
    }
  }

  function Pow(b: nat, e: nat): nat {
    if e == 0 then 1 else b * Pow(b, e - 1)
  }

  /** `''.join(ws)`. */
  function Join(w: seq<string>): string {
    if w == [] then "" else w[0] + Join(w[1..])
  }

  /** Put `k` in front of every word of `ws`. */
  function Prepend(k: string, ws: seq<seq<string>>): (r: seq<seq<string>>)
    ensures |r| == |ws| && forall i :: 0 <= i < |ws| ==> r[i] == [k] + ws[i]
  {
    seq(|ws|, i requires 0 <= i < |ws| => [k] + ws[i])
  }

  /** For each key of `ks` in order, that key followed by each word of `ws` in order. */
  function Expand(ks: seq<string>, ws: seq<seq<string>>): seq<seq<string>> {
    if ks == [] then [] else Expand(ks[..|ks| - 1], ws) + Prepend(ks[|ks| - 1], ws)
  }

  /** The words of length `j` over `keys`, the leftmost position varying slowest. */
  function Words(j: nat, keys: seq<string>): seq<seq<string>> {
    if j == 0 then [[]] else Expand(keys, Words(j - 1, keys))
  }

  /** The strings appended when the buffer holds `prefix` to the left of the positions filled. */
  function JoinAll(prefix: seq<string>, ws: seq<seq<string>>): (r: seq<string>)
    ensures |r| == |ws| && forall i :: 0 <= i < |ws| ==> r[i] == Join(prefix + ws[i])
  {
    seq(|ws|, i requires 0 <= i < |ws| => Join(prefix + ws[i]))
  }

  /** The list `all_patterns(k, alphabet)` leaves behind when started as its documentation asks. */
  function Enumeration(k: nat, a: Alphabet): seq<string> {
    JoinAll([], Words(k, Keys(a)))
  }

  ghost predicate Distinct<T>(s: seq<T>) {
    forall i, j :: 0 <= i < j < |s| ==> s[i] != s[j]
  }

  lemma JoinAllConcat(prefix: seq<string>, xs: seq<seq<string>>, ys: seq<seq<string>>)
    ensures JoinAll(prefix, xs + ys) == JoinAll(prefix, xs) + JoinAll(prefix, ys)
  {
    assert forall i :: 0 <= i < |ys| ==> (xs + ys)[|xs| + i] == ys[i];
  }

  lemma JoinAllPrepend(prefix: seq<string>, k: string, ws: seq<seq<string>>)
    ensures JoinAll(prefix + [k], ws) == JoinAll(prefix, Prepend(k, ws))
  {
    assert forall i :: 0 <= i < |ws| ==> (prefix + [k]) + ws[i] == prefix + ([k] + ws[i]);
  }

  /** Writing the next key at the current position appends that key's block of words. */
  lemma ExpandStep(prefix: seq<string>, keys: seq<string>, i: nat, rest: seq<seq<string>>)
    requires i < |keys|
    ensures JoinAll(prefix, Expand(keys[..i + 1], rest)) ==
      JoinAll(prefix, Expand(keys[..i], rest)) + JoinAll(prefix + [keys[i]], rest)
  {
    assert keys[..i + 1][..i] == keys[..i];
    JoinAllPrepend(prefix, keys[i], rest);
    JoinAllConcat(prefix, Expand(keys[..i], rest), Prepend(keys[i], rest));
  }

  /** The patterns so far, followed by the block of key i, are the patterns up to key i + 1. */
  lemma AppendBlock(base: seq<string>, prefix: seq<string>, keys: seq<string>, i: nat,
                    rest: seq<seq<string>>, before: seq<string>, after: seq<string>)
    requires i < |keys|
    requires before == base + JoinAll(prefix, Expand(keys[..i], rest))
    requires after == before + JoinAll(prefix + [keys[i]], rest)
    ensures after == base + JoinAll(prefix, Expand(keys[..i + 1], rest))
  {
    ExpandStep(prefix, keys, i, rest);
  }

  /** With one position left, the block of a key is the single joined buffer. */
  lemma LastPosition(prefix: seq<string>, k: string)
    ensures JoinAll(prefix + [k], Words(0, [])) == [Join(prefix + [k])]
  {
    assert (prefix + [k]) + [] == prefix + [k];
  }

  lemma PrefixKept<T>(p: seq<T>, x: T, f: seq<T>)
    ensures (p + [x] + f)[..|p|] == p
  {
    assert (p + [x] + f)[..|p|] == (p + ([x] + f))[..|p|];
  }

  /** `n` copies of `k`. */
  function Fill(n: nat, k: string): (r: seq<string>)
    ensures |r| == n && forall p :: 0 <= p < n ==> r[p] == k
  {
    seq(n, _ => k)
  }

  /** The buffer shared by the recursive calls, and the list they append to. */
  class PatternBuffer {
    var listPattern: array<string>
    var patterns: seq<string>

    /** The initialisation the documentation asks for: `k` placeholders and an empty list. */
    constructor (k: nat)
      ensures fresh(listPattern) && listPattern.Length == k
      ensures forall p :: 0 <= p < k ==> listPattern[p] == "-"
      ensures patterns == []
    {
      listPattern := new string[k](_ => "-");
      patterns := [];
    }

    /** `all_patterns(j, alphabet)`: for `j == 1` append the joined buffer once per key written
        at the last position; otherwise write each key at position `-j` and recurse. */
    method AllPatterns(j: nat, a: Alphabet)
      requires 1 <= j <= listPattern.Length
      modifies this`patterns, listPattern
      decreases j, 2
      ensures patterns ==
        old(patterns) + JoinAll(old(listPattern[..listPattern.Length - j]), Words(j, Keys(a)))
      ensures |a| == 0 ==> listPattern[..] == old(listPattern[..])
      ensures |a| > 0 ==>
        listPattern[..] == old(listPattern[..listPattern.Length - j]) + Fill(j, a[|a| - 1].key)
    {
      if j == 1 {
        AppendEach(a);
      } else {
        RecurseEach(j, a);
      }
    }

    /** The loop for `j == 1`. */
    method AppendEach(a: Alphabet)
      requires 1 <= listPattern.Length
      modifies this`patterns, listPattern
      ensures patterns ==
        old(patterns) + JoinAll(old(listPattern[..listPattern.Length - 1]), Words(1, Keys(a)))
      ensures |a| == 0 ==> listPattern[..] == old(listPattern[..])
      ensures |a| > 0 ==>
        listPattern[..] == old(listPattern[..listPattern.Length - 1]) + Fill(1, a[|a| - 1].key)
    {
      var n := listPattern.Length;
      ghost var prefix := listPattern[..n - 1];
      ghost var keys := Keys(a);
      ghost var rest := Words(0, keys);
      var i := 0;
      while i < |a|
        invariant 0 <= i <= |a|
        invariant patterns == old(patterns) + JoinAll(prefix, Expand(keys[..i], rest))
        invariant i == 0 ==> listPattern[..] == old(listPattern[..])
        invariant i > 0 ==> listPattern[..] == prefix + [keys[i - 1]]
      {
        listPattern[n - 1] := a[i].key;
        assert listPattern[..] == prefix + [keys[i]];
        ExpandStep(prefix, keys, i, rest);
        LastPosition(prefix, keys[i]);
        var stringPattern := Join(listPattern[..]);
        patterns := patterns + [stringPattern];
        i := i + 1;
      }
      assert keys[..|a|] == keys;
    }

    /** The loop for `j > 1`. */
    method RecurseEach(j: nat, a: Alphabet)
      requires 2 <= j <= listPattern.Length
      modifies this`patterns, listPattern
      decreases j, 1
      ensures patterns ==
        old(patterns) + JoinAll(old(listPattern[..listPattern.Length - j]), Words(j, Keys(a)))
      ensures |a| == 0 ==> listPattern[..] == old(listPattern[..])
      ensures |a| > 0 ==>
        listPattern[..] == old(listPattern[..listPattern.Length - j]) + Fill(j, a[|a| - 1].key)
    {
      var n := listPattern.Length;
      ghost var prefix := listPattern[..n - j];
      var i := 0;
      while i < |a|
        invariant 0 <= i <= |a|
        invariant listPattern[..n - j] == prefix
        invariant patterns == old(patterns) + JoinAll(prefix, Expand(Keys(a)[..i], Words(j - 1, Keys(a))))
        invariant i == 0 ==> listPattern[..] == old(listPattern[..])
        invariant i > 0 ==> listPattern[..] == prefix + [a[i - 1].key] + Fill(j - 1, a[|a| - 1].key)
      {
        PlaceAndRecurse(j, a, i, prefix, old(patterns));
        i := i + 1;
      }
      ghost var keys := Keys(a);
      assert keys[..|a|] == keys;
      if |a| > 0 {
        assert [a[|a| - 1].key] + Fill(j - 1, a[|a| - 1].key) == Fill(j, a[|a| - 1].key);
      }
    }

    /** One turn of the loop for `j > 1`: the `i`-th key goes to position `-j`, then the
        positions to its right are enumerated, appending that key's block of patterns. */
    method PlaceAndRecurse(j: nat, a: Alphabet, i: nat, ghost prefix: seq<string>, ghost base: seq<string>)
      requires 2 <= j <= listPattern.Length && i < |a|
      requires listPattern[..listPattern.Length - j] == prefix
      requires patterns == base + JoinAll(prefix, Expand(Keys(a)[..i], Words(j - 1, Keys(a))))
      modifies this`patterns, listPattern
      decreases j, 0
      ensures patterns == base + JoinAll(prefix, Expand(Keys(a)[..i + 1], Words(j - 1, Keys(a))))
      ensures listPattern[..listPattern.Length - j] == prefix
      ensures listPattern[..] == prefix + [a[i].key] + Fill(j - 1, a[|a| - 1].key)
    {
      ghost var keys := Keys(a);
      ghost var rest := Words(j - 1, keys);
      Place(j, a[i].key, prefix);
      ghost var before := patterns;
      AllPatterns(j - 1, a);
      AppendBlock(base, prefix, keys, i, rest, before, patterns);
      PrefixKept(prefix, a[i].key, Fill(j - 1, a[|a| - 1].key));
    }

    /** `list_pattern[-j] = key`: the buffer now holds `key` just right of `prefix`. */
    method Place(j: nat, key: string, ghost prefix: seq<string>)
      requires 1 <= j <= listPattern.Length && listPattern[..listPattern.Length - j] == prefix
      modifies listPattern
      ensures listPattern[..] == old(listPattern[..])[listPattern.Length - j := key]
      ensures listPattern[..listPattern.Length - j + 1] == prefix + [key]
    {
      listPattern[listPattern.Length - j] := key;
      assert listPattern[..listPattern.Length - j + 1] == prefix + [key];
    }
  }

  /** The documented way to call it: a fresh buffer of length `k`, then `all_patterns(k, alphabet)`. */
  method Enumerate(k: nat, a: Alphabet) returns (ps: seq<string>)
    requires 1 <= k
    ensures ps == Enumeration(k, a)
  {
    var buffer := new PatternBuffer(k);
    buffer.AllPatterns(k, a);
    ps := buffer.patterns;
  }

  lemma {:induction false} ExpandLength(ks: seq<string>, ws: seq<seq<string>>)
    ensures |Expand(ks, ws)| == |ks| * |ws|
  {
    if ks != [] {
      ExpandLength(ks[..|ks| - 1], ws);
      assert |ks| * |ws| == (|ks| - 1) * |ws| + |ws|;
    }
  }

  /** `all_patterns(j, ...)` produces `|alphabet|^j` words. */
  lemma {:induction false} WordsCount(j: nat, keys: seq<string>)
    ensures |Words(j, keys)| == Pow(|keys|, j)
  {
    if j > 0 {
      WordsCount(j - 1, keys);
      ExpandLength(keys, Words(j - 1, keys));
    }
  }

  lemma PrependMember(k: string, ws: seq<seq<string>>, x: seq<string>)
    ensures x in Prepend(k, ws) <==> |x| > 0 && x[0] == k && x[1..] in ws
  {
    if |x| > 0 && x[0] == k && x[1..] in ws {
      var i :| 0 <= i < |ws| && ws[i] == x[1..];
      assert Prepend(k, ws)[i] == x;
    }
  }

  lemma {:induction false} ExpandMember(ks: seq<string>, ws: seq<seq<string>>, x: seq<string>)
    ensures x in Expand(ks, ws) <==> |x| > 0 && x[0] in ks && x[1..] in ws
  {
    if ks != [] {
      var init := ks[..|ks| - 1];
      ExpandMember(init, ws, x);
      PrependMember(ks[|ks| - 1], ws, x);
      assert ks == init + [ks[|ks| - 1]];
    }
  }

  /** The words are exactly the sequences of `j` keys: nothing is missed and nothing else appears. */
  lemma {:induction false} WordsMember(j: nat, keys: seq<string>, w: seq<string>)
    ensures w in Words(j, keys) <==> |w| == j && forall i :: 0 <= i < |w| ==> w[i] in keys
  {
    if j == 0 {
    } else {
      ExpandMember(keys, Words(j - 1, keys), w);
      if |w| > 0 {
        WordsMember(j - 1, keys, w[1..]);
        assert forall i :: 1 <= i < |w| ==> w[1..][i - 1] == w[i];
      }
    }
  }

  /** In the word at `q * |ws| + r`, the first key is the `q`-th and the rest is the `r`-th of `ws`. */
  lemma {:induction false} ExpandIndex(ks: seq<string>, ws: seq<seq<string>>, q: nat, r: nat)
    requires q < |ks| && r < |ws|
    ensures q * |ws| + r < |Expand(ks, ws)|
    ensures Expand(ks, ws)[q * |ws| + r] == [ks[q]] + ws[r]
  {
    var init := ks[..|ks| - 1];
    ExpandLength(ks, ws);
    ExpandLength(init, ws);
    assert |ks| * |ws| == |init| * |ws| + |ws|;
    if q < |init| {
      assert init[q] == ks[q];
      ExpandIndex(init, ws, q, r);
    } else {
      assert q * |ws| == |Expand(init, ws)|;
    }
  }

  /** The leftmost position varies slowest: word `q * |keys|^(j-1) + r` is the `q`-th key
      followed by word `r` of length `j - 1`. */
  lemma WordsOrder(j: nat, keys: seq<string>, q: nat, r: nat)
    requires 1 <= j && q < |keys| && r < Pow(|keys|, j - 1)
    ensures |Words(j - 1, keys)| == Pow(|keys|, j - 1)
    ensures q * Pow(|keys|, j - 1) + r < |Words(j, keys)|
    ensures Words(j, keys)[q * Pow(|keys|, j - 1) + r] == [keys[q]] + Words(j - 1, keys)[r]
  {
    WordsCount(j - 1, keys);
    ExpandIndex(keys, Words(j - 1, keys), q, r);
  }

  lemma DistinctConcat<T>(xs: seq<T>, ys: seq<T>)
    requires Distinct(xs) && Distinct(ys)
    requires forall x :: x in xs ==> x !in ys
    ensures Distinct(xs + ys)
  {
    forall i, j | 0 <= i < j < |xs + ys|
      ensures (xs + ys)[i] != (xs + ys)[j]
    {
      if i < |xs| && |xs| <= j {
        assert (xs + ys)[i] in xs && (xs + ys)[j] == ys[j - |xs|];
      }
    }
  }

  lemma {:induction false} ExpandDistinct(ks: seq<string>, ws: seq<seq<string>>)
    requires Distinct(ks) && Distinct(ws)
    ensures Distinct(Expand(ks, ws))
  {
    if ks != [] {
      var init := ks[..|ks| - 1];
      var last := ks[|ks| - 1];
      ExpandDistinct(init, ws);
      var block := Prepend(last, ws);
      assert Distinct(block) by {
        forall i, j | 0 <= i < j < |ws| ensures block[i] != block[j] {
          assert block[i][1..] == ws[i] && block[j][1..] == ws[j];
        }
      }
      forall x | x in Expand(init, ws) ensures x !in block {
        ExpandMember(init, ws, x);
        PrependMember(last, ws, x);
      }
      DistinctConcat(Expand(init, ws), block);
    }
  }

  /** With distinct keys no word is produced twice. */
  lemma {:induction false} WordsDistinct(j: nat, keys: seq<string>)
    requires Distinct(keys)
    ensures Distinct(Words(j, keys))
  {
    if j > 0 {
      WordsDistinct(j - 1, keys);
      ExpandDistinct(keys, Words(j - 1, keys));
    }
  }

  /** Joining one-character strings keeps one character per string. */
  lemma {:induction false} JoinSingles(w: seq<string>)
    requires forall i :: 0 <= i < |w| ==> |w[i]| == 1
    ensures |Join(w)| == |w| && forall i :: 0 <= i < |w| ==> Join(w)[i] == w[i][0]
  {
    if w != [] {
      JoinSingles(w[1..]);
      assert forall i :: 1 <= i < |w| ==> w[1..][i - 1] == w[i];
    }
  }

  /** Two sequences of one-character strings of the same length join to the same string only
      when they are equal. */
  lemma JoinInjective(u: seq<string>, v: seq<string>)
    requires |u| == |v|
    requires forall i :: 0 <= i < |u| ==> |u[i]| == 1
    requires forall i :: 0 <= i < |v| ==> |v[i]| == 1
    ensures Join(u) == Join(v) ==> u == v
  {
    JoinSingles(u);
    JoinSingles(v);
    if Join(u) == Join(v) {
      forall i | 0 <= i < |u| ensures u[i] == v[i] {
        assert u[i] == [Join(u)[i]] && v[i] == [Join(v)[i]];
      }
    }
  }

  lemma KeysDistinct(a: Alphabet)
    ensures Distinct(Keys(a))
  {
  }

  /** With one-character keys, the enumeration holds exactly the strings of length `k` over the
      alphabet. */
  lemma EnumerationMember(k: nat, a: Alphabet, s: string)
    requires AllKeysSingle(a)
    ensures s in Enumeration(k, a) <==> |s| == k && Covers(a, s)
  {
    var keys := Keys(a);
    var ws := Words(k, keys);
    if s in Enumeration(k, a) {
      var n :| 0 <= n < |ws| && Enumeration(k, a)[n] == s;
      var w := ws[n];
      assert [] + w == w;
      WordsMember(k, keys, w);
      assert forall i :: 0 <= i < |w| ==> |w[i]| == 1;
      JoinSingles(w);
      forall i | 0 <= i < |s| ensures HasKey(a, [s[i]]) {
        assert w[i] == [s[i]];
        KeysAreTheKeys(a, w[i]);
      }
    }
    if |s| == k && Covers(a, s) {
      var w := seq(k, i requires 0 <= i < k => [s[i]]);
      forall i | 0 <= i < k ensures w[i] in keys {
        KeysAreTheKeys(a, w[i]);
      }
      WordsMember(k, keys, w);
      var n :| 0 <= n < |ws| && ws[n] == w;
      JoinSingles(w);
      assert [] + w == w;
      assert Join(w) == s;
      assert Enumeration(k, a)[n] == s;
    }
  }

  /** `|alphabet|^k` patterns are produced. */
  lemma EnumerationCount(k: nat, a: Alphabet)
    ensures |Enumeration(k, a)| == Pow(|a|, k)
  {
    WordsCount(k, Keys(a));
  }

  /** With one-character keys, every pattern is produced once. */
  lemma EnumerationDistinct(k: nat, a: Alphabet)
    requires AllKeysSingle(a)
    ensures Distinct(Enumeration(k, a))
  {
    var keys := Keys(a);
    var ws := Words(k, keys);
    KeysDistinct(a);
    WordsDistinct(k, keys);
    forall m, n | 0 <= m < n < |ws| ensures Enumeration(k, a)[m] != Enumeration(k, a)[n] {
      var u, v := ws[m], ws[n];
      assert [] + u == u && [] + v == v;
      WordsMember(k, keys, u);
      WordsMember(k, keys, v);
      assert forall i :: 0 <= i < |u| ==> |u[i]| == 1;
      assert forall i :: 0 <= i < |v| ==> |v[i]| == 1;
      JoinInjective(u, v);
    }
  }

  /** The pattern at `q * |alphabet|^(k-1) + r` is the `q`-th key followed by the `r`-th
      pattern of length `k - 1`. */
  lemma EnumerationOrder(k: nat, a: Alphabet, q: nat, r: nat)
    requires 1 <= k && q < |a| && r < Pow(|a|, k - 1)
    ensures q * Pow(|a|, k - 1) + r < |Enumeration(k, a)|
    ensures r < |Enumeration(k - 1, a)|
    ensures Enumeration(k, a)[q * Pow(|a|, k - 1) + r] == a[q].key + Enumeration(k - 1, a)[r]
  {
    var keys := Keys(a);
    WordsOrder(k, keys, q, r);
    var n := q * Pow(|a|, k - 1) + r;
    var w := Words(k - 1, keys)[r];
    EnumerationAt(k, a, n);
    EnumerationAt(k - 1, a, r);
    JoinCons(keys[q], w);
  }

  /** The pattern at index n is the n-th word, joined. */
  lemma EnumerationAt(k: nat, a: Alphabet, n: nat)
    requires n < |Words(k, Keys(a))|
    ensures |Enumeration(k, a)| == |Words(k, Keys(a))|
    ensures Enumeration(k, a)[n] == Join(Words(k, Keys(a))[n])
  {
    assert [] + Words(k, Keys(a))[n] == Words(k, Keys(a))[n];
  }

  lemma JoinCons(k: string, w: seq<string>)
    ensures Join([k] + w) == k + Join(w)
  {
    assert ([k] + w)[1..] == w;
  }

  lemma OneFlipWords(h: string, t: string)
    ensures Words(1, [h, t]) == [[h], [t]]
  {
    var zero: seq<seq<string>> := [[]];
    assert Words(0, [h, t]) == zero;
    assert [h] + zero[0] == [h] && [t] + zero[0] == [t];
    assert Prepend(h, zero) == [[h]] && Prepend(t, zero) == [[t]];
    assert [h, t][..1] == [h] && [h][..0] == [];
    assert Expand([h], zero) == [] + Prepend(h, zero);
    assert Expand([h, t], zero) == Expand([h], zero) + Prepend(t, zero);
  }

  lemma TwoFlipsWords(h: string, t: string)
    ensures Words(2, [h, t]) == [[h, h], [h, t], [t, h], [t, t]]
  {
    OneFlipWords(h, t);
    var one := Words(1, [h, t]);
    assert [h] + one[0] == [h, h] && [h] + one[1] == [h, t];
    assert [t] + one[0] == [t, h] && [t] + one[1] == [t, t];
    assert Prepend(h, one) == [[h, h], [h, t]];
    assert Prepend(t, one) == [[t, h], [t, t]];
    assert [h, t][..1] == [h] && [h][..0] == [];
    assert Expand([h], one) == [] + Prepend(h, one);
    assert Expand([h, t], one) == Expand([h], one) + Prepend(t, one);
  }

  /** Two flips over an alphabet of two keys, such as a coin whose keys were inserted as H then
      T: the four pairs HH, HT, TH, TT, the first key varying slowest. */
  lemma TwoFlipsOf(a: Alphabet)
    requires |a| == 2
    ensures var h, t := a[0].key, a[1].key; Enumeration(2, a) == [h + h, h + t, t + h, t + t]
  {
    var h, t := a[0].key, a[1].key;
    assert Keys(a) == [h, t];
    TwoFlipsWords(h, t);
    var e := Enumeration(2, a);
    EnumerationAt(2, a, 0);
    EnumerationAt(2, a, 1);
    EnumerationAt(2, a, 2);
    EnumerationAt(2, a, 3);
    JoinPair(h, h);
    JoinPair(h, t);
    JoinPair(t, h);
    JoinPair(t, t);
  }

  lemma JoinPair(x: string, y: string)
    ensures Join([x, y]) == x + y
  {
    assert [x, y][1..] == [y] && [y][1..] == [];
    assert Join([y]) == y + Join([]) == y + "" == y;
  }
}
