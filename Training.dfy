/** What a training pass does to the map from windows to lists, stated on
    values: the observations it makes, what the counts then are, and the
    probability computation that ends the pass. */
module Training {
  import opened CharList

  /** The map of the language model: window -> list of character data. */
  type Model = map<string, Table>

  /** The list of window `w`, or a new empty list when the map has none. */
  function Lookup(m: Model, w: string): Table
  {
    if w in m then m[w] else []
  }

  /** Records that character `c` was seen right after window `w`. */
  function Observe(m: Model, w: string, c: char): (r: Model)
    ensures r.Keys == m.Keys + {w}
  {
    m[w := Update(Lookup(m, w), c)]
  }

  /** How many positions of the corpus hold a full window of length `k`
      followed by one more character. */
  function NumWindows(corpus: string, k: nat): nat
  {
    if |corpus| > k then |corpus| - k else 0
  }

  /** The window of length `k` that starts at position `j`. */
  function WindowAt(corpus: string, k: nat, j: nat): string
    requires j + k <= |corpus|
  {
    corpus[j..j + k]
  }

  /** Reading one more character extends a slice of the corpus by it, and
      dropping the slice's first character then gives the slice one further
      on. */
  lemma SliceStep(s: string, a: nat, b: nat)
    requires a <= b < |s|
    ensures s[a..b] + [s[b]] == s[a..b + 1]
    ensures a < b ==> s[a..b][1..] + [s[b]] == s[a + 1..b + 1]
  {
  }

  /** The map after the first `n` window positions of the corpus have been
      observed, from left to right. */
  function ObserveUpTo(m: Model, corpus: string, k: nat, n: nat): Model
    requires n <= NumWindows(corpus, k)
  {
    if n == 0 then m
    else Observe(ObserveUpTo(m, corpus, k, n - 1), WindowAt(corpus, k, n - 1), corpus[n - 1 + k])
  }

  /** Observing one more window position looks up the window's list (a new
      empty one when absent), counts the following character in it, and
      stores it back under the window. */
  lemma ObserveUpToNext(m: Model, corpus: string, k: nat, n: nat)
    requires n < NumWindows(corpus, k)
    ensures var prev, w := ObserveUpTo(m, corpus, k, n), WindowAt(corpus, k, n);
            ObserveUpTo(m, corpus, k, n + 1) == prev[w := Update(Lookup(prev, w), corpus[n + k])]
  {
  }

  /** The number of positions j < n at which window `w` occurs in the corpus
      immediately followed by character `c`. */
  function Occurrences(corpus: string, k: nat, n: nat, w: string, c: char): nat
    requires n <= NumWindows(corpus, k)
  {
    if n == 0 then 0
    else Occurrences(corpus, k, n - 1, w, c)
         + (if WindowAt(corpus, k, n - 1) == w && corpus[n - 1 + k] == c then 1 else 0)
  }

  /** The windows that start at the first `n` positions of the corpus. */
  function Windows(corpus: string, k: nat, n: nat): set<string>
    requires n <= NumWindows(corpus, k)
  {
    set j | 0 <= j < n :: WindowAt(corpus, k, j)
  }

  /** How many times `c` has been counted after window `w`. */
  function CountOf(m: Model, w: string, c: char): nat
  {
    CountIn(Lookup(m, w), c)
  }

  /** Every list of the map can have its probabilities computed. */
  ghost predicate Finalizable(m: Model)
  {
    forall w :: w in m ==> m[w] == [] || Total(m[w]) > 0
  }

  /** The map after the probabilities of every list have been computed. */
  function FinalizeAll(m: Model): (r: Model)
    requires Finalizable(m)
    ensures r.Keys == m.Keys
  {
    map w | w in m :: Finalize(m[w])
  }

  /** The total count of every list of the map. */
  function Totals(m: Model): map<string, nat>
  {
    map w | w in m :: Total(m[w])
  }

  /** The sum of the values of a map. */
  ghost function SumValues(v: map<string, nat>): nat
    decreases |v|
  {
    if |v| == 0 then 0
    else
      var w := Pick(v.Keys);
      assert |v - {w}| < |v| by {
        assert (v - {w}).Keys == v.Keys - {w};
      }
      v[w] + SumValues(v - {w})
  }

  /** Some element of a non-empty set. */
  ghost function Pick(s: set<string>): (w: string)
    requires s != {}
    ensures w in s
  {
    var w :| w in s; w
  }

  /** The sum of the counts of all lists of the map. */
  ghost function SumCounts(m: Model): nat
  {
    SumValues(Totals(m))
  }

  lemma {:induction false} SumValuesRemove(v: map<string, nat>, w: string)
    requires w in v
    ensures SumValues(v) == v[w] + SumValues(v - {w})
    decreases |v|
  {
    var u := Pick(v.Keys);
    if u != w {
      assert (v - {u}).Keys == v.Keys - {u};
      assert (v - {w}).Keys == v.Keys - {w};
      SumValuesRemove(v - {u}, w);
      SumValuesRemove(v - {w}, u);
      assert v - {u} - {w} == v - {w} - {u};
    }
  }

  lemma SumValuesSet(v: map<string, nat>, w: string, x: nat)
    ensures SumValues(v[w := x]) + (if w in v then v[w] else 0) == SumValues(v) + x
  {
    if w in v {
      SumValuesReplace(v, w, x);
    } else {
      SumValuesInsert(v, w, x);
    }
  }

  lemma SumValuesReplace(v: map<string, nat>, w: string, x: nat)
    requires w in v
    ensures SumValues(v[w := x]) + v[w] == SumValues(v) + x
  {
    var v' := v[w := x];
    assert v' - {w} == v - {w};
    SumValuesRemove(v', w);
    SumValuesRemove(v, w);
  }

  lemma SumValuesInsert(v: map<string, nat>, w: string, x: nat)
    requires w !in v
    ensures SumValues(v[w := x]) == SumValues(v) + x
  {
    var v' := v[w := x];
    assert v' - {w} == v;
    SumValuesRemove(v', w);
  }

  /** Observing `c` after `w` adds one to the count of (w, c) and to no other
      count, and adds `w` to the keys and nothing else. */
  lemma ObserveOne(m: Model, w: string, c: char)
    ensures Observe(m, w, c).Keys == m.Keys + {w}
    ensures forall v, d :: CountOf(Observe(m, w, c), v, d)
                           == CountOf(m, v, d) + (if v == w && d == c then 1 else 0)
  {
    UpdateCounts(Lookup(m, w), c);
  }

  lemma TotalsSet(m: Model, w: string, t: Table)
    ensures Totals(m[w := t]) == Totals(m)[w := Total(t)]
  {
  }

  /** Observing one character adds one to the sum of all counts. */
  lemma ObserveOneSum(m: Model, w: string, c: char)
    ensures SumCounts(Observe(m, w, c)) == SumCounts(m) + 1
  {
    var t := Lookup(m, w);
    var u := Update(t, c);
    assert Total(u) == Total(t) + 1 by {
      UpdateCounts(t, c);
    }
    TotalsSet(m, w, u);
    SumValuesSet(Totals(m), w, Total(u));
    assert (if w in Totals(m) then Totals(m)[w] else 0) == Total(t);
  }

  /** After the first `n` positions the keys are the old keys plus the
      windows seen at those positions. */
  lemma {:induction false} ObserveUpToKeys(m: Model, corpus: string, k: nat, n: nat)
    requires n <= NumWindows(corpus, k)
    ensures ObserveUpTo(m, corpus, k, n).Keys == m.Keys + Windows(corpus, k, n)
  {
    if n > 0 {
      ObserveUpToKeys(m, corpus, k, n - 1);
      assert Windows(corpus, k, n) == Windows(corpus, k, n - 1) + {WindowAt(corpus, k, n - 1)};
    }
  }

  /** After the first `n` positions the count of (w, c) has grown by the
      number of those positions where w occurs followed by c. */
  lemma {:induction false} ObserveUpToCounts(m: Model, corpus: string, k: nat, n: nat)
    requires n <= NumWindows(corpus, k)
    ensures forall w, c :: CountOf(ObserveUpTo(m, corpus, k, n), w, c)
                           == CountOf(m, w, c) + Occurrences(corpus, k, n, w, c)
  {
    if n > 0 {
      var prev := ObserveUpTo(m, corpus, k, n - 1);
      ObserveUpToCounts(m, corpus, k, n - 1);
      ObserveOne(prev, WindowAt(corpus, k, n - 1), corpus[n - 1 + k]);
    }
  }

  /** After the first `n` positions the counts of all lists together have
      grown by exactly n: one observation per position. */
  lemma {:induction false} ObserveUpToSum(m: Model, corpus: string, k: nat, n: nat)
    requires n <= NumWindows(corpus, k)
    ensures SumCounts(ObserveUpTo(m, corpus, k, n)) == SumCounts(m) + n
  {
    if n > 0 {
      ObserveUpToSum(m, corpus, k, n - 1);
      ObserveOneSum(ObserveUpTo(m, corpus, k, n - 1), WindowAt(corpus, k, n - 1), corpus[n - 1 + k]);
    }
  }

  /** Every key of the map is a window of length `k` whose list is well
      formed. */
  ghost predicate Shaped(m: Model, k: nat)
  {
    forall w :: w in m ==> |w| == k && WellFormed(m[w])
  }

  /** Observation keeps every list well formed, and every key a window of
      length `k`. */
  lemma {:induction false} ObserveUpToShape(m: Model, corpus: string, k: nat, n: nat)
    requires n <= NumWindows(corpus, k)
    requires Shaped(m, k)
    ensures Shaped(ObserveUpTo(m, corpus, k, n), k)
  {
    if n > 0 {
      ObserveUpToShape(m, corpus, k, n - 1);
      ObserveKeepsShape(ObserveUpTo(m, corpus, k, n - 1), WindowAt(corpus, k, n - 1), corpus[n - 1 + k], k);
    }
  }

  /** One observation of a window of length `k` keeps every key a window of
      length `k` and every list well formed. */
  lemma ObserveKeepsShape(m: Model, w: string, c: char, k: nat)
    requires |w| == k && Shaped(m, k)
    ensures Shaped(Observe(m, w, c), k)
  {
    var t := Lookup(m, w);
    assert WellFormed(Update(t, c)) by {
      assert t == [] || WellFormed(t);
      UpdateShape(t, c);
    }
  }

  /** Computing the probabilities of every list keeps the keys and the
      characters and counts of every list, keeps well-formed lists well
      formed and leaves every list finalised. */
  lemma FinalizeAllShape(m: Model)
    requires Finalizable(m)
    ensures FinalizeAll(m).Keys == m.Keys
    ensures forall w :: w in m ==> SameCounts(m[w], FinalizeAll(m)[w]) && Finalized(FinalizeAll(m)[w])
    ensures forall w :: w in m && WellFormed(m[w]) ==> WellFormed(FinalizeAll(m)[w])
  {
    var f := FinalizeAll(m);
    forall w | w in m
      ensures SameCounts(m[w], f[w]) && Finalized(f[w])
      ensures WellFormed(m[w]) ==> WellFormed(f[w])
    {
      FinalizeSpec(m[w]);
      SameCountsAgree(m[w], f[w]);
    }
  }

  /** Computing the probabilities of every list changes no count, and so not
      the sum of all counts either. */
  lemma FinalizeAllCounts(m: Model)
    requires Finalizable(m)
    ensures forall w, c :: CountOf(FinalizeAll(m), w, c) == CountOf(m, w, c)
    ensures SumCounts(FinalizeAll(m)) == SumCounts(m)
  {
    var f := FinalizeAll(m);
    forall w | w in m
      ensures Total(f[w]) == Total(m[w])
      ensures forall c :: CountIn(f[w], c) == CountIn(m[w], c)
    {
      FinalizeSpec(m[w]);
      SameCountsAgree(m[w], f[w]);
    }
    assert Totals(f) == Totals(m);
  }

  /** Everything one training pass establishes, starting from a map whose
      keys are windows of length `k` with well-formed finalised lists: after
      observing every window position of `corpus` and computing all
      probabilities, the keys have grown by the windows of the corpus, every
      count (w, c) has grown by the number of positions where w is followed
      by c, the counts of all lists together have grown by one per window
      position, and every list is again well formed and finalised. */
  lemma TrainSpec(m: Model, corpus: string, k: nat)
    requires forall w :: w in m ==> |w| == k && WellFormed(m[w])
    ensures Finalizable(ObserveUpTo(m, corpus, k, NumWindows(corpus, k)))
    ensures FinalizeAll(ObserveUpTo(m, corpus, k, NumWindows(corpus, k))).Keys
            == m.Keys + Windows(corpus, k, NumWindows(corpus, k))
    ensures forall w, c :: CountOf(FinalizeAll(ObserveUpTo(m, corpus, k, NumWindows(corpus, k))), w, c)
                           == CountOf(m, w, c) + Occurrences(corpus, k, NumWindows(corpus, k), w, c)
    ensures SumCounts(FinalizeAll(ObserveUpTo(m, corpus, k, NumWindows(corpus, k))))
            == SumCounts(m) + NumWindows(corpus, k)
    ensures forall w :: w in FinalizeAll(ObserveUpTo(m, corpus, k, NumWindows(corpus, k))) ==>
              && |w| == k
              && WellFormed(FinalizeAll(ObserveUpTo(m, corpus, k, NumWindows(corpus, k)))[w])
              && Finalized(FinalizeAll(ObserveUpTo(m, corpus, k, NumWindows(corpus, k)))[w])
  {
    var n := NumWindows(corpus, k);
    var obs := ObserveUpTo(m, corpus, k, n);
    ObserveUpToShape(m, corpus, k, n);
    FinalizeAllShape(obs);
    FinalizeAllCounts(obs);
    ObserveUpToKeys(m, corpus, k, n);
    ObserveUpToCounts(m, corpus, k, n);
    ObserveUpToSum(m, corpus, k, n);
  }

  /** After training, the count stored in each entry of a window's list is
      the character's count before training plus the number of positions of
      the corpus where the window is followed by that character. */
  lemma TrainedEntryCount(m: Model, corpus: string, k: nat, w: string, i: nat)
    requires Shaped(m, k)
    requires w in ObserveUpTo(m, corpus, k, NumWindows(corpus, k))
    requires i < |ObserveUpTo(m, corpus, k, NumWindows(corpus, k))[w]|
    ensures Finalizable(ObserveUpTo(m, corpus, k, NumWindows(corpus, k)))
    ensures var e := FinalizeAll(ObserveUpTo(m, corpus, k, NumWindows(corpus, k)))[w][i];
            e.count == CountOf(m, w, e.chr) + Occurrences(corpus, k, NumWindows(corpus, k), w, e.chr)
  {
    TrainSpec(m, corpus, k);
    var f: Model := FinalizeAll(ObserveUpTo(m, corpus, k, NumWindows(corpus, k)));
    CountInEntry(f[w], f[w][i].chr);
  }

  /** Counting the windows of "aab" with window length 1 from an empty map
      gives the single key "a", with 'a' and then 'b' counted once each. */
  lemma ObserveExample()
    ensures NumWindows("aab", 1) == 2
    ensures ObserveUpTo(map[], "aab", 1, 2) == map["a" := [CharData('a', 1, 0.0, 0.0), CharData('b', 1, 0.0, 0.0)]]
  {
    var corpus := "aab";
    assert WindowAt(corpus, 1, 0) == "a" && WindowAt(corpus, 1, 1) == "a";
    var t := [CharData('a', 1, 0.0, 0.0), CharData('b', 1, 0.0, 0.0)];
    assert corpus[1] == 'a' && corpus[2] == 'b';
    assert Update([], 'a') == [t[0]] by {
      assert IndexOf([], 'a') == -1;
    }
    assert Update([t[0]], 'b') == t by {
      assert IndexOf([t[0]][1..], 'b') == -1;
    }
    assert ObserveUpTo(map[], corpus, 1, 1) == map["a" := [t[0]]];
  }

  /** Training with window length 1 on "aab" from an empty map: the window
      "a" is followed once by 'a' and once by 'b', so its list holds both
      with probability 1/2 each, in the order first seen. */
  lemma TrainExample()
    ensures Finalizable(ObserveUpTo(map[], "aab", 1, NumWindows("aab", 1)))
    ensures FinalizeAll(ObserveUpTo(map[], "aab", 1, NumWindows("aab", 1)))
            == map["a" := [CharData('a', 1, 0.5, 0.5), CharData('b', 1, 0.5, 1.0)]]
  {
    ObserveExample();
    var t := [CharData('a', 1, 0.0, 0.0), CharData('b', 1, 0.0, 0.0)];
    var f := [CharData('a', 1, 0.5, 0.5), CharData('b', 1, 0.5, 1.0)];
    assert Total(t[..1]) == 1 && Total(t[..2]) == 2 && Total(t) == 2 by {
      assert t[..1] == [t[0]] && t[..2] == t;
    }
    assert Finalize(t) == f by {
      assert Finalize(t)[0] == f[0];
      assert Finalize(t)[1] == f[1];
    }
    assert FinalizeAll(map["a" := t]) == map["a" := f] by {
      assert FinalizeAll(map["a" := t]).Keys == {"a"};
    }
  }
}
