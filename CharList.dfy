/** The list of character data kept for one window of the language model.
    The Java program keeps it as a linked List of CharData objects; here it is
    a sequence of entries, and the operations on it are functions. */
module CharList {

  /** One character seen after a window: how many times it was seen, and the
      probability and cumulative probability computed once training is over. */
  datatype CharData = CharData(chr: char, count: nat, p: real, cp: real)

  /** The entries of one window, in list order. */
  type Table = seq<CharData>

  /** The sum of all counts of the table. */
  function Total(t: Table): nat
  {
    if t == [] then 0 else t[0].count + Total(t[1..])
  }

  /** How many times `c` has been counted in the table. */
  function CountIn(t: Table, c: char): nat
  {
    if t == [] then 0 else (if t[0].chr == c then t[0].count else 0) + CountIn(t[1..], c)
  }

  /** The characters that have an entry in the table. */
  function Chars(t: Table): set<char>
  {
    set i | 0 <= i < |t| :: t[i].chr
  }

  /** Each character has at most one entry. */
  ghost predicate Distinct(t: Table)
  {
    forall i, j :: 0 <= i < j < |t| ==> t[i].chr != t[j].chr
  }

  /** The shape of every table that training has touched: non-empty, one
      entry per character, every entry counted at least once. */
  ghost predicate WellFormed(t: Table)
  {
    && |t| > 0
    && Distinct(t)
    && forall i :: 0 <= i < |t| ==> t[i].count > 0
  }

  /** The position of the entry for `c`, or -1 when there is none. */
  function IndexOf(t: Table, c: char): (k: int)
    ensures -1 <= k < |t|
    ensures 0 <= k ==> t[k].chr == c
    ensures forall j :: 0 <= j < |t| && (k < 0 || j < k) ==> t[j].chr != c
  {
    if t == [] then -1
    else if t[0].chr == c then 0
    else
      var k := IndexOf(t[1..], c);
      if k < 0 then -1 else k + 1
  }

  /** Records one more occurrence of `c`: the count of its entry goes up by
      one, or a new entry with count 1 is added when there is none. */
  function Update(t: Table, c: char): (u: Table)
    ensures |u| == if IndexOf(t, c) < 0 then |t| + 1 else |t|
  {
    var k := IndexOf(t, c);
    if k < 0 then t + [CharData(c, 1, 0.0, 0.0)]
    else t[k := t[k].(count := t[k].count + 1)]
  }

  lemma {:induction false} TotalAppend(a: Table, b: Table)
    ensures Total(a + b) == Total(a) + Total(b)
    ensures forall c :: CountIn(a + b, c) == CountIn(a, c) + CountIn(b, c)
  {
    if a != [] {
      assert (a + b)[1..] == a[1..] + b;
      TotalAppend(a[1..], b);
    } else {
      assert a + b == b;
    }
  }

  /** Raising the count of entry `k` by one raises the total and the count of
      that entry's character by one, and no other count. */
  lemma {:induction false} BumpCounts(t: Table, k: nat)
    requires k < |t|
    ensures Total(t[k := t[k].(count := t[k].count + 1)]) == Total(t) + 1
    ensures forall d :: CountIn(t[k := t[k].(count := t[k].count + 1)], d)
                        == CountIn(t, d) + (if d == t[k].chr then 1 else 0)
  {
    var u := t[k := t[k].(count := t[k].count + 1)];
    if k > 0 {
      assert u[1..] == t[1..][k - 1 := t[1..][k - 1].(count := t[1..][k - 1].count + 1)];
      BumpCounts(t[1..], k - 1);
    } else {
      assert u[1..] == t[1..];
    }
  }

  /** In a table without repeated characters, the count of a character is the
      count of its entry, and 0 when it has none. */
  lemma {:induction false} CountInEntry(t: Table, c: char)
    requires Distinct(t)
    ensures c !in Chars(t) ==> CountIn(t, c) == 0
    ensures forall k :: 0 <= k < |t| && t[k].chr == c ==> CountIn(t, c) == t[k].count
  {
    if t != [] {
      assert Distinct(t[1..]) by {
        forall i, j | 0 <= i < j < |t[1..]| ensures t[1..][i].chr != t[1..][j].chr {
          assert t[1..][i] == t[i + 1] && t[1..][j] == t[j + 1];
        }
      }
      assert Chars(t) == {t[0].chr} + Chars(t[1..]) by {
        forall x | x in Chars(t) ensures x in {t[0].chr} + Chars(t[1..]) {
          var i :| 0 <= i < |t| && t[i].chr == x;
          if i > 0 { assert t[1..][i - 1] == t[i]; }
        }
        forall x | x in Chars(t[1..]) ensures x in Chars(t) {
          var i :| 0 <= i < |t[1..]| && t[1..][i].chr == x;
          assert t[1..][i] == t[i + 1];
        }
      }
      CountInEntry(t[1..], c);
      if t[0].chr == c {
        assert c !in Chars(t[1..]) by {
          forall i | 0 <= i < |t[1..]| ensures t[1..][i].chr != c {
            assert t[1..][i] == t[i + 1];
          }
        }
      }
      forall k | 0 <= k < |t| && t[k].chr == c ensures CountIn(t, c) == t[k].count {
        if k > 0 {
          assert t[1..][k - 1] == t[k];
        }
      }
    }
  }

  /** What List.update promises about counts: the total and the count of
      `c` go up by one, and no other count changes. */
  lemma UpdateCounts(t: Table, c: char)
    ensures Total(Update(t, c)) == Total(t) + 1
    ensures forall d :: CountIn(Update(t, c), d) == CountIn(t, d) + (if d == c then 1 else 0)
  {
    var k := IndexOf(t, c);
    if k < 0 {
      var e := CharData(c, 1, 0.0, 0.0);
      TotalAppend(t, [e]);
      assert [e][1..] == [];
      assert forall d :: CountIn([e], d) == if d == c then 1 else 0;
    } else {
      BumpCounts(t, k);
    }
  }

  /** What List.update promises about the entries: in a table without
      repeated characters an existing entry for `c` is bumped in place and
      every other entry is left as it was; otherwise one entry for `c` with
      count 1 is added; a well-formed (or empty) table stays well formed. */
  lemma UpdateShape(t: Table, c: char)
    ensures Chars(Update(t, c)) == Chars(t) + {c}
    ensures Distinct(t) && c in Chars(t) ==>
              && |Update(t, c)| == |t|
              && forall i :: 0 <= i < |t| ==>
                   Update(t, c)[i] == if t[i].chr == c then t[i].(count := t[i].count + 1) else t[i]
    ensures c !in Chars(t) ==> Update(t, c) == t + [CharData(c, 1, 0.0, 0.0)]
    ensures t == [] || WellFormed(t) ==> WellFormed(Update(t, c))
  {
    var k := IndexOf(t, c);
    var u := Update(t, c);
    if k < 0 {
      assert c !in Chars(t);
      assert Chars(u) == Chars(t) + {c} by {
        forall x | x in Chars(u) ensures x in Chars(t) + {c} {
          var i :| 0 <= i < |u| && u[i].chr == x;
          if i < |t| { assert u[i] == t[i]; }
        }
        forall x | x in Chars(t) ensures x in Chars(u) {
          var i :| 0 <= i < |t| && t[i].chr == x;
          assert u[i] == t[i];
        }
        assert u[|t|].chr == c;
      }
    } else {
      assert c in Chars(t);
      assert Chars(u) == Chars(t) + {c} by {
        forall x | x in Chars(u) ensures x in Chars(t) {
          var i :| 0 <= i < |u| && u[i].chr == x;
          assert u[i].chr == t[i].chr;
        }
        forall x | x in Chars(t) ensures x in Chars(u) {
          var i :| 0 <= i < |t| && t[i].chr == x;
          assert u[i].chr == t[i].chr;
        }
      }
    }
  }

  /** Two tables that agree on every character and count (they may differ in
      p and cp). */
  ghost predicate SameCounts(t: Table, u: Table)
  {
    && |u| == |t|
    && forall i :: 0 <= i < |t| ==> u[i].chr == t[i].chr && u[i].count == t[i].count
  }

  /** Tables with the same characters and counts have the same totals, the
      same count for every character and the same shape. */
  lemma {:induction false} SameCountsAgree(t: Table, u: Table)
    requires SameCounts(t, u)
    ensures Total(u) == Total(t)
    ensures forall c :: CountIn(u, c) == CountIn(t, c)
    ensures Chars(u) == Chars(t)
    ensures WellFormed(t) ==> WellFormed(u)
  {
    if t != [] {
      assert SameCounts(t[1..], u[1..]) by {
        forall i | 0 <= i < |t[1..]|
          ensures u[1..][i].chr == t[1..][i].chr && u[1..][i].count == t[1..][i].count
        {
          assert u[1..][i] == u[i + 1] && t[1..][i] == t[i + 1];
        }
      }
      SameCountsAgree(t[1..], u[1..]);
    }
    assert Chars(u) == Chars(t) by {
      forall x | x in Chars(u) ensures x in Chars(t) {
        var i :| 0 <= i < |u| && u[i].chr == x;
        assert t[i].chr == x;
      }
      forall x | x in Chars(t) ensures x in Chars(u) {
        var i :| 0 <= i < |t| && t[i].chr == x;
        assert u[i].chr == x;
      }
    }
  }

  lemma TotalSnoc(t: Table, n: nat)
    requires n < |t|
    ensures Total(t[..n + 1]) == Total(t[..n]) + t[n].count
  {
    assert t[..n + 1] == t[..n] + [t[n]];
    TotalAppend(t[..n], [t[n]]);
    assert [t[n]][1..] == [];
  }

  lemma {:induction false} TotalPrefixMonotone(t: Table, m: nat, n: nat)
    requires m <= n <= |t|
    ensures Total(t[..m]) <= Total(t[..n])
    decreases n - m
  {
    if m < n {
      TotalSnoc(t, n - 1);
      TotalPrefixMonotone(t, m, n - 1);
    }
  }

  /** The probabilities of a table with the given counts: each p is the
      entry's share of the total, and each cp is the share of the entries up
      to and including this one, in list order. */
  function Finalize(t: Table): (u: Table)
    requires t == [] || Total(t) > 0
    ensures |u| == |t|
  {
    var total := Total(t) as real;
    seq(|t|, i requires 0 <= i < |t| =>
      t[i].(p := t[i].count as real / total, cp := Total(t[..i + 1]) as real / total))
  }

  /** The p and cp fields of every entry agree with the counts of the table. */
  ghost predicate Finalized(t: Table)
  {
    && (t == [] || Total(t) > 0)
    && forall i :: 0 <= i < |t| ==>
         && t[i].p == t[i].count as real / Total(t) as real
         && t[i].cp == Total(t[..i + 1]) as real / Total(t) as real
  }

  /** Finalising keeps every character and count and leaves the table
      finalised; finalising again changes nothing. */
  lemma FinalizeSpec(t: Table)
    requires t == [] || Total(t) > 0
    ensures SameCounts(t, Finalize(t))
    ensures Finalized(Finalize(t))
    ensures Finalize(Finalize(t)) == Finalize(t)
  {
    var u := Finalize(t);
    SameCountsAgree(t, u);
    forall n | 0 <= n <= |t| ensures Total(u[..n]) == Total(t[..n]) {
      SameCountsAgree(t[..n], u[..n]);
    }
  }

  lemma DivAdd(a: real, b: real, d: real)
    requires d > 0.0
    ensures (a + b) / d == a / d + b / d
  {
  }

  lemma DivBounds(a: real, b: real, d: real)
    requires d > 0.0 && 0.0 <= a <= b
    ensures 0.0 <= a / d <= b / d
    ensures d / d == 1.0
  {
  }

  /** Each cp is the previous cp plus the entry's own p (the first cp is its
      own p): the running sum of the loop in calculateProbabilities. */
  lemma CumulativeStep(t: Table)
    requires Finalized(t)
    ensures t != [] ==> t[0].cp == t[0].p
    ensures forall i :: 0 < i < |t| ==> t[i].cp == t[i - 1].cp + t[i].p
  {
    if t != [] {
      assert t[..1] == [t[0]];
      assert [t[0]][1..] == [];
      assert Total(t[..1]) == t[0].count;
      var total := Total(t) as real;
      forall i | 0 < i < |t| ensures t[i].cp == t[i - 1].cp + t[i].p {
        TotalSnoc(t, i);
        assert t[i - 1].cp == Total(t[..i]) as real / total;
        DivAdd(Total(t[..i]) as real, t[i].count as real, total);
      }
    }
  }

  /** In a finalised table every p and cp lies in [0, 1] and the cp values
      never decrease in list order. */
  lemma CumulativeMonotone(t: Table)
    requires Finalized(t)
    ensures forall i :: 0 <= i < |t| ==> 0.0 <= t[i].p && 0.0 <= t[i].cp <= 1.0
    ensures forall i, j :: 0 <= i <= j < |t| ==> t[i].cp <= t[j].cp
  {
    if t != [] {
      var total := Total(t) as real;
      assert t[..|t|] == t;
      forall i | 0 <= i < |t| ensures 0.0 <= t[i].p && 0.0 <= t[i].cp <= 1.0 {
        TotalPrefixMonotone(t, i + 1, |t|);
        DivBounds(Total(t[..i + 1]) as real, total, total);
        DivBounds(t[i].count as real, t[i].count as real, total);
      }
      forall i, j | 0 <= i <= j < |t| ensures t[i].cp <= t[j].cp {
        TotalPrefixMonotone(t, i + 1, j + 1);
        DivBounds(Total(t[..i + 1]) as real, Total(t[..j + 1]) as real, total);
      }
    }
  }

  /** The last cp of a non-empty finalised table is exactly 1. */
  lemma LastCumulativeIsOne(t: Table)
    requires Finalized(t) && t != []
    ensures t[|t| - 1].cp == 1.0
  {
    assert t[..|t|] == t;
    var total := Total(t) as real;
    DivBounds(total, total, total);
  }

  /** The sum of the p fields, in list order. */
  function SumP(t: Table): real
  {
    if t == [] then 0.0 else SumP(t[..|t| - 1]) + t[|t| - 1].p
  }

  /** The probabilities of a non-empty finalised table sum to exactly 1. */
  lemma ProbabilitiesSumToOne(t: Table)
    requires Finalized(t) && t != []
    ensures SumP(t) == 1.0
  {
    var total := Total(t) as real;
    var n := 0;
    assert t[..0] == [];
    DivBounds(0.0, 0.0, total);
    while n < |t|
      invariant 0 <= n <= |t|
      invariant SumP(t[..n]) == Total(t[..n]) as real / total
    {
      assert t[..n + 1][..n] == t[..n];
      TotalSnoc(t, n);
      DivAdd(Total(t[..n]) as real, t[n].count as real, total);
      n := n + 1;
    }
    assert t[..|t|] == t;
    DivBounds(total, total, total);
  }

  /** The index picked by the sampler for the random value `r`: the first
      entry whose cp is strictly above `r`, or the last entry when none is. */
  function SampleIndex(t: Table, r: real): (k: nat)
    requires t != []
    ensures k < |t|
    ensures forall j :: 0 <= j < k ==> t[j].cp <= r
    ensures k < |t| - 1 ==> r < t[k].cp
  {
    if r < t[0].cp || |t| == 1 then 0
    else 1 + SampleIndex(t[1..], r)
  }

  /** The character the sampler returns for `r`. */
  function SampleChar(t: Table, r: real): (c: char)
    requires t != []
    ensures c in Chars(t)
  {
    t[SampleIndex(t, r)].chr
  }

  /** Inverse-CDF sampling: on a finalised table and a value `r` in [0, 1),
      entry `k` is picked exactly when r lies in [cp(k-1), cp(k)), an interval
      whose width is that entry's p; the fallback to the last entry is never
      needed. */
  lemma SampleInterval(t: Table, r: real, k: nat)
    requires Finalized(t) && k < |t|
    requires 0.0 <= r < 1.0
    ensures SampleIndex(t, r) == k <==> (k == 0 || t[k - 1].cp <= r) && r < t[k].cp
    ensures r < t[SampleIndex(t, r)].cp
  {
    CumulativeMonotone(t);
    LastCumulativeIsOne(t);
    var s := SampleIndex(t, r);
    assert r < t[s].cp;
  }

  /** A random value of 0 picks the first entry when it has a positive count. */
  lemma SampleZero(t: Table)
    requires Finalized(t) && t != [] && t[0].count > 0
    ensures SampleChar(t, 0.0) == t[0].chr
  {
    assert t[..1] == [t[0]];
    assert [t[0]][1..] == [];
    assert 0.0 < t[0].cp;
  }
}
