/** What text generation returns, stated as a property of its output, and
    the fact that the property leaves at most one possible output for given
    random draws. */
module Generation {
  import opened CharList
  import opened Training

  /** Every list of the map can be sampled from. */
  ghost predicate Sampleable(m: Model)
  {
    forall w :: w in m ==> m[w] != []
  }

  /** `out` extends `init`, and its j-th appended character was sampled
      with draws[j] from the list of the window that starts at position j
      (the cursor starts at 0 and moves by one per appended character). */
  ghost predicate Follows(m: Model, k: nat, init: string, draws: seq<real>, out: string)
    requires Sampleable(m)
  {
    && k <= |init| <= |out|
    && |out| - |init| <= |draws|
    && out[..|init|] == init
    && forall j :: 0 <= j < |out| - |init| ==>
         && WindowAt(out, k, j) in m
         && out[|init| + j] == SampleChar(m[WindowAt(out, k, j)], draws[j])
  }

  /** `out` is what generation returns for the seed text `init`, the length
      `textLength` and the random values `draws`:
      - a seed shorter than the window comes back unchanged;
      - otherwise `out` follows the map from `init` and adds at most
        `textLength` characters;
      - it adds fewer only when the window at the cursor has no list. */
  ghost predicate IsGeneration(m: Model, k: nat, init: string, textLength: int, draws: seq<real>, out: string)
    requires Sampleable(m)
    ensures IsGeneration(m, k, init, textLength, draws, out) ==> |init| <= |out| && out[..|init|] == init
  {
    if |init| < k then out == init
    else
      && Follows(m, k, init, draws, out)
      && (|out| == |init| || |out| - |init| <= textLength)
      && (|out| - |init| < textLength ==> WindowAt(out, k, |out| - |init|) !in m)
  }

  /** Appending the character sampled from the window at the cursor keeps
      the output following the map. */
  lemma FollowsStep(m: Model, k: nat, init: string, draws: seq<real>, out: string)
    requires Sampleable(m) && Follows(m, k, init, draws, out)
    requires |out| - |init| < |draws|
    requires WindowAt(out, k, |out| - |init|) in m
    ensures Follows(m, k, init, draws,
                    out + [SampleChar(m[WindowAt(out, k, |out| - |init|)], draws[|out| - |init|])])
  {
    var n := |out| - |init|;
    var out' := out + [SampleChar(m[WindowAt(out, k, n)], draws[n])];
    assert out'[..|init|] == init by {
      assert out'[..|init|] == out[..|init|];
    }
    forall j | 0 <= j <= n
      ensures WindowAt(out', k, j) == WindowAt(out, k, j) && out'[|init| + j] == (out + [out'[|out|]])[|init| + j]
    {
    }
  }

  /** Two outputs of the same generation agree on their first |init| + j
      characters, as far as both reach. */
  lemma {:induction false} PrefixAgree(m: Model, k: nat, init: string, textLength: int, draws: seq<real>,
                                       o1: string, o2: string, j: nat)
    requires Sampleable(m) && k <= |init|
    requires IsGeneration(m, k, init, textLength, draws, o1)
    requires IsGeneration(m, k, init, textLength, draws, o2)
    requires |init| + j <= |o1| && |init| + j <= |o2|
    ensures o1[..|init| + j] == o2[..|init| + j]
  {
    if j > 0 {
      var i := j - 1;
      PrefixAgree(m, k, init, textLength, draws, o1, o2, i);
      assert WindowAt(o1, k, i) == WindowAt(o2, k, i) by {
        assert WindowAt(o1, k, i) == o1[..|init| + i][i..i + k];
        assert WindowAt(o2, k, i) == o2[..|init| + i][i..i + k];
      }
      assert o1[..|init| + j] == o1[..|init| + i] + [o1[|init| + i]];
      assert o2[..|init| + j] == o2[..|init| + i] + [o2[|init| + i]];
    }
  }

  /** Generation is deterministic: the same map, seed, length and draws admit
      at most one output. */
  lemma GenerationUnique(m: Model, k: nat, init: string, textLength: int, draws: seq<real>,
                         o1: string, o2: string)
    requires Sampleable(m)
    requires IsGeneration(m, k, init, textLength, draws, o1)
    requires IsGeneration(m, k, init, textLength, draws, o2)
    ensures o1 == o2
  {
    if k <= |init| {
      if |o1| <= |o2| {
        LengthsAgree(m, k, init, textLength, draws, o1, o2);
      } else {
        LengthsAgree(m, k, init, textLength, draws, o2, o1);
      }
      PrefixAgree(m, k, init, textLength, draws, o1, o2, |o1| - |init|);
      assert o1 == o1[..|o1|] && o2 == o2[..|o2|];
    }
  }

  /** Two outputs of the same generation have the same length: the shorter
      one stopped at a window without a list, and the longer one went on
      from that same window. */
  lemma LengthsAgree(m: Model, k: nat, init: string, textLength: int, draws: seq<real>,
                     o1: string, o2: string)
    requires Sampleable(m) && k <= |init|
    requires IsGeneration(m, k, init, textLength, draws, o1)
    requires IsGeneration(m, k, init, textLength, draws, o2)
    requires |o1| <= |o2|
    ensures |o1| == |o2|
  {
    var n := |o1| - |init|;
    PrefixAgree(m, k, init, textLength, draws, o1, o2, n);
    assert WindowAt(o1, k, n) == WindowAt(o2, k, n) by {
      assert WindowAt(o1, k, n) == o1[..|init| + n][n..n + k];
      assert |init| + n <= |o2|;
      assert WindowAt(o2, k, n) == o2[n..n + k];
      assert o2[n..n + k] == o2[..|init| + n][n..n + k];
    }
  }

  /** With the model trained on "aab" (window length 1), seed "a", length 3
      and draws 0.2, 0.7, 0.1: the window "a" gives 'a' for 0.2 and 'b' for
      0.7, and then the window at the cursor is "b", which has no list, so
      generation stops after two characters. */
  lemma GenerateExample()
    ensures var m := map["a" := [CharData('a', 1, 0.5, 0.5), CharData('b', 1, 0.5, 1.0)]];
            && Sampleable(m)
            && IsGeneration(m, 1, "a", 3, [0.2, 0.7, 0.1], "aab")
  {
    var t := [CharData('a', 1, 0.5, 0.5), CharData('b', 1, 0.5, 1.0)];
    var out := "aab";
    assert WindowAt(out, 1, 0) == "a" && WindowAt(out, 1, 1) == "a" && WindowAt(out, 1, 2) == "b";
    assert SampleIndex(t, 0.2) == 0;
    assert SampleIndex(t[1..], 0.7) == 0;
    assert SampleChar(t, 0.7) == 'b';
  }

  /** The window for the next character starts at the cursor, which starts
      at 0, not at the last characters of the text: with window length 1 and
      the seed "ba", the first character is drawn from the list of "b", not
      from that of "a". */
  lemma GenerateUsesCursorWindow()
    ensures var m := map["a" := [CharData('c', 1, 1.0, 1.0)], "b" := [CharData('d', 1, 1.0, 1.0)]];
            && Sampleable(m)
            && IsGeneration(m, 1, "ba", 1, [0.5], "bad")
            && !IsGeneration(m, 1, "ba", 1, [0.5], "bac")
  {
    assert WindowAt("bad", 1, 0) == "b" && WindowAt("bac", 1, 0) == "b";
    assert "bad"[..2] == "ba" && "bac"[..2] == "ba";
  }

  /** A model without windows (trained on a corpus no longer than the window
      length) generates nothing: the seed text comes back unchanged. */
  lemma EmptyModelGeneratesNothing(k: nat, init: string, textLength: int, draws: seq<real>, out: string)
    requires IsGeneration(map[], k, init, textLength, draws, out)
    ensures out == init
  {
    if k <= |init| {
      FirstWindowKnown(map[], k, init, draws, out);
      assert out == out[..|init|];
    }
  }

  /** Output that follows a map and goes beyond the seed started from a
      window of the map. */
  lemma FirstWindowKnown(m: Model, k: nat, init: string, draws: seq<real>, out: string)
    requires Sampleable(m) && Follows(m, k, init, draws, out)
    ensures |out| > |init| ==> WindowAt(out, k, 0) in m
  {
  }
}
