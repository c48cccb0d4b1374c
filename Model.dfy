/** The language model object: a window length and a map from windows to
    lists of character data, trained on a corpus and then used to generate
    text one character at a time. */
module Model {
  import opened CharList
  import opened Training
  import opened Generation

  class LanguageModel {
    /** Maps every window seen in training to its list of character data. */
    var charDataMap: map<string, Table>
    /** The number of characters in a window. */
    var windowLength: nat

    /** The model invariant: the window length is positive, and every key is a
        window of that length whose list is well formed and finalised. */
    ghost predicate Valid()
      reads this
    {
      && windowLength > 0
      && forall w :: w in charDataMap ==>
           && |w| == windowLength
           && WellFormed(charDataMap[w])
           && Finalized(charDataMap[w])
    }

    /** A model with the given window length and an empty map. */
    constructor (windowLength: nat)
      requires windowLength > 0
      ensures Valid()
      ensures this.windowLength == windowLength && charDataMap == map[]
    {
      this.windowLength := windowLength;
      charDataMap := map[];
    }

    /** Trains the model on `corpus`: every window of the corpus followed by
        one more character counts that character in the window's list (lists
        already in the map are reused, so counts of earlier training are kept
        and added to); then the probabilities of every list are computed. */
    method Train(corpus: string)
      requires Valid()
      modifies this
      ensures Valid() && windowLength == old(windowLength)
      ensures Sampleable(charDataMap)
      ensures Finalizable(ObserveUpTo(old(charDataMap), corpus, windowLength, NumWindows(corpus, windowLength)))
      ensures charDataMap
              == FinalizeAll(ObserveUpTo(old(charDataMap), corpus, windowLength, NumWindows(corpus, windowLength)))
      ensures charDataMap.Keys
              == old(charDataMap).Keys + Windows(corpus, windowLength, NumWindows(corpus, windowLength))
      ensures forall w, c :: CountOf(charDataMap, w, c)
                             == CountOf(old(charDataMap), w, c)
                                + Occurrences(corpus, windowLength, NumWindows(corpus, windowLength), w, c)
      ensures SumCounts(charDataMap) == SumCounts(old(charDataMap)) + NumWindows(corpus, windowLength)
    {
      TrainSpec(charDataMap, corpus, windowLength);
      CountWindows(corpus);
      ComputeAllProbabilities();
    }

    /** The counting pass of training: reads the first window of the corpus,
        then slides it one character at a time, adding each character that
        follows a full window to that window's list. */
    method CountWindows(corpus: string)
      requires windowLength > 0
      modifies this
      ensures windowLength == old(windowLength)
      ensures charDataMap == ObserveUpTo(old(charDataMap), corpus, windowLength, NumWindows(corpus, windowLength))
    {
      ghost var start := charDataMap;
      var k := windowLength;
      var window: string := [];
      var pos := 0;  // how many characters of the corpus have been read
      var i := 0;
      while i < k && pos < |corpus|
        invariant i == pos <= k && pos <= |corpus|
        invariant window == corpus[..pos]
        invariant windowLength == k && charDataMap == start
      {
        var c := corpus[pos];
        pos := pos + 1;
        window := window + [c];
        i := i + 1;
      }
      ghost var n := 0;  // how many windows have been counted
      var m := charDataMap;
      while pos < |corpus|
        invariant pos <= |corpus|
        invariant |window| == k || |window| == pos == |corpus| < k  // the short-window branch never runs
        invariant |window| == k ==> n + k == pos && window == corpus[n..pos]
        invariant n <= NumWindows(corpus, k) && (pos == |corpus| ==> n == NumWindows(corpus, k))
        invariant windowLength == k
        invariant m == ObserveUpTo(start, corpus, k, n)
      {
        var nextChar := corpus[pos];
        pos := pos + 1;
        if |window| < k {
          window := window + [nextChar];
        } else {
          var currentWindow := window;
          ObserveUpToNext(start, corpus, k, n);
          var probs := Lookup(m, currentWindow);
          probs := Update(probs, nextChar);
          m := m[currentWindow := probs];
          SliceStep(corpus, n, pos - 1);
          window := window[1..] + [nextChar];
          n := n + 1;
        }
      }
      charDataMap := m;
    }

    /** The closing pass of training: computes the probabilities of every
        list of the map. */
    method ComputeAllProbabilities()
      requires Finalizable(charDataMap)
      modifies this
      ensures windowLength == old(windowLength)
      ensures charDataMap == FinalizeAll(old(charDataMap))
    {
      ghost var observed := charDataMap;
      var pending := charDataMap.Keys;
      while pending != {}
        invariant pending <= observed.Keys && charDataMap.Keys == observed.Keys
        invariant forall w :: w in charDataMap ==>
                    charDataMap[w] == if w in pending then observed[w] else Finalize(observed[w])
        invariant windowLength == old(windowLength)
        decreases pending
      {
        var w :| w in pending;
        var probs := CalculateProbabilities(charDataMap[w]);
        charDataMap := charDataMap[w := probs];
        pending := pending - {w};
      }
      assert charDataMap == FinalizeAll(observed);
    }

    /** Computes the probabilities of a list from its counts: one pass sums
        the counts, a second sets each entry's p to its share of the sum and
        its cp to the running sum of the p values so far, in list order. */
    method CalculateProbabilities(probs: Table) returns (r: Table)
      requires probs == [] || Total(probs) > 0
      ensures r == Finalize(probs)
      ensures SameCounts(probs, r) && Finalized(r)
    {
      var count: real := 0.0;
      var i := 0;
      while i < |probs|
        invariant 0 <= i <= |probs|
        invariant count == Total(probs[..i]) as real
      {
        TotalSnoc(probs, i);
        count := count + probs[i].count as real;
        i := i + 1;
      }
      assert probs[..|probs|] == probs;

      r := probs;
      var totalCp: real := 0.0;
      i := 0;
      assert probs[..0] == [];
      while i < |r|
        invariant 0 <= i <= |r| == |probs|
        invariant forall j :: 0 <= j < i ==> r[j] == Finalize(probs)[j]
        invariant forall j :: i <= j < |r| ==> r[j] == probs[j]
        invariant count > 0.0 ==> totalCp == Total(probs[..i]) as real / count
      {
        var ch := r[i];
        var p := ch.count as real / count;
        var cp := totalCp + p;
        TotalSnoc(probs, i);
        DivAdd(Total(probs[..i]) as real, ch.count as real, count);
        r := r[i := ch.(p := p, cp := cp)];
        totalCp := cp;
        i := i + 1;
      }
      FinalizeSpec(probs);
    }

    /** Picks a character of a list for the random value `randomValue`: the
        first entry whose cp is strictly above it, or the last entry when
        none is. */
    method GetRandomChar(probs: Table, randomValue: real) returns (c: char)
      requires probs != []
      ensures c == SampleChar(probs, randomValue)
    {
      var k := 0;
      while k < |probs|
        invariant 0 <= k <= |probs|
        invariant forall j :: 0 <= j < k ==> probs[j].cp <= randomValue
      {
        if randomValue < probs[k].cp {
          return probs[k].chr;
        }
        k := k + 1;
      }
      return probs[|probs| - 1].chr;
    }

    /** Extends `initialText` by up to `textLength` characters. The window
        used for the next character starts at the cursor `i`, which starts at
        0 and moves by one per appended character; generation stops early
        when that window has no list. The k-th appended character uses the
        random value draws[k]. */
    method Generate(initialText: string, textLength: int, draws: seq<real>) returns (generatedText: string)
      requires Sampleable(charDataMap)
      requires textLength <= |draws|
      ensures IsGeneration(charDataMap, windowLength, initialText, textLength, draws, generatedText)
    {
      var length, i := |initialText|, 0;
      if length < windowLength {
        return initialText;
      }
      generatedText := initialText;
      while |generatedText| - length < textLength
        invariant |generatedText| == length + i
        invariant i == 0 || i <= textLength
        invariant Follows(charDataMap, windowLength, initialText, draws, generatedText)
        decreases textLength - i
      {
        var window := generatedText[i..i + windowLength];
        if window !in charDataMap {
          return generatedText;
        }
        var c := GetRandomChar(charDataMap[window], draws[i]);
        FollowsStep(charDataMap, windowLength, initialText, draws, generatedText);
        generatedText := generatedText + [c];
        i := i + 1;
      }
    }
  }
}
