# Character-level Markov language model

This project models `LanguageModel`, a fixed-order character-level Markov
language model, and proves properties of the model.

- **Training.** Training slides a window of K characters (the window length)
  over a corpus. For each window followed by one more character, that
  character is counted in the window's list of character data.
- **Probabilities.** Once the corpus is read, every list gets its
  probabilities computed. Each entry's `p` is its share of the list's total
  count. Its `cp` is the running sum of the `p` values in list order.
- **Generation.** Generation extends a seed text one character at a time. A
  random value is drawn for each new character. The first entry whose `cp`
  exceeds that value is chosen (inverse-CDF sampling), with the last entry as
  a fallback.

The project has four modules.

- `CharList` models a list of character data. It covers counting a
  character (`Update`) and computing the probabilities (`Finalize`). It also
  covers the sampler (`SampleIndex`, `SampleChar`), with lemmas on counts,
  cumulative probabilities and sampling intervals.
- `Training` states a training pass on values:
  - `ObserveUpTo` gives the map after the first n window positions of a
    corpus are observed.
  - `FinalizeAll` gives the map after every list's probabilities are
    computed.
  - The lemmas cover the keys, every count, the sum of all counts, and the
    shape of every list.
- `Generation` defines `IsGeneration`, the property generated text has with
  respect to the map and the random draws. It proves that at most one output
  has this property; `Generate` produces one.
- `Model` holds the class `LanguageModel`.
  - It has the fields `charDataMap` and `windowLength`, and its methods have
    the loops of the Java code.
  - `Train` changes the map in place.
  - `CalculateProbabilities`, `GetRandomChar` and `Generate` are proved
    against the functions above.

Random values are parameters: `GetRandomChar` takes its value, and `Generate`
takes a sequence `draws`, using `draws[k]` for the k-th appended character.
The corpus is a string parameter of `Train`.

The documentation comment of `generate` differs from its code. The comment
says the lookup window is the last K characters of the text. The code takes
the window at a cursor that starts at 0 and moves one position per appended
character. The model follows the code. `Generation.GenerateUsesCursorWindow`
shows an input where the two readings differ. When the seed is exactly K
characters long, the cursor window is always the last K characters.

In `train`, the branch that extends a window still shorter than K never runs.
A window shorter than K is left over only when the first loop stopped because
the corpus ran out, and then the second loop never starts.
`Model.LanguageModel.CountWindows` keeps the branch and proves this in a loop
invariant.

## Model

| member | source | states |
|---|---|---|
| CharList.Update | LanguageModel.java:52-53 | Counting a character in a list (List.update). Its own contract fixes only the new length: one longer exactly when the character had no entry. `UpdateCounts` and `UpdateShape` state the rest. |
| CharList.Finalize | LanguageModel.java:70-88 | The probabilities of a list in closed form: p = count/total and cp = (counts up to here)/total. Its own contract keeps the length. `FinalizeSpec`, `CumulativeStep`, `CumulativeMonotone`, `LastCumulativeIsOne` and `ProbabilitiesSumToOne` state the rest. |
| Training.Observe | LanguageModel.java:51-54 | One observation: getOrDefault, update, put. Its contract adds exactly the window to the keys. `ObserveOne` and `ObserveOneSum` state the counts. |
| Training.ObserveUpTo | LanguageModel.java:42-59 | The map after the first n window positions are observed, left to right. Its contract is stated by `ObserveUpToKeys`, `ObserveUpToCounts`, `ObserveUpToSum` and `ObserveUpToShape`. |
| Training.FinalizeAll | LanguageModel.java:61-63 | Every list of the map with its probabilities computed. Its contract keeps the keys. `FinalizeAllShape` and `FinalizeAllCounts` state the rest. |
| Generation.IsGeneration | LanguageModel.java:113-127 | What generation returns. Its own contract says the output begins with the seed; an output longer than the seed started from a window of the map (`FirstWindowKnown`). `Model.LanguageModel.Generate` establishes it, and `GenerationUnique` shows it admits at most one output. |
| Model.LanguageModel.constructor | LanguageModel.java:28-35 | A new model has the given window length and an empty map, and satisfies the model invariant. |
| Model.LanguageModel.Train | LanguageModel.java:37-64 | Keeps the invariant. Every key is a window of length K with a well-formed list whose p/cp agree with its counts, and no list is empty. The new map is `FinalizeAll` of the old map with every window position of the corpus observed. The keys grow by exactly the corpus windows. Every count (w, c) grows by the number of positions where w is followed by c. The total of all counts grows by one per window position. |
| Model.LanguageModel.CountWindows | LanguageModel.java:38-59 | Fills the window with up to K characters, then slides it. The final map is the old map with every window position of the corpus observed, from left to right. The short-window branch is proved unreachable by a loop invariant. |
| Model.LanguageModel.ComputeAllProbabilities | LanguageModel.java:61-63 | After the loop over all lists, the map is `FinalizeAll` of the map before it: same keys, each list finalised. |
| Model.LanguageModel.CalculateProbabilities | LanguageModel.java:68-88 | One pass sums the counts, and a second sets p to count/total and cp to the running sum of p. The result is `Finalize(probs)`: same characters and counts, with p and cp agreeing with the counts. |
| Model.LanguageModel.GetRandomChar | LanguageModel.java:90-104 | Returns the character of the first entry whose cp is strictly above the random value, or the last entry's character when there is none: `SampleChar`. |
| Model.LanguageModel.Generate | LanguageModel.java:106-127 | A seed shorter than K comes back unchanged. Otherwise the output extends the seed by at most `textLength` characters. The j-th new character is sampled with `draws[j]` from the list of the window at cursor j. The output falls short of `textLength` new characters only if that window has no list. |
| CharList.IndexOf | LanguageModel.java:52-53 | Finds a list's entry for a character: -1 if there is none, otherwise the position of the first entry holding it. |
| CharList.UpdateCounts | LanguageModel.java:52-53 | Counting a character adds one to the list's total, one to that character's count, and nothing to any other character's count. |
| CharList.UpdateShape | LanguageModel.java:52-53 | Counting a character adds it to the list's characters. A present character has its entry's count raised in place, and no other entry changes. An absent character gets a new entry with count 1. Well-formed lists stay well formed: non-empty, distinct characters, positive counts. |
| CharList.FinalizeSpec | LanguageModel.java:70-88 | Computing probabilities keeps every character and count, leaves the list finalised, and is idempotent. |
| CharList.CumulativeStep | LanguageModel.java:79-86 | In a finalised list, cp of the first entry is its p, and each later cp is the previous cp plus its own p. |
| CharList.CumulativeMonotone | LanguageModel.java:79-86 | In a finalised list, every p and cp lies in [0, 1] and cp never decreases along the list. |
| CharList.LastCumulativeIsOne | LanguageModel.java:79-86 | In a finalised non-empty list, the last cp is exactly 1. |
| CharList.ProbabilitiesSumToOne | LanguageModel.java:79-86 | In a finalised non-empty list, the p values sum to exactly 1. |
| CharList.SampleIndex | LanguageModel.java:94-103 | The sampled index is in range, every earlier entry has cp at most the random value, and a non-last pick has cp above it. |
| CharList.SampleChar | LanguageModel.java:94-103 | The sampled character is one of the list's characters. |
| CharList.SampleInterval | LanguageModel.java:91-104 | For a finalised list and a value r in [0, 1), entry k is picked exactly when r lies in [cp(k-1), cp(k)), both directions. The picked entry always has cp above r, so the fallback to the last entry is never needed. |
| CharList.SampleZero | LanguageModel.java:91-104 | A random value of 0 picks the first entry when its count is positive. |
| Training.ObserveOne | LanguageModel.java:50-53 | Observing c after w adds w to the keys and nothing else, and adds one to the count of (w, c) and to no other count. |
| Training.ObserveOneSum | LanguageModel.java:50-53 | Observing one character adds one to the sum of all counts of the map. |
| Training.ObserveUpToKeys | LanguageModel.java:45-59 | After n window positions, the keys are the old keys plus the windows at those positions. |
| Training.ObserveUpToCounts | LanguageModel.java:45-59 | After n window positions, each count (w, c) has grown by the number of those positions where w is followed by c. |
| Training.ObserveUpToSum | LanguageModel.java:45-59 | After n window positions, the sum of all counts has grown by exactly n. |
| Training.ObserveKeepsShape | LanguageModel.java:50-54 | One observation of a window of length K keeps every key a window of length K and every list well formed. |
| Training.ObserveUpToShape | LanguageModel.java:45-59 | Observation keeps every key a window of length K and every list well formed. |
| Training.FinalizeAllShape | LanguageModel.java:61-63 | Computing all probabilities keeps the keys and every list's characters and counts. It keeps lists well formed and leaves every list finalised. |
| Training.FinalizeAllCounts | LanguageModel.java:61-63 | Computing all probabilities changes no count and so not the sum of all counts. |
| Training.TrainSpec | LanguageModel.java:38-64 | Combines the above for a whole pass: keys, counts, sum of counts, and the shape of every list after training. |
| Training.TrainedEntryCount | LanguageModel.java:38-64 | After training, each entry's count is the character's earlier count after that window plus the number of positions where the window is followed by it. |
| Training.ObserveExample | LanguageModel.java:42-59 | Counting the windows of "aab" with K = 1 from an empty map gives the single key "a", with 'a' then 'b' counted once each. |
| Training.TrainExample | LanguageModel.java:38-64 | With K = 1 and corpus "aab" from an empty map, the only key is "a". Its list is ('a', 1, 0.5, 0.5) then ('b', 1, 0.5, 1.0). |
| Generation.FollowsStep | LanguageModel.java:118-123 | Appending the character sampled from the window at the cursor keeps the output consistent with the map and the draws. |
| Generation.PrefixAgree | LanguageModel.java:113-127 | Two outputs of the same generation agree on every prefix both reach. |
| Generation.LengthsAgree | LanguageModel.java:113-127 | Two outputs of the same generation have the same length. |
| Generation.GenerationUnique | LanguageModel.java:113-127 | Generation is deterministic: the same map, seed, length and draws admit at most one output. `Generate` supplies one whenever there are at least `textLength` draws. |
| Generation.EmptyModelGeneratesNothing | LanguageModel.java:113-127 | A model without windows returns the seed text unchanged. |
| Generation.GenerateExample | LanguageModel.java:113-127 | The model trained on "aab" with seed "a", length 3 and draws 0.2, 0.7, 0.1 gives "aab". It stops early because the window "b" has no list. |
| Generation.GenerateUsesCursorWindow | LanguageModel.java:106-127 | With K = 1 and seed "ba", the first new character comes from the list of "b" (cursor 0), not of "a" (the last character). |

## Left out

- Reading the corpus from a file (`In`) is left out; `Train` takes the corpus as a string.
- `java.util.Random` and the seed are left out.
  - The seeded constructor (lines 19-26) and the unseeded one (lines 28-35) become one constructor without the seed.
  - Random values are parameters.
  - Only `SampleInterval` and `SampleZero` assume values in [0, 1).
- `toString` and `main` (printing and command-line parsing) are left out.
- Doubles are modelled as exact reals, so IEEE rounding is not modelled. With exact reals the last cp is exactly 1. Under rounding it can fall slightly below 1, which is why the source keeps a fallback to the last entry.
- The `List`, `CharData` and `ListIterator` classes are not part of this model.
  - The list is modelled as a sequence of values.
  - `List.update` bumps the count of an existing entry, or else adds a new entry with count 1. The model adds that new entry at the end. The source of `List.update` is not part of this model, so the insertion position is a modelling choice. The count, key and sum properties do not depend on it; the order of entries, and so the cp values, do.
  - Null entries, which `calculateProbabilities` skips, are not modelled; lists never hold them.
- Lists are values stored into the map, not shared objects updated in place. Each list belongs to exactly one key, so no aliasing is lost.
- Model.LanguageModel.CountWindows: updates a local copy of the map and stores it back in the field once, at the end of the pass. The source writes the field at every step; no other code runs in between, so the final state is the same.
- Model.LanguageModel.constructor: requires a positive window length. With length 0 or a negative length, `train` on a non-empty corpus throws in `deleteCharAt(0)` on its first character. That exception is not modelled.
- Model.LanguageModel.CalculateProbabilities: requires a non-empty list to have a positive total. The source would store NaN for an all-zero list, but such a list never arises, since entries start with count 1.
- Model.LanguageModel.GetRandomChar: requires a non-empty list. On an empty list the source throws at `probs.get(probs.getSize() - 1)`; lists in the map are never empty after training.
- Model.LanguageModel.Generate: requires every list in the map to be non-empty, which `Train` guarantees, so that each call of `GetRandomChar` meets its requirement. It also requires at least `textLength` draws, which stand for the random generator.
- Characters are modelled as Unicode scalar values, while a Java `char` is a UTF-16 code unit. Reading, windows and `substring` work in code units, so outside the Basic Multilingual Plane a window can split a surrogate pair and `getRandomChar` can return half of one. The model covers only text inside the Basic Multilingual Plane, where code units and scalar values coincide.
- Java's 32-bit `int` counts and string lengths are unbounded integers here; overflow is not modelled.
