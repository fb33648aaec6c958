# UCI time-series collection parser, modelled in Dafny

This project models the data framing of `UCITimeSeriesCollectionParser`, the
only logic of its own in a small DL4J example. The example classifies the UCI
synthetic control chart data set: 600 lines of 60 numbers, 100 lines per class,
six classes. The framing has two stages.

- `parse(URL)` pairs every line with the label `lineIndex / 100`. It shuffles
  the pairs with a seeded `Collections.shuffle`. It then copies the shuffled
  pairs into a "train" and a "test" pair of string lists: the feature lines,
  and the labels written as decimal strings. The train and test lists are
  identical.
- The private `parse(List<String>)` turns each list into the nested list
  `[example][timestep][channel]` behind a `CollectionSequenceRecordReader`.
  A string containing a space is split on `\s+`, and each token becomes a
  one-value timestep. Any other string is a label: one timestep holding one
  value. One `NumberFormatException` anywhere makes the whole call return
  `null`. The loop stops at `size() - 1`, so the last string is never
  converted. The size diagnostic `top.get(0).get(0)` throws an
  `IndexOutOfBoundsException` that nothing catches. It does so when no string
  was converted, and also when the first converted string is blank apart from
  whitespace including a space, since that row has no timestep.

Modules, leaves first:

- `Options` (options.dfy): `Option` and the all-or-nothing `Traverse` that both
  conversion loops follow.
- `JavaText` (java_text.dfy): `contains(" ")`, `split("\\s+")` with Java's
  rules, and `String.valueOf` for non-negative ints. Under those rules a
  leading empty token is kept, trailing empty tokens are dropped, and a
  string with no match is returned whole.
- `Labelling` (labelling.dfy): labels by position, and `Collections.shuffle`
  as Fisher–Yates swaps driven by the draws of the random source.
- `Tensorisation` (tensorise.dfy): row conversion and the reader outcome:
  a reader, `null`, or the escaping exception.
- `CollectionParser` (collection_parser.dfy): the whole of `parse(URL)`.

Abstractions:

- `Double.parseDouble` is a parameter `parse: string -> Option<real>`. `None`
  stands for `NumberFormatException`, and doubles are abstracted to reals.
  Two known facts about it are predicates that lemmas assume where needed.
  `RejectsEmpty`: it throws on `""`. `ReadsNaturals`: it reads the decimal
  of every natural back as that natural, an exact real.
- `new Random(12345)` is a parameter `draw: nat -> nat`. The draw for bound
  `i` stands for `nextInt(i)` as `draw(i) % i`. Each bound is asked for once
  per shuffle, so every run of the seeded generator is one such function.
- The stream is a parameter `source: Option<seq<string>>`. `None` is an
  `IOException` from `source.openStream()`, which is caught and logged
  before any line is labelled.
- The instance field `featureLabelPairs` is the `prior` argument and the
  `pairs` of the result. A second call on the same parser appends to it, with
  labels counted from zero again, and shuffles old and new pairs together.

The model follows the code, including where the code's own comment (:95,
"do a train/test split") suggests otherwise:

- The train and test views are the same list. There is no held-out split.
- Only a space (not a tab) makes a string a feature row.
- A parse failure yields a `null` reader, not a raised error.
- The last string of every list is dropped.
- The line count is not checked against 600. A 601st line gets label 6,
  which names no class.

## Model

| member | source | states |
|---|---|---|
| Options.Traverse | src/main/java/net/dev4any1/dl4j/UCITimeSeriesCollectionParser.java:126-157 | the conversion gives a result exactly when every element converts; the result has one entry per element, in order |
| JavaText.Split | src/main/java/net/dev4any1/dl4j/UCITimeSeriesCollectionParser.java:131 | `split("\\s+")` tokens hold no whitespace, and only the first token can be empty, which happens only when the string is empty or starts with whitespace; the empty string splits into one empty token. Where the tokens break is stated by SplitOfRuns |
| JavaText.SplitKeepsText | src/main/java/net/dev4any1/dl4j/UCITimeSeriesCollectionParser.java:131 | the tokens, concatenated, are the input with its whitespace removed: splitting loses only whitespace |
| JavaText.SplitOfRuns | src/main/java/net/dev4any1/dl4j/UCITimeSeriesCollectionParser.java:131 | words separated by whitespace runs of any lengths, with an optional leading and an optional trailing run, split into exactly those words, preceded by one empty token exactly when the leading run is there |
| JavaText.SplitOfUnindentedRuns | src/main/java/net/dev4any1/dl4j/UCITimeSeriesCollectionParser.java:131 | without a leading run, words and runs split back into exactly the words: trailing whitespace adds no token |
| JavaText.PiecesOfRuns | src/main/java/net/dev4any1/dl4j/UCITimeSeriesCollectionParser.java:131 | the pieces between maximal whitespace runs are the words, plus one empty piece when trailing whitespace follows; that empty piece is what `split` drops |
| JavaText.SplitOfBlank | src/main/java/net/dev4any1/dl4j/UCITimeSeriesCollectionParser.java:131 | a non-empty all-whitespace string splits into no tokens |
| JavaText.SplitOfIndented | src/main/java/net/dev4any1/dl4j/UCITimeSeriesCollectionParser.java:131 | leading whitespace before content yields an empty first token followed by at least one more |
| JavaText.NatToDecimal | src/main/java/net/dev4any1/dl4j/UCITimeSeriesCollectionParser.java:99 | `String.valueOf` of a label is a non-empty digit string without a leading zero, and is "0" exactly for zero |
| JavaText.DecimalRoundTrip | src/main/java/net/dev4any1/dl4j/UCITimeSeriesCollectionParser.java:99-101 | reading the written label string as a decimal gives back the label |
| JavaText.DecimalInjective | src/main/java/net/dev4any1/dl4j/UCITimeSeriesCollectionParser.java:99-101 | different labels are written as different strings |
| JavaText.DecimalHasNoWhitespace | src/main/java/net/dev4any1/dl4j/UCITimeSeriesCollectionParser.java:141-146 | a written label contains no space, so it always takes the label branch |
| Labelling.LabelFrom | src/main/java/net/dev4any1/dl4j/UCITimeSeriesCollectionParser.java:89-94 | one pair per line, in order; with the counter starting at c, line i gets label (c + i) / 100 |
| Labelling.LabelLines | src/main/java/net/dev4any1/dl4j/UCITimeSeriesCollectionParser.java:71-94 | before the shuffle, pair i is line i with label i / 100 |
| Labelling.Swap | src/main/java/net/dev4any1/dl4j/UCITimeSeriesCollectionParser.java:96 | a swap exchanges two positions, leaves the rest alone, and keeps the multiset |
| Labelling.ShuffleDown | src/main/java/net/dev4any1/dl4j/UCITimeSeriesCollectionParser.java:96 | the remaining shuffle steps keep the multiset and the length, and never touch positions at or above the current bound |
| Labelling.Shuffle | src/main/java/net/dev4any1/dl4j/UCITimeSeriesCollectionParser.java:96 | the shuffle is a permutation: same length, same multiset; lists of zero or one element are unchanged |
| Labelling.ShuffledPairsKeepTheirLabels | src/main/java/net/dev4any1/dl4j/UCITimeSeriesCollectionParser.java:89-96 | every shuffled pair is some line i of the file with label i / 100 |
| Labelling.EveryLineSurvivesShuffle | src/main/java/net/dev4any1/dl4j/UCITimeSeriesCollectionParser.java:89-96 | every line of the file, with its label, is still present after the shuffle |
| Labelling.LabelSetIsGroups | src/main/java/net/dev4any1/dl4j/UCITimeSeriesCollectionParser.java:89-94 | with a whole number of groups, the labels used are exactly 0 to lines / 100 - 1 |
| Labelling.FullDataSetLabels | src/main/java/net/dev4any1/dl4j/UCITimeSeriesCollectionParser.java:59-67 | 600 lines use exactly the six labels that index the class names |
| Labelling.ExtraLineHasNoClass | src/main/java/net/dev4any1/dl4j/UCITimeSeriesCollectionParser.java:89-94 | a 601st line is labelled 6, past the last class name |
| Tensorisation.TokenTimestep | src/main/java/net/dev4any1/dl4j/UCITimeSeriesCollectionParser.java:133-139 | a token gives a timestep exactly when it parses, and that timestep holds just its value |
| Tensorisation.RowSequence | src/main/java/net/dev4any1/dl4j/UCITimeSeriesCollectionParser.java:128-146 | every timestep of a converted row holds exactly one value, and a row without a space converts to exactly one timestep |
| Tensorisation.FeatureRowCases | src/main/java/net/dev4any1/dl4j/UCITimeSeriesCollectionParser.java:130-140 | a row with a space converts exactly when every split token parses, and then gives one timestep per token, in token order, holding that token's value |
| Tensorisation.LabelRowCases | src/main/java/net/dev4any1/dl4j/UCITimeSeriesCollectionParser.java:141-146 | a row without a space converts exactly when the whole string parses, and then gives a single timestep holding its value |
| Tensorisation.ConvertedRows | src/main/java/net/dev4any1/dl4j/UCITimeSeriesCollectionParser.java:127 | the loop visits every string but the last, in order |
| Tensorisation.Tensorise | src/main/java/net/dev4any1/dl4j/UCITimeSeriesCollectionParser.java:122-159 | `null` exactly when a visited row fails; otherwise one example per string but the last, each the row's conversion; throws exactly when fewer than two strings or the first example is empty |
| Tensorisation.SingleTokenRow | src/main/java/net/dev4any1/dl4j/UCITimeSeriesCollectionParser.java:141-146 | a lone whitespace-free token goes to the label branch and gives a single one-value timestep |
| Tensorisation.FeatureRowOfTokens | src/main/java/net/dev4any1/dl4j/UCITimeSeriesCollectionParser.java:130-140 | a feature row whose tokens parse gives their values, one per timestep, in token order |
| Tensorisation.FeatureRowRoundTrip | src/main/java/net/dev4any1/dl4j/UCITimeSeriesCollectionParser.java:130-146 | numbers separated by whitespace runs of any lengths, with optional trailing whitespace and a space somewhere, convert to exactly those numbers, one per timestep, in order |
| Tensorisation.FeatureRowWithBadToken | src/main/java/net/dev4any1/dl4j/UCITimeSeriesCollectionParser.java:130-157 | in a row of words and whitespace runs with a space somewhere, one unparseable word loses the whole row |
| Tensorisation.LabelRowRoundTrip | src/main/java/net/dev4any1/dl4j/UCITimeSeriesCollectionParser.java:141-146 | a written label converts to a single timestep holding that label |
| Tensorisation.IndentedFeatureRowIsRejected | src/main/java/net/dev4any1/dl4j/UCITimeSeriesCollectionParser.java:131-135 | a feature row that starts with whitespace has an empty first token, which `parseDouble` rejects, so the row fails |
| Tensorisation.BlankFeatureRowIsEmpty | src/main/java/net/dev4any1/dl4j/UCITimeSeriesCollectionParser.java:130-140 | a blank row containing a space converts to an example with no timesteps |
| Tensorisation.LastRowNeverRead | src/main/java/net/dev4any1/dl4j/UCITimeSeriesCollectionParser.java:127 | the outcome does not depend on the last string at all |
| CollectionParser.CopyToLists | src/main/java/net/dev4any1/dl4j/UCITimeSeriesCollectionParser.java:97-102 | train and test lists are identical; entry i is pair i's line and the decimal of pair i's label |
| CollectionParser.BuildReaders | src/main/java/net/dev4any1/dl4j/UCITimeSeriesCollectionParser.java:106-111 | the call throws exactly when one of the four conversions throws; otherwise the readers are the four conversions |
| CollectionParser.ParseSource | src/main/java/net/dev4any1/dl4j/UCITimeSeriesCollectionParser.java:70-112 | after a read, the pairs are a permutation of the earlier pairs plus the labelled lines; after an IOException from opening the stream, the pairs are unchanged and the lists empty |
| CollectionParser.FreshParseKeepsLabels | src/main/java/net/dev4any1/dl4j/UCITimeSeriesCollectionParser.java:89-102 | on a fresh parser, position k of the pairs and train lists holds some line i, its label i / 100, and that label's decimal |
| CollectionParser.FailedReadThrows | src/main/java/net/dev4any1/dl4j/UCITimeSeriesCollectionParser.java:103-106 | after a caught IOException from opening the stream, the conversion of the empty lists throws out of the call |
| CollectionParser.TooFewPairsThrow | src/main/java/net/dev4any1/dl4j/UCITimeSeriesCollectionParser.java:127-151 | fewer than two pairs means nothing is converted and the diagnostic throws |
| CollectionParser.LabelListDoesNotThrow | src/main/java/net/dev4any1/dl4j/UCITimeSeriesCollectionParser.java:141-151 | with two or more pairs, converting the label list never throws |
| CollectionParser.LinesThrow | src/main/java/net/dev4any1/dl4j/UCITimeSeriesCollectionParser.java:127-151 | converting a list of pair lines throws exactly when there are fewer than two pairs, or every visited line converts and the first has no timestep |
| CollectionParser.FeatureListThrows | src/main/java/net/dev4any1/dl4j/UCITimeSeriesCollectionParser.java:98-151 | the copied feature list, converted, throws under exactly those conditions |
| CollectionParser.OnlyFeaturesThrow | src/main/java/net/dev4any1/dl4j/UCITimeSeriesCollectionParser.java:106-111 | building the readers throws exactly when converting the feature list throws; the label lists never decide it |
| CollectionParser.ThrowsExactly | src/main/java/net/dev4any1/dl4j/UCITimeSeriesCollectionParser.java:106-151 | after a read, the call throws exactly when there are fewer than two pairs, or when every visited feature line converts and the first has no timestep |
| CollectionParser.LabelStringsConvert | src/main/java/net/dev4any1/dl4j/UCITimeSeriesCollectionParser.java:141-146 | with two or more pairs, their label strings convert to a reader holding, for each pair but the last, one timestep with that pair's label |
| CollectionParser.LabelReaderHoldsLabels | src/main/java/net/dev4any1/dl4j/UCITimeSeriesCollectionParser.java:97-146 | the label reader exists and holds, for each pair but the last, one timestep with that pair's label |
| CollectionParser.FeatureReaderHoldsLines | src/main/java/net/dev4any1/dl4j/UCITimeSeriesCollectionParser.java:97-157 | the feature reader is `null` exactly when a visited line fails; otherwise it holds each visited pair's line, converted |
| CollectionParser.ReadersAligned | src/main/java/net/dev4any1/dl4j/UCITimeSeriesCollectionParser.java:106-111 | feature and label readers have the same length, number of pairs - 1, and stay index-aligned with the shuffled pairs; the test readers equal the train readers |

## Left out

- The fallback URL and `source.openStream()` (UCITimeSeriesCollectionParser.java:76-87) are network and file I/O. The lines read are a parameter.
- A read error inside `reader.lines()` surfaces as an `UncheckedIOException`, which the `catch (IOException)` does not catch. It is I/O and is not modelled. Only the caught `IOException` from `source.openStream()` is, as `source == None`.
- An `IOException` from closing the reader at the end of the try-with-resources (:84) is caught after :89-102 have labelled, shuffled and copied the pairs. The model has no separate case for it: apart from the log message, which is not modelled, its outcome is that of `source == Some(lines)`.
- `SequenceRecordReaderDataSetIterator`, its `ALIGN_END` padding and one-hot labels, and `CollectionSequenceRecordReader` (:106-111, :152) are library behaviour. The model stops at the nested lists the readers are built over, and at whether the reader is `null`.
- The min/max feature range and the log messages (:123-124, :136-137, :149-151) are diagnostics over doubles. Only the throwing `top.get(0).get(0)` is kept.
- Labelling.Shuffle: states only that the result is a permutation, for any draws. The exact order that `Random(12345)` yields depends on the JDK's generator, which is not modelled.
- Labelling.LabelFrom: labels are unbounded naturals. The Java `int` counter would wrap after 2^31 lines, which does not occur with any input this program reads.
- `Double.parseDouble` is a parameter, not a model of Java's floating-point grammar. Facts about it are stated as assumptions (`RejectsEmpty`, `ReadsNaturals`) where a lemma needs them.
- The getters (`getTrainIterator`, `getTestIterator`, `getFeatureLabelPairs`) just return fields. Those fields are the components of `ParseOutcome`.
- LSTMSequenceModel.java (network set-up, normalisation, training, evaluation, forecasting), Test.java (the demo driver) and DatavecCollectionParser.java (an interface) hold no framing logic of their own.
