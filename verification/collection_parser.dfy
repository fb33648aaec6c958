/**
 `UCITimeSeriesCollectionParser.parse(URL)`: label the lines, shuffle the
 pairs, copy them into the train and test string lists, and convert each of
 the four lists into the nested lists the sequence readers are built from.

 The stream is the parameter `source`: `Some(lines)` for the lines read, and
 `None` when `source.openStream()` raised an `IOException`, which the method
 logs and swallows before any line is labelled. An `IOException` from closing
 the reader comes after the lists are filled, so its outcome is that of
 `Some(lines)`. `draw` stands for the `Random(12345)` the shuffle uses.
 */
module CollectionParser {
  import opened Options
  import opened JavaText
  import opened Labelling
  import opened Tensorisation

  /** The four string lists filled from the shuffled pairs. */
  datatype SplitLists = SplitLists(
    trainFeatures: seq<string>,
    trainLabels: seq<string>,
    testFeatures: seq<string>,
    testLabels: seq<string>)

  /** The four readers, or the exception that escapes before the iterators
      are built. */
  datatype Readers =
    | Thrown
    | Built(trainFeatures: ReaderOutcome, trainLabels: ReaderOutcome,
            testFeatures: ReaderOutcome, testLabels: ReaderOutcome)

  /** The parser's state after the call (`featureLabelPairs`), the lists it
      filled, and the readers it built. */
  datatype ParseOutcome = ParseOutcome(pairs: seq<Pair>, lists: SplitLists, readers: Readers)

  /** The copying loop: for each pair in order, its line goes to both feature
      lists and the decimal of its label to both label lists. */
  function CopyToLists(ps: seq<Pair>): (l: SplitLists)
    ensures |l.trainFeatures| == |l.trainLabels| == |ps|
    ensures l.testFeatures == l.trainFeatures && l.testLabels == l.trainLabels
    ensures forall i :: 0 <= i < |ps| ==> l.trainFeatures[i] == ps[i].line
    ensures forall i :: 0 <= i < |ps| ==> l.trainLabels[i] == NatToDecimal(ps[i].classId)
    decreases |ps|
  {
    if |ps| == 0 then SplitLists([], [], [], [])
    else
      var l := CopyToLists(ps[..|ps| - 1]);
      var p := ps[|ps| - 1];
      var digits := NatToDecimal(p.classId);
      SplitLists(l.trainFeatures + [p.line], l.trainLabels + [digits],
                 l.testFeatures + [p.line], l.testLabels + [digits])
  }

  /**
   The four conversions in the order the two iterator constructors evaluate
   them. An `IndexOutOfBoundsException` from any of them is not caught and
   ends the call; a `null` reader is passed on as it is.
   */
  function BuildReaders(lists: SplitLists, parse: string -> Option<real>): (r: Readers)
    ensures r.Thrown? <==>
      || Tensorise(lists.trainFeatures, parse).IndexOutOfBounds?
      || Tensorise(lists.trainLabels, parse).IndexOutOfBounds?
      || Tensorise(lists.testFeatures, parse).IndexOutOfBounds?
      || Tensorise(lists.testLabels, parse).IndexOutOfBounds?
    ensures r.Built? ==>
      && r.trainFeatures == Tensorise(lists.trainFeatures, parse)
      && r.trainLabels == Tensorise(lists.trainLabels, parse)
      && r.testFeatures == Tensorise(lists.testFeatures, parse)
      && r.testLabels == Tensorise(lists.testLabels, parse)
  {
    var trainFeatures := Tensorise(lists.trainFeatures, parse);
    if trainFeatures.IndexOutOfBounds? then Thrown
    else
      var trainLabels := Tensorise(lists.trainLabels, parse);
      if trainLabels.IndexOutOfBounds? then Thrown
      else
        var testFeatures := Tensorise(lists.testFeatures, parse);
        if testFeatures.IndexOutOfBounds? then Thrown
        else
          var testLabels := Tensorise(lists.testLabels, parse);
          if testLabels.IndexOutOfBounds? then Thrown
          else Built(trainFeatures, trainLabels, testFeatures, testLabels)
  }

  /**
   `parse(URL)` on a parser whose `featureLabelPairs` already holds `prior`.
   New lines are appended with labels counted from zero, and the whole list,
   old pairs included, is shuffled and copied. After an `IOException` from
   opening the stream the pairs are left as they were and the four lists
   stay empty.
   */
  function ParseSource(prior: seq<Pair>, source: Option<seq<string>>, draw: nat -> nat,
                       parse: string -> Option<real>): (o: ParseOutcome)
    ensures source.None? ==> o.pairs == prior && o.lists == SplitLists([], [], [], [])
    ensures source.Some? ==> |o.pairs| == |prior| + |source.value|
    ensures source.Some? ==> multiset(o.pairs) == multiset(prior + LabelLines(source.value))
    ensures o.lists == if source.Some? then CopyToLists(o.pairs) else SplitLists([], [], [], [])
    ensures o.readers == BuildReaders(o.lists, parse)
  {
    match source
    case None =>
      var lists := SplitLists([], [], [], []);
      ParseOutcome(prior, lists, BuildReaders(lists, parse))
    case Some(lines) =>
      var pairs := Shuffle(prior + LabelLines(lines), draw);
      var lists := CopyToLists(pairs);
      ParseOutcome(pairs, lists, BuildReaders(lists, parse))
  }

  /** On a fresh parser, position k of the shuffled pairs and of the train
      lists holds some line i of the file together with label i / 100, as the
      line and as its decimal. */
  lemma FreshParseKeepsLabels(lines: seq<string>, draw: nat -> nat, parse: string -> Option<real>, k: nat)
    requires k < |lines|
    ensures var o := ParseSource([], Some(lines), draw, parse);
      exists i :: 0 <= i < |lines|
        && o.pairs[k] == Pair(lines[i], i / GroupSize)
        && o.lists.trainFeatures[k] == lines[i]
        && o.lists.trainLabels[k] == NatToDecimal(i / GroupSize)
  {
    assert [] + LabelLines(lines) == LabelLines(lines);
    ShuffledPairsKeepTheirLabels(lines, draw, k);
  }

  /** A failed read leaves every list empty, and the first conversion's
      diagnostic throws out of `parse(URL)`. */
  lemma FailedReadThrows(prior: seq<Pair>, draw: nat -> nat, parse: string -> Option<real>)
    ensures ParseSource(prior, None, draw, parse).readers == Thrown
  {
  }

  /** With fewer than two pairs nothing is converted, and the diagnostic throws. */
  lemma TooFewPairsThrow(prior: seq<Pair>, lines: seq<string>, draw: nat -> nat, parse: string -> Option<real>)
    requires |prior| + |lines| < 2
    ensures ParseSource(prior, Some(lines), draw, parse).readers == Thrown
  {
  }

  /** The label list never throws when there are two or more pairs: its
      first string is a label row with exactly one timestep. */
  lemma LabelListDoesNotThrow(ps: seq<Pair>, parse: string -> Option<real>)
    requires |ps| >= 2
    ensures !Tensorise(CopyToLists(ps).trainLabels, parse).IndexOutOfBounds?
  {
    var labels := CopyToLists(ps).trainLabels;
    DecimalHasNoWhitespace(ps[0].classId);
    assert labels[0] == NatToDecimal(ps[0].classId);
  }

  /** Converting the lines of `ps` throws exactly when there are fewer than
      two pairs, or when every visited line converts and the first one gives
      no timestep. */
  lemma LinesThrow(features: seq<string>, ps: seq<Pair>, parse: string -> Option<real>)
    requires |features| == |ps|
    requires forall i :: 0 <= i < |ps| ==> features[i] == ps[i].line
    ensures Tensorise(features, parse).IndexOutOfBounds? <==>
      || |ps| < 2
      || ((forall i :: 0 <= i < |ps| - 1 ==> RowSequence(ps[i].line, parse).Some?)
          && RowSequence(ps[0].line, parse) == Some([]))
  {
  }

  /** The feature list of the copied pairs, converted, throws exactly as
      `LinesThrow` says. */
  lemma FeatureListThrows(ps: seq<Pair>, parse: string -> Option<real>)
    ensures Tensorise(CopyToLists(ps).trainFeatures, parse).IndexOutOfBounds? <==>
      || |ps| < 2
      || ((forall i :: 0 <= i < |ps| - 1 ==> RowSequence(ps[i].line, parse).Some?)
          && RowSequence(ps[0].line, parse) == Some([]))
  {
    LinesThrow(CopyToLists(ps).trainFeatures, ps, parse);
  }

  /** Of the four conversions, only the feature ones can throw. */
  lemma OnlyFeaturesThrow(ps: seq<Pair>, parse: string -> Option<real>)
    ensures var lists := CopyToLists(ps);
      BuildReaders(lists, parse).Thrown? <==> Tensorise(lists.trainFeatures, parse).IndexOutOfBounds?
  {
    if |ps| >= 2 {
      LabelListDoesNotThrow(ps, parse);
    }
  }

  /**
   After a successful read, the call throws exactly when there are fewer
   than two pairs, or when every converted feature line parses and the first
   one is a blank line with a space in it, which has no timestep to report.
   */
  lemma ThrowsExactly(prior: seq<Pair>, lines: seq<string>, draw: nat -> nat, parse: string -> Option<real>)
    ensures var o := ParseSource(prior, Some(lines), draw, parse);
      o.readers.Thrown? <==>
        || |o.pairs| < 2
        || ((forall i :: 0 <= i < |o.pairs| - 1 ==> RowSequence(o.pairs[i].line, parse).Some?)
            && RowSequence(o.pairs[0].line, parse) == Some([]))
  {
    var o := ParseSource(prior, Some(lines), draw, parse);
    OnlyFeaturesThrow(o.pairs, parse);
    FeatureListThrows(o.pairs, parse);
  }

  /** Converting the label strings of `ps` gives, for every pair but the
      last, one timestep holding that pair's label. */
  lemma LabelStringsConvert(labels: seq<string>, ps: seq<Pair>, parse: string -> Option<real>)
    requires ReadsNaturals(parse)
    requires |ps| >= 2 && |labels| == |ps|
    requires forall i :: 0 <= i < |ps| ==> labels[i] == NatToDecimal(ps[i].classId)
    ensures var r := Tensorise(labels, parse);
      && r.Reader?
      && |r.top| == |ps| - 1
      && forall i :: 0 <= i < |ps| - 1 ==> r.top[i] == [[ps[i].classId as real]]
  {
    forall i | 0 <= i < |labels|
      ensures RowSequence(labels[i], parse) == Some([[ps[i].classId as real]])
    {
      LabelRowRoundTrip(ps[i].classId, parse);
    }
  }

  /** Converting the label list gives, for every pair but the last, one
      timestep holding that pair's label. */
  lemma LabelReaderHoldsLabels(ps: seq<Pair>, parse: string -> Option<real>)
    requires ReadsNaturals(parse)
    requires |ps| >= 2
    ensures var r := Tensorise(CopyToLists(ps).trainLabels, parse);
      && r.Reader?
      && |r.top| == |ps| - 1
      && forall i :: 0 <= i < |ps| - 1 ==> r.top[i] == [[ps[i].classId as real]]
  {
    LabelStringsConvert(CopyToLists(ps).trainLabels, ps, parse);
  }

  /** Converting the feature list gives, for every pair but the last, the
      example of that pair's line, and is `null` exactly when one of those
      lines does not parse. */
  lemma FeatureReaderHoldsLines(ps: seq<Pair>, parse: string -> Option<real>)
    ensures var r := Tensorise(CopyToLists(ps).trainFeatures, parse);
      && (r.Null? <==> exists i :: 0 <= i < |ps| - 1 && RowSequence(ps[i].line, parse).None?)
      && (r.Reader? ==> |r.top| == |ps| - 1)
      && (r.Reader? ==> forall i :: 0 <= i < |ps| - 1 ==> RowSequence(ps[i].line, parse) == Some(r.top[i]))
  {
    var features := CopyToLists(ps).trainFeatures;
    assert forall i :: 0 <= i < |features| ==> features[i] == ps[i].line;
  }

  /**
   The feature and label readers line up: each holds one example per pair
   but the last, the i-th feature example is pair i's line and the i-th
   label example is pair i's label. The test readers are the train readers,
   a label reader is never `null`, and a feature reader is `null` exactly
   when one of the converted lines does not parse.
   */
  lemma ReadersAligned(prior: seq<Pair>, lines: seq<string>, draw: nat -> nat, parse: string -> Option<real>)
    requires ReadsNaturals(parse)
    ensures var o := ParseSource(prior, Some(lines), draw, parse);
      o.readers.Built? ==>
        && o.readers.testFeatures == o.readers.trainFeatures
        && o.readers.testLabels == o.readers.trainLabels
        && o.readers.trainLabels.Reader?
        && |o.readers.trainLabels.top| == |o.pairs| - 1
        && (forall i :: 0 <= i < |o.pairs| - 1 ==>
              o.readers.trainLabels.top[i] == [[o.pairs[i].classId as real]])
        && (o.readers.trainFeatures.Null? <==>
              exists i :: 0 <= i < |o.pairs| - 1 && RowSequence(o.pairs[i].line, parse).None?)
        && (o.readers.trainFeatures.Reader? ==> |o.readers.trainFeatures.top| == |o.pairs| - 1)
        && (o.readers.trainFeatures.Reader? ==>
              forall i :: 0 <= i < |o.pairs| - 1 ==>
                RowSequence(o.pairs[i].line, parse) == Some(o.readers.trainFeatures.top[i]))
  {
    var o := ParseSource(prior, Some(lines), draw, parse);
    if o.readers.Built? {
      if |o.pairs| < 2 {
        TooFewPairsThrow(prior, lines, draw, parse);
      } else {
        LabelReaderHoldsLabels(o.pairs, parse);
        FeatureReaderHoldsLines(o.pairs, parse);
      }
    }
  }
}
