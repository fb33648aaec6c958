/**
 Labelling of the raw lines by position and the seeded shuffle of
 `UCITimeSeriesCollectionParser.parse(URL)`.
 */
module Labelling {

  /** Lines per class in the synthetic control chart data set (`featureSize`). */
  const GroupSize: nat := 100

  /** `LSTMLabels`: the class names, indexed by label. */
  const ClassNames: seq<string> :=
    ["Normal", "Cyclic", "Increasing Trend", "Decreasing Trend", "UpwardShift", "DownwardShift"]

  /** A `Pair<String, Integer>`: the raw feature line and its label. */
  datatype Pair = Pair(line: string, classId: nat)

  /** The labelling loop, with the running line counter starting at `count`:
      each line is paired with the counter divided by the group size. */
  function LabelFrom(lines: seq<string>, count: nat): (ps: seq<Pair>)
    ensures |ps| == |lines|
    ensures forall i :: 0 <= i < |ps| ==> ps[i].line == lines[i] && ps[i].classId == (count + i) / GroupSize
    decreases |lines|
  {
    if |lines| == 0 then []
    else [Pair(lines[0], count / GroupSize)] + LabelFrom(lines[1..], count + 1)
  }

  /** The pairs built from a freshly read file: line i carries label i / 100. */
  function LabelLines(lines: seq<string>): (ps: seq<Pair>)
    ensures |ps| == |lines|
    ensures forall i :: 0 <= i < |ps| ==> ps[i] == Pair(lines[i], i / GroupSize)
  {
    LabelFrom(lines, 0)
  }

  /** `Collections.swap`. */
  function Swap<T>(s: seq<T>, i: nat, j: nat): (r: seq<T>)
    requires i < |s| && j < |s|
    ensures |r| == |s|
    ensures r[i] == s[j] && r[j] == s[i]
    ensures forall k :: 0 <= k < |s| && k != i && k != j ==> r[k] == s[k]
    ensures multiset(r) == multiset(s)
  {
    s[i := s[j]][j := s[i]]
  }

  /**
   The steps of `Collections.shuffle` on a random-access list that remain
   when the bound has come down to `i`: swap position i-1 with a position
   drawn below i, then continue with i-1, down to 2. `draw(i) % i` stands
   for `rnd.nextInt(i)`; every bound is asked for exactly once, so a function
   of the bound describes any sequence of draws, including the one seeded
   with 12345.
   */
  function ShuffleDown<T>(s: seq<T>, i: nat, draw: nat -> nat): (r: seq<T>)
    requires i <= |s|
    ensures |r| == |s|
    ensures multiset(r) == multiset(s)
    ensures r[i..] == s[i..]
    decreases i
  {
    if i <= 1 then s else ShuffleDown(Swap(s, i - 1, draw(i) % i), i - 1, draw)
  }

  /** `Collections.shuffle(list, rnd)`: a permutation of the list, no element
      dropped or duplicated. */
  function Shuffle<T>(s: seq<T>, draw: nat -> nat): (r: seq<T>)
    ensures |r| == |s|
    ensures multiset(r) == multiset(s)
    ensures |s| <= 1 ==> r == s
  {
    ShuffleDown(s, |s|, draw)
  }

  /** After the shuffle, every pair is still some line of the file together
      with the label that line's position gave it. */
  lemma ShuffledPairsKeepTheirLabels(lines: seq<string>, draw: nat -> nat, k: nat)
    requires k < |lines|
    ensures exists i :: 0 <= i < |lines| && Shuffle(LabelLines(lines), draw)[k] == Pair(lines[i], i / GroupSize)
  {
    var ps := LabelLines(lines);
    var r := Shuffle(ps, draw);
    assert r[k] in multiset(r);
    assert r[k] in ps;
    var i :| 0 <= i < |ps| && ps[i] == r[k];
  }

  /** Each line of the file is somewhere in the shuffled list, with its label. */
  lemma EveryLineSurvivesShuffle(lines: seq<string>, draw: nat -> nat, i: nat)
    requires i < |lines|
    ensures Pair(lines[i], i / GroupSize) in Shuffle(LabelLines(lines), draw)
  {
    var ps := LabelLines(lines);
    assert ps[i] in multiset(ps);
  }

  /** The labels that occur in a list of pairs. */
  function LabelsUsed(ps: seq<Pair>): set<nat> {
    set p | p in ps :: p.classId
  }

  /** The labels 0 up to n - 1. */
  function FirstLabels(n: nat): (r: set<nat>)
    ensures forall k: nat :: k in r <==> k < n
  {
    if n == 0 then {} else FirstLabels(n - 1) + {n - 1}
  }

  /** With a whole number of groups, the labels used are exactly 0 up to
      (number of lines / 100) - 1. */
  lemma LabelSetIsGroups(lines: seq<string>)
    requires |lines| % GroupSize == 0
    ensures LabelsUsed(LabelLines(lines)) == FirstLabels(|lines| / GroupSize)
  {
    var ps := LabelLines(lines);
    var used := LabelsUsed(ps);
    var groups := FirstLabels(|lines| / GroupSize);
    forall k | k in groups
      ensures k in used
    {
      var i := k * GroupSize;
      assert i < |lines|;
      assert ps[i].classId == k;
    }
    forall l | l in used
      ensures l in groups
    {
      var p :| p in ps && p.classId == l;
      var i :| 0 <= i < |ps| && ps[i] == p;
    }
  }

  /** The 600-line data set uses all six classes and no label outside them. */
  lemma FullDataSetLabels(lines: seq<string>)
    requires |lines| == 6 * GroupSize
    ensures LabelsUsed(LabelLines(lines)) == FirstLabels(|ClassNames|)
  {
    LabelSetIsGroups(lines);
  }

  /** Nothing checks the line count: one line beyond 600 is given label 6,
      which names no class. */
  lemma ExtraLineHasNoClass(lines: seq<string>)
    requires |lines| > 6 * GroupSize
    ensures LabelLines(lines)[6 * GroupSize].classId == |ClassNames|
  {
  }
}
