/**
 The private `parse(List<String>)` of `UCITimeSeriesCollectionParser`: raw
 strings become the `[example][timestep][channel]` lists handed to a
 `CollectionSequenceRecordReader`.

 `Double.parseDouble` is the parameter `parse`: `Some(d)` for a token it
 accepts, `None` where it throws `NumberFormatException`. Doubles are
 abstracted to reals; nothing below depends on their arithmetic.
 */
module Tensorisation {
  import opened Options
  import opened JavaText

  /** The values of one timestep; the parser always puts exactly one there. */
  type Timestep = seq<real>

  /** One example: its timesteps in order. */
  type Example = seq<Timestep>

  /** The nested list `top`: one entry per converted raw string. */
  type Top = seq<Example>

  /** `Double.parseDouble` throws on the empty string. */
  ghost predicate RejectsEmpty(parse: string -> Option<real>) {
    parse("").None?
  }

  /** `Double.parseDouble` reads the decimal rendering of every natural back
      as that natural, an exact real. For the labels the parser writes, all
      far below 2^53, a double holds that value without loss. */
  ghost predicate ReadsNaturals(parse: string -> Option<real>) {
    forall n: nat :: parse(NatToDecimal(n)) == Some(n as real)
  }

  /** One token as a one-value timestep: the body of the inner token loop. */
  function TokenTimestep(parse: string -> Option<real>, token: string): (r: Option<Timestep>)
    ensures r.Some? <==> parse(token).Some?
    ensures r.Some? ==> r.value == [parse(token).value]
  {
    match parse(token)
    case None => None
    case Some(d) => Some([d])
  }

  /**
   One raw string as an example. A string containing a space is a feature
   row: split on whitespace, one timestep per token. Anything else is a
   label row: one timestep holding its single value. `None` when any token
   fails to parse.
   */
  function RowSequence(row: string, parse: string -> Option<real>): (r: Option<Example>)
    ensures r.Some? ==> forall t :: 0 <= t < |r.value| ==> |r.value[t]| == 1
    ensures r.Some? && !ContainsSpace(row) ==> |r.value| == 1
  {
    if ContainsSpace(row) then Traverse(Split(row), token => TokenTimestep(parse, token))
    else
      match TokenTimestep(parse, row)
      case None => None
      case Some(step) => Some([step])
  }

  /** A feature row converts exactly when every split token parses, and then
      gives one timestep per token, in token order, holding its value. */
  lemma FeatureRowCases(row: string, parse: string -> Option<real>)
    requires ContainsSpace(row)
    ensures var r := RowSequence(row, parse);
      && (r.Some? <==> forall j :: 0 <= j < |Split(row)| ==> parse(Split(row)[j]).Some?)
      && (r.Some? ==> |r.value| == |Split(row)|)
      && (r.Some? ==> forall j :: 0 <= j < |Split(row)| ==> r.value[j] == [parse(Split(row)[j]).value])
  {
  }

  /** A label row converts exactly when the whole string parses, and then
      gives a single timestep holding its value. */
  lemma LabelRowCases(row: string, parse: string -> Option<real>)
    requires !ContainsSpace(row)
    ensures var r := RowSequence(row, parse);
      && (r.Some? <==> parse(row).Some?)
      && (r.Some? ==> r.value == [[parse(row).value]])
  {
  }

  /** What the private `parse(List<String>)` hands back, or how it ends. */
  datatype ReaderOutcome =
    | Reader(top: Top)    // a reader over `top`
    | Null                // a NumberFormatException was caught: `null`
    | IndexOutOfBounds    // the size diagnostic `top.get(0).get(0)` threw

  /** The strings the loop visits: it stops one short of the end, so the last
      string is never converted. */
  function ConvertedRows(raw: seq<string>): (rows: seq<string>)
    ensures |rows| == if |raw| == 0 then 0 else |raw| - 1
    ensures forall i :: 0 <= i < |rows| ==> rows[i] == raw[i]
  {
    if |raw| == 0 then [] else raw[..|raw| - 1]
  }

  /**
   The private `parse(List<String>)`. Every string but the last is converted;
   a single parse failure anywhere gives `null` and no partial reader. When
   every row converts, the diagnostic reads the first example's first
   timestep, and throws when there is no example or that example is empty.
   */
  function Tensorise(raw: seq<string>, parse: string -> Option<real>): (r: ReaderOutcome)
    ensures r.Null? <==> exists i :: 0 <= i < |raw| - 1 && RowSequence(raw[i], parse).None?
    ensures r.Reader? ==> |r.top| == |raw| - 1
    ensures r.Reader? ==> forall i :: 0 <= i < |r.top| ==> RowSequence(raw[i], parse) == Some(r.top[i])
    ensures r.IndexOutOfBounds? <==>
      && (forall i :: 0 <= i < |raw| - 1 ==> RowSequence(raw[i], parse).Some?)
      && (|raw| < 2 || RowSequence(raw[0], parse) == Some([]))
  {
    match Traverse(ConvertedRows(raw), row => RowSequence(row, parse))
    case None => Null
    case Some(top) => if |top| == 0 || |top[0]| == 0 then IndexOutOfBounds else Reader(top)
  }

  /** One timestep per value, each holding just that value. */
  function Column(values: seq<real>): (e: Example)
    ensures |e| == |values|
    ensures forall t :: 0 <= t < |e| ==> e[t] == [values[t]]
  {
    seq(|values|, t requires 0 <= t < |values| => [values[t]])
  }

  /** A lone token is a label row; it still gives the one timestep a feature
      row of that token would. */
  lemma SingleTokenRow(token: string, value: real, parse: string -> Option<real>)
    requires NoWhitespace(token)
    requires parse(token) == Some(value)
    ensures RowSequence(token, parse) == Some(Column([value]))
  {
    assert !ContainsSpace(token);
    assert Column([value]) == [[value]];
  }

  /** A feature row whose tokens all parse gives their values as a column. */
  lemma FeatureRowOfTokens(row: string, values: seq<real>, parse: string -> Option<real>)
    requires ContainsSpace(row)
    requires |values| == |Split(row)|
    requires forall j :: 0 <= j < |values| ==> parse(Split(row)[j]) == Some(values[j])
    ensures RowSequence(row, parse) == Some(Column(values))
  {
    var tokens := Split(row);
    var col := Column(values);
    assert forall j :: 0 <= j < |tokens| ==> parse(tokens[j]).Some?;
    var r := RowSequence(row, parse);
    assert r.Some?;
    var e := r.value;
    assert |e| == |col|;
    forall t | 0 <= t < |values|
      ensures e[t] == col[t]
    {
      assert e[t] == [parse(tokens[t]).value];
    }
    assert e == col;
  }

  /**
   A feature row written as numbers separated by whitespace runs of any
   length, perhaps with whitespace after the last number, becomes one
   timestep per number, in order, each holding that number's value. The row
   must contain a space somewhere, or be a lone number.
   */
  lemma FeatureRowRoundTrip(tokens: seq<string>, seps: seq<string>, trail: string, values: seq<real>,
                            parse: string -> Option<real>)
    requires |tokens| >= 1 && |seps| == |tokens| - 1 && |values| == |tokens|
    requires Words(tokens) && Runs(seps) && AllWhitespace(trail)
    requires ContainsSpace(JoinRuns(tokens, seps) + trail) || (|tokens| == 1 && trail == "")
    requires forall j :: 0 <= j < |tokens| ==> parse(tokens[j]) == Some(values[j])
    ensures RowSequence(JoinRuns(tokens, seps) + trail, parse) == Some(Column(values))
  {
    var row := JoinRuns(tokens, seps) + trail;
    if ContainsSpace(row) {
      SplitOfUnindentedRuns(tokens, seps, trail);
      FeatureRowOfTokens(row, values, parse);
    } else {
      assert row == tokens[0];
      SingleTokenRow(tokens[0], values[0], parse);
      assert values == [values[0]];
    }
  }

  /** A feature row is all or nothing: one token that does not parse loses the
      whole row. */
  lemma FeatureRowWithBadToken(tokens: seq<string>, seps: seq<string>, trail: string,
                               parse: string -> Option<real>, bad: nat)
    requires |tokens| >= 1 && |seps| == |tokens| - 1
    requires Words(tokens) && Runs(seps) && AllWhitespace(trail)
    requires ContainsSpace(JoinRuns(tokens, seps) + trail)
    requires bad < |tokens| && parse(tokens[bad]).None?
    ensures RowSequence(JoinRuns(tokens, seps) + trail, parse) == None
  {
    SplitOfUnindentedRuns(tokens, seps, trail);
  }

  /** Every label string the parser writes is a label row whose single
      timestep holds the label. */
  lemma LabelRowRoundTrip(n: nat, parse: string -> Option<real>)
    requires ReadsNaturals(parse)
    ensures RowSequence(NatToDecimal(n), parse) == Some([[n as real]])
  {
    DecimalHasNoWhitespace(n);
  }

  /** A feature row that starts with whitespace splits into an empty first
      token, which `Double.parseDouble` rejects: the row cannot be converted. */
  lemma IndentedFeatureRowIsRejected(row: string, parse: string -> Option<real>)
    requires RejectsEmpty(parse)
    requires ContainsSpace(row) && IsWhitespace(row[0]) && !AllWhitespace(row)
    ensures RowSequence(row, parse) == None
  {
    SplitOfIndented(row);
  }

  /** A row of nothing but whitespace, a space among it, is a feature row with
      no timesteps; it converts without error. */
  lemma BlankFeatureRowIsEmpty(row: string, parse: string -> Option<real>)
    requires ContainsSpace(row) && AllWhitespace(row)
    ensures RowSequence(row, parse) == Some([])
  {
    SplitOfBlank(row);
  }

  /** The last string plays no part in the outcome. */
  lemma LastRowNeverRead(raw: seq<string>, x: string, y: string, parse: string -> Option<real>)
    ensures Tensorise(raw + [x], parse) == Tensorise(raw + [y], parse)
  {
    assert ConvertedRows(raw + [x]) == raw == ConvertedRows(raw + [y]);
  }
}
