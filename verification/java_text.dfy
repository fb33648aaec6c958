/**
 The three pieces of java.lang.String behaviour the parser relies on:
 `contains(" ")`, `split("\\s+")` and `String.valueOf(int)` for the
 non-negative labels.
 */
module JavaText {

  /** The `\s` character class of java.util.regex: space, tab, line feed,
      vertical tab, form feed and carriage return. */
  predicate IsWhitespace(c: char) {
    c == ' ' || c == '\t' || c == '\n' || c == '\r' || c as int == 0x0B || c as int == 0x0C
  }

  predicate NoWhitespace(s: string) {
    forall j :: 0 <= j < |s| ==> !IsWhitespace(s[j])
  }

  predicate AllWhitespace(s: string) {
    forall j :: 0 <= j < |s| ==> IsWhitespace(s[j])
  }

  /** `s.contains(" ")`: only the plain space counts, not a tab. */
  predicate ContainsSpace(s: string) {
    ' ' in s
  }

  /** The first whitespace position at or after `from` (|s| when there is none):
      where the matcher for `\s+` finds its next match. */
  function NextWhitespace(s: string, from: nat): (k: nat)
    requires from <= |s|
    ensures from <= k <= |s|
    ensures k < |s| ==> IsWhitespace(s[k])
    ensures forall j :: from <= j < k ==> !IsWhitespace(s[j])
    decreases |s| - from
  {
    if from == |s| || IsWhitespace(s[from]) then from else NextWhitespace(s, from + 1)
  }

  /** The first non-whitespace position at or after `from` (|s| when there is
      none): where a greedy `\s+` match that starts at `from` ends. */
  function NextNonWhitespace(s: string, from: nat): (k: nat)
    requires from <= |s|
    ensures from <= k <= |s|
    ensures k < |s| ==> !IsWhitespace(s[k])
    ensures forall j :: from <= j < k ==> IsWhitespace(s[j])
    decreases |s| - from
  {
    if from == |s| || !IsWhitespace(s[from]) then from else NextNonWhitespace(s, from + 1)
  }

  /** The substrings between successive maximal whitespace runs, before
      trailing empty strings are discarded. A run at the very start yields an
      empty first piece, a run at the very end an empty last piece. */
  function Pieces(s: string): (ps: seq<string>)
    ensures |ps| >= 1
    ensures forall i :: 0 <= i < |ps| ==> NoWhitespace(ps[i])
    ensures forall i :: 0 < i < |ps| - 1 ==> ps[i] != ""
    ensures ps[0] == "" <==> (|s| == 0 || IsWhitespace(s[0]))
    decreases |s|
  {
    var k := NextWhitespace(s, 0);
    if k == |s| then [s]
    else [s[..k]] + Pieces(s[NextNonWhitespace(s, k)..])
  }

  /** Removes the empty strings at the end of a list, as `split` does when its
      limit is zero. */
  function DropTrailingEmpty(ps: seq<string>): (r: seq<string>)
    ensures r <= ps
    ensures |r| > 0 ==> r[|r| - 1] != ""
    ensures forall i :: |r| <= i < |ps| ==> ps[i] == ""
    decreases |ps|
  {
    if |ps| == 0 || ps[|ps| - 1] != "" then ps else DropTrailingEmpty(ps[..|ps| - 1])
  }

  /** `s.split("\\s+")`. With no match the whole string is the only element;
      otherwise the pieces between matches, a leading empty piece kept and
      the trailing empty pieces dropped. */
  function Split(s: string): (r: seq<string>)
    ensures forall i :: 0 <= i < |r| ==> NoWhitespace(r[i])
    ensures forall i :: 0 < i < |r| ==> r[i] != ""
    ensures |r| > 0 && r[0] == "" ==> |s| == 0 || IsWhitespace(s[0])
    ensures |s| == 0 ==> r == [""]
  {
    if NextWhitespace(s, 0) == |s| then [s] else DropTrailingEmpty(Pieces(s))
  }

  /** Concatenation of a list of strings. */
  function Flatten(ps: seq<string>): string
    decreases |ps|
  {
    if |ps| == 0 then "" else ps[0] + Flatten(ps[1..])
  }

  /** The characters of `s` that are not whitespace, in order. */
  function RemoveWhitespace(s: string): string
    decreases |s|
  {
    if |s| == 0 then ""
    else (if IsWhitespace(s[0]) then "" else [s[0]]) + RemoveWhitespace(s[1..])
  }

  /** Non-empty strings free of whitespace: what `split` can give after its
      first element. */
  predicate Words(tokens: seq<string>) {
    forall i :: 0 <= i < |tokens| ==> tokens[i] != "" && NoWhitespace(tokens[i])
  }

  /** Non-empty whitespace runs: what one match of `\s+` consumes. */
  predicate Runs(seps: seq<string>) {
    forall i :: 0 <= i < |seps| ==> seps[i] != "" && AllWhitespace(seps[i])
  }

  /** The tokens with the run `seps[i]` between `tokens[i]` and `tokens[i + 1]`. */
  function JoinRuns(tokens: seq<string>, seps: seq<string>): string
    requires |tokens| >= 1 && |seps| == |tokens| - 1
    decreases |tokens|
  {
    if |tokens| == 1 then tokens[0]
    else tokens[0] + seps[0] + JoinRuns(tokens[1..], seps[1..])
  }

  lemma {:induction false} RemoveWhitespaceAppend(a: string, b: string)
    ensures RemoveWhitespace(a + b) == RemoveWhitespace(a) + RemoveWhitespace(b)
    decreases |a|
  {
    if |a| > 0 {
      assert (a + b)[1..] == a[1..] + b;
      RemoveWhitespaceAppend(a[1..], b);
    } else {
      assert a + b == b;
    }
  }

  lemma {:induction false} RemoveWhitespaceOfWord(a: string)
    requires NoWhitespace(a)
    ensures RemoveWhitespace(a) == a
    decreases |a|
  {
    if |a| > 0 {
      RemoveWhitespaceOfWord(a[1..]);
      assert a == [a[0]] + a[1..];
    }
  }

  lemma {:induction false} RemoveWhitespaceOfBlank(a: string)
    requires AllWhitespace(a)
    ensures RemoveWhitespace(a) == ""
    decreases |a|
  {
    if |a| > 0 {
      RemoveWhitespaceOfBlank(a[1..]);
    }
  }

  lemma {:induction false} FlattenAppend(a: seq<string>, b: seq<string>)
    ensures Flatten(a + b) == Flatten(a) + Flatten(b)
    decreases |a|
  {
    if |a| > 0 {
      assert (a + b)[1..] == a[1..] + b;
      FlattenAppend(a[1..], b);
    } else {
      assert a + b == b;
    }
  }

  /** A word, then a whitespace run, in front of `rest` add exactly the word
      to its non-whitespace text. */
  lemma RemoveWhitespaceAfterRun(word: string, run: string, rest: string)
    requires NoWhitespace(word) && AllWhitespace(run)
    ensures RemoveWhitespace(word + run + rest) == word + RemoveWhitespace(rest)
  {
    RemoveWhitespaceAppend(word + run, rest);
    RemoveWhitespaceAppend(word, run);
    RemoveWhitespaceOfWord(word);
    RemoveWhitespaceOfBlank(run);
    assert word + "" == word;
  }

  /** The pieces, concatenated, are exactly the non-whitespace text. */
  lemma {:induction false} PiecesKeepText(s: string)
    ensures Flatten(Pieces(s)) == RemoveWhitespace(s)
    decreases |s|
  {
    var k := NextWhitespace(s, 0);
    if k == |s| {
      RemoveWhitespaceOfWord(s);
      assert Flatten([s]) == s + Flatten([]);
    } else {
      var e := NextNonWhitespace(s, k);
      var rest := s[e..];
      PiecesKeepText(rest);
      assert s == s[..k] + s[k..e] + rest;
      RemoveWhitespaceAfterRun(s[..k], s[k..e], rest);
      var ps := [s[..k]] + Pieces(rest);
      assert ps[1..] == Pieces(rest);
    }
  }

  lemma {:induction false} DropTrailingEmptyKeepsText(ps: seq<string>)
    ensures Flatten(DropTrailingEmpty(ps)) == Flatten(ps)
    decreases |ps|
  {
    if |ps| > 0 && ps[|ps| - 1] == "" {
      var init := ps[..|ps| - 1];
      DropTrailingEmptyKeepsText(init);
      assert ps == init + [""];
      FlattenAppend(init, [""]);
      assert Flatten([""]) == "" + Flatten([]);
    }
  }

  /** Splitting loses nothing but whitespace: the tokens, concatenated, are the
      input with its whitespace removed. */
  lemma SplitKeepsText(s: string)
    ensures Flatten(Split(s)) == RemoveWhitespace(s)
  {
    if NextWhitespace(s, 0) == |s| {
      RemoveWhitespaceOfWord(s);
      assert Flatten([s]) == s + Flatten([]);
    } else {
      PiecesKeepText(s);
      DropTrailingEmptyKeepsText(Pieces(s));
    }
  }

  /** A string made only of whitespace (and at least one character of it)
      splits into no tokens at all. */
  lemma SplitOfBlank(s: string)
    requires |s| > 0 && AllWhitespace(s)
    ensures Split(s) == []
  {
    assert NextWhitespace(s, 0) == 0;
    NextNonWhitespaceIs(s, 0, |s|);
    assert s[|s|..] == "";
    assert Pieces(s) == [""] + Pieces("");
    assert DropTrailingEmpty(["", ""]) == DropTrailingEmpty([""]);
    assert [""][..0] == [];
  }

  /** Leading whitespace before real content yields an empty first token
      followed by at least one more. */
  lemma SplitOfIndented(s: string)
    requires |s| > 0 && IsWhitespace(s[0]) && !AllWhitespace(s)
    ensures |Split(s)| >= 2 && Split(s)[0] == ""
  {
    assert NextWhitespace(s, 0) == 0;
    var e := NextNonWhitespace(s, 0);
    assert e < |s|;
    var rest := s[e..];
    var ps := Pieces(s);
    assert ps == [""] + Pieces(rest);
    assert rest[0] == s[e];
    assert ps[1] == Pieces(rest)[0] != "";
    var r := DropTrailingEmpty(ps);
    assert |r| >= 2;
    assert r[0] == ps[0];
  }

  lemma NextWhitespaceIs(s: string, from: nat, k: nat)
    requires from <= k <= |s|
    requires forall j :: from <= j < k ==> !IsWhitespace(s[j])
    requires k < |s| ==> IsWhitespace(s[k])
    ensures NextWhitespace(s, from) == k
  {
  }

  lemma NextNonWhitespaceIs(s: string, from: nat, k: nat)
    requires from <= k <= |s|
    requires forall j :: from <= j < k ==> IsWhitespace(s[j])
    requires k < |s| ==> !IsWhitespace(s[k])
    ensures NextNonWhitespace(s, from) == k
  {
  }

  lemma JoinRunsStartsWith(tokens: seq<string>, seps: seq<string>)
    requires |tokens| >= 1 && |seps| == |tokens| - 1
    ensures tokens[0] <= JoinRuns(tokens, seps)
  {
  }

  /** Words joined by runs, then an optional trailing run, break into the
      words, followed by one empty piece when the trailing run is there. */
  lemma {:induction false} PiecesOfRuns(tokens: seq<string>, seps: seq<string>, trail: string)
    requires |tokens| >= 1 && |seps| == |tokens| - 1
    requires Words(tokens) && Runs(seps) && AllWhitespace(trail)
    ensures Pieces(JoinRuns(tokens, seps) + trail) == tokens + (if trail == "" then [] else [""])
    decreases |tokens|
  {
    var t := tokens[0];
    var s := JoinRuns(tokens, seps) + trail;
    if |tokens| == 1 {
      assert s == t + trail;
      NextWhitespaceIs(s, 0, |t|);
      if trail == "" {
        assert s == t;
        assert tokens == [t];
      } else {
        NextNonWhitespaceIs(s, |t|, |s|);
        assert s[..|t|] == t;
        assert s[|s|..] == "";
        assert Pieces("") == [""];
        assert tokens == [t];
      }
    } else {
      var sep := seps[0];
      var rest := JoinRuns(tokens[1..], seps[1..]) + trail;
      assert s == t + sep + rest;
      JoinRunsStartsWith(tokens[1..], seps[1..]);
      assert rest[0] == tokens[1][0];
      NextWhitespaceIs(s, 0, |t|);
      NextNonWhitespaceIs(s, |t|, |t| + |sep|);
      assert s[..|t|] == t;
      assert s[|t| + |sep|..] == rest;
      PiecesOfRuns(tokens[1..], seps[1..], trail);
      assert tokens == [t] + tokens[1..];
    }
  }

  /** Dropping the empty strings after a non-empty last element leaves it. */
  lemma DropTrailingEmptyOfPadded(ps: seq<string>, pad: seq<string>)
    requires |ps| > 0 && ps[|ps| - 1] != ""
    requires pad == [] || pad == [""]
    ensures DropTrailingEmpty(ps + pad) == ps
  {
    if pad == [""] {
      assert (ps + pad)[..|ps|] == ps;
    } else {
      assert ps + pad == ps;
    }
  }

  /** A leading run before a word gives an empty first piece. */
  lemma PiecesOfIndented(lead: string, body: string)
    requires lead != "" && AllWhitespace(lead)
    requires body != "" && !IsWhitespace(body[0])
    ensures Pieces(lead + body) == [""] + Pieces(body)
  {
    var s := lead + body;
    NextWhitespaceIs(s, 0, 0);
    NextNonWhitespaceIs(s, 0, |lead|);
    assert s[|lead|..] == body;
    assert s[..0] == "";
  }

  /** Once `\s+` matches somewhere, `split` keeps the pieces up to the last
      non-empty one. */
  lemma SplitWithMatch(s: string, k: nat)
    requires k < |s| && IsWhitespace(s[k])
    ensures Split(s) == DropTrailingEmpty(Pieces(s))
  {
  }

  /**
   Where `split("\\s+")` breaks, for every string with a word in it: an
   optional leading run, words separated by arbitrary non-empty runs, and an
   optional trailing run split into the words alone, with one empty first
   token exactly when the leading run is there.
   */
  lemma SplitOfRuns(lead: string, tokens: seq<string>, seps: seq<string>, trail: string)
    requires |tokens| >= 1 && |seps| == |tokens| - 1
    requires Words(tokens) && Runs(seps) && AllWhitespace(lead) && AllWhitespace(trail)
    ensures Split(lead + JoinRuns(tokens, seps) + trail) == (if lead == "" then [] else [""]) + tokens
  {
    var body := JoinRuns(tokens, seps) + trail;
    assert lead + JoinRuns(tokens, seps) + trail == lead + body;
    if lead == "" {
      assert lead + body == body;
      SplitOfUnindentedRuns(tokens, seps, trail);
      assert [] + tokens == tokens;
    } else {
      SplitOfIndentedRuns(lead, tokens, seps, trail);
    }
  }

  lemma SplitOfIndentedRuns(lead: string, tokens: seq<string>, seps: seq<string>, trail: string)
    requires |tokens| >= 1 && |seps| == |tokens| - 1
    requires Words(tokens) && Runs(seps) && lead != "" && AllWhitespace(lead) && AllWhitespace(trail)
    ensures Split(lead + (JoinRuns(tokens, seps) + trail)) == [""] + tokens
  {
    var body := JoinRuns(tokens, seps) + trail;
    var s := lead + body;
    var pad: seq<string> := if trail == "" then [] else [""];
    PiecesOfRuns(tokens, seps, trail);
    JoinRunsStartsWith(tokens, seps);
    assert body[0] == tokens[0][0];
    PiecesOfIndented(lead, body);
    SplitWithMatch(s, 0);
    assert Pieces(s) == ([""] + tokens) + pad;
    DropTrailingEmptyOfPadded([""] + tokens, pad);
  }

  lemma SplitOfUnindentedRuns(tokens: seq<string>, seps: seq<string>, trail: string)
    requires |tokens| >= 1 && |seps| == |tokens| - 1
    requires Words(tokens) && Runs(seps) && AllWhitespace(trail)
    ensures Split(JoinRuns(tokens, seps) + trail) == tokens
  {
    var s := JoinRuns(tokens, seps) + trail;
    if |tokens| == 1 && trail == "" {
      assert s == tokens[0];
      NextWhitespaceIs(s, 0, |s|);
    } else {
      var pad: seq<string> := if trail == "" then [] else [""];
      PiecesOfRuns(tokens, seps, trail);
      RunAfterFirstWord(tokens, seps, trail);
      SplitWithMatch(s, |tokens[0]|);
      DropTrailingEmptyOfPadded(tokens, pad);
    }
  }

  /** With a second word or a trailing run, whitespace follows the first word. */
  lemma RunAfterFirstWord(tokens: seq<string>, seps: seq<string>, trail: string)
    requires |tokens| >= 1 && |seps| == |tokens| - 1
    requires Runs(seps) && AllWhitespace(trail)
    requires |tokens| > 1 || trail != ""
    ensures |tokens[0]| < |JoinRuns(tokens, seps) + trail|
    ensures IsWhitespace((JoinRuns(tokens, seps) + trail)[|tokens[0]|])
  {
    var s := JoinRuns(tokens, seps) + trail;
    if |tokens| > 1 {
      assert s == tokens[0] + (seps[0] + JoinRuns(tokens[1..], seps[1..]) + trail);
      assert s[|tokens[0]|] == seps[0][0];
    } else {
      assert s == tokens[0] + trail;
    }
  }

  predicate IsDigit(c: char) {
    '0' <= c <= '9'
  }

  function DigitChar(d: nat): (c: char)
    requires d < 10
    ensures IsDigit(c)
  {
    "0123456789"[d]
  }

  function DigitValue(c: char): (d: nat)
    requires IsDigit(c)
    ensures d < 10
  {
    (c as int - '0' as int)
  }

  /** `String.valueOf(n)` for a non-negative int: its decimal digits, most
      significant first, with no leading zero. */
  function NatToDecimal(n: nat): (s: string)
    ensures |s| >= 1
    ensures forall i :: 0 <= i < |s| ==> IsDigit(s[i])
    ensures |s| > 1 ==> s[0] != '0'
    ensures n == 0 <==> s == "0"
  {
    if n < 10 then [DigitChar(n)] else NatToDecimal(n / 10) + [DigitChar(n % 10)]
  }

  predicate IsDecimal(s: string) {
    |s| >= 1 && forall i :: 0 <= i < |s| ==> IsDigit(s[i])
  }

  /** The number a string of decimal digits denotes. */
  function DecimalValue(s: string): nat
    requires IsDecimal(s)
    decreases |s|
  {
    if |s| == 1 then DigitValue(s[0])
    else DecimalValue(s[..|s| - 1]) * 10 + DigitValue(s[|s| - 1])
  }

  /** Reading back the decimal rendering of a label gives the label. */
  lemma {:induction false} DecimalRoundTrip(n: nat)
    ensures DecimalValue(NatToDecimal(n)) == n
  {
    if n >= 10 {
      var s := NatToDecimal(n);
      assert s[..|s| - 1] == NatToDecimal(n / 10);
      DecimalRoundTrip(n / 10);
    }
  }

  /** Distinct labels are rendered as distinct strings. */
  lemma DecimalInjective(m: nat, n: nat)
    requires NatToDecimal(m) == NatToDecimal(n)
    ensures m == n
  {
    DecimalRoundTrip(m);
    DecimalRoundTrip(n);
  }

  /** A rendered label contains no whitespace at all, and in particular no space. */
  lemma DecimalHasNoWhitespace(n: nat)
    ensures NoWhitespace(NatToDecimal(n))
    ensures !ContainsSpace(NatToDecimal(n))
  {
    var s := NatToDecimal(n);
    assert forall j :: 0 <= j < |s| ==> IsDigit(s[j]);
  }
}
