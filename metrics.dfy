/** Metric extractors: each turns a report into a named measurement whose
    value is a decimal string. The four structural ones are pure string
    measurements; the two semantic ones ask judges, which are uninterpreted
    functions here. */
module Metrics {
  import opened Wrappers
  import opened Text
  import opened Documents
  import opened Sequences

  /** A named measurement; `value` is a stringified number. */
  datatype Metric = Metric(name: string, value: string)

  /** What the right-hand side of `metric == other` can be: another Metric,
      or some other object, whose `name` and `value` attributes may be
      missing. */
  datatype Operand =
    | MetricOperand(metric: Metric)
    | OtherObject(name: Option<string>, value: Option<string>)

  /** The result of evaluating `==`: a boolean, or the AttributeError raised
      while evaluating it. */
  datatype Comparison = Compared(equal: bool) | AttributeError

  /** `Metric.__eq__` as written. The tuple handed to `all` is built before
      `all` looks at it, so `other.name` and `other.value` are read even when
      `other` is not a Metric. Two Metrics are equal exactly when their names
      and their values are. */
  function EqualsAsWritten(self: Metric, other: Operand): (c: Comparison)
    ensures other.MetricOperand? ==> c.Compared? && (c.equal <==> self == other.metric)
    ensures c == Compared(true) ==> other == MetricOperand(self)
    ensures other.OtherObject? ==> (c == AttributeError <==> other.name.None? || other.value.None?)
  {
    match other
    case MetricOperand(m) => Compared(self.name == m.name && self.value == m.value)
    case OtherObject(name, value) => if name.None? || value.None? then AttributeError else Compared(false)
  }

  /** `Metric.__eq__` as its `isinstance` test intends it: false for
      anything that is not a Metric, never an error. */
  function Equals(self: Metric, other: Operand): (equal: bool)
    ensures equal <==> other == MetricOperand(self)
  {
    other.MetricOperand? && self.name == other.metric.name && self.value == other.metric.value
  }

  /** The corrected equality agrees with the written one wherever the
      written one does not raise. */
  lemma EqualsAgreesWhenNoError(self: Metric, other: Operand)
    requires EqualsAsWritten(self, other).Compared?
    ensures Equals(self, other) == EqualsAsWritten(self, other).equal
  {
  }

  /** A Metric compared with an object that has no `name` attribute raises
      instead of answering false. */
  lemma EqualsAsWrittenRaises()
    ensures EqualsAsWritten(Metric("Has-Title-Metric", "1"), OtherObject(None, None)) == AttributeError
    ensures !Equals(Metric("Has-Title-Metric", "1"), OtherObject(None, None))
  {
  }

  /** `Metric.__hash__`: the hash of the value alone; `strHash` is Python's
      string hash. */
  function Hash(m: Metric, strHash: string -> int): (h: int)
    ensures forall other: Metric :: EqualsAsWritten(m, MetricOperand(other)) == Compared(true) ==>
              h == strHash(other.value)
  {
    strHash(m.value)
  }

  /** Equal metrics hash alike, and the name plays no part in the hash. */
  lemma HashConsistentWithEquals(a: Metric, b: Metric, strHash: string -> int)
    ensures EqualsAsWritten(a, MetricOperand(b)) == Compared(true) ==> Hash(a, strHash) == Hash(b, strHash)
    ensures a.value == b.value ==> Hash(a, strHash) == Hash(b, strHash)
  {
  }

  // ---------------------------------------------------------------------
  // Structural extractors
  // ---------------------------------------------------------------------

  /** `str(int(b))` for a boolean. */
  function FlagString(b: bool): (s: string)
    ensures s == (if b then "1" else "0")
  {
    DecimalString(if b then 1 else 0)
  }

  /** Has-Title-Metric: "1" when the title is non-empty, with no trimming. */
  function HasTitleMetric(report: Report): (m: Metric)
    ensures m.name == "Has-Title-Metric"
    ensures m.value == "1" <==> report.title != []
    ensures m.value == "0" <==> report.title == []
  {
    Metric("Has-Title-Metric", FlagString(report.title != []))
  }

  /** Number-Of-Chars-In-Title-Metric: the length of the stripped title, in
      decimal; it never exceeds the length of the raw title. */
  function TitleLengthMetric(report: Report): (m: Metric)
    ensures m.name == "Number-Of-Chars-In-Title-Metric"
    ensures m.value == DecimalString(|Strip(report.title)|)
    ensures m.value != [] && IsDigits(m.value)
    ensures ParseDecimal(m.value) == |Strip(report.title)| <= |report.title|
  {
    var n := |Strip(report.title)|;
    DecimalRoundTrip(n);
    Metric("Number-Of-Chars-In-Title-Metric", DecimalString(n))
  }

  /** Number-Of-Paragraphs-Metric: the number of pieces of the stripped
      content split on "\n\n", which is one more than the number of
      delimiters, so at least 1 even for empty content. */
  function NumberOfParagraphMetric(report: Report): (m: Metric)
    ensures m.name == "Number-Of-Paragraphs-Metric"
    ensures m.value != [] && IsDigits(m.value)
    ensures ParseDecimal(m.value) == |SplitParagraphs(Strip(report.content))|
    ensures ParseDecimal(m.value) == 1 + DelimiterCount(Strip(report.content)) >= 1
  {
    var n := |SplitParagraphs(Strip(report.content))|;
    DecimalRoundTrip(n);
    SplitCount(Strip(report.content));
    Metric("Number-Of-Paragraphs-Metric", DecimalString(n))
  }

  /** Number-Of-Tokens-Metric: the number of maximal non-whitespace runs of
      the content (stripping first changes nothing); 0 exactly when the
      content is all whitespace. */
  function NumberOfTokenMetric(report: Report): (m: Metric)
    ensures m.name == "Number-Of-Tokens-Metric"
    ensures m.value != [] && IsDigits(m.value)
    ensures m.value == DecimalString(|Tokens(report.content)|)
    ensures ParseDecimal(m.value) == |Tokens(report.content)|
    ensures ParseDecimal(m.value) == 0 <==> AllSpace(report.content)
  {
    var n := |Tokens(Strip(report.content))|;
    DecimalRoundTrip(n);
    TokensOfStrip(report.content);
    TokensEmpty(report.content);
    Metric("Number-Of-Tokens-Metric", DecimalString(n))
  }

  // ---------------------------------------------------------------------
  // Semantic extractors
  // ---------------------------------------------------------------------

  /** The LLM-backed collaborators, as uninterpreted functions:
      `correct(statement, reference)` is the correctness judge's decision,
      `mainTopic(document)` the topic extractor's answer, and
      `covers(topic, report)` the completeness judge's decision. */
  datatype Judges = Judges(
    correct: (string, string) -> bool,
    mainTopic: string -> string,
    covers: (string, Report) -> bool)

  /** A statement is non-blank text with nothing left to strip. */
  predicate IsStatement(s: string) {
    s != [] && Strip(s) == s
  }

  /** The statement a single "\n\n"-piece contributes: the stripped piece,
      or nothing when it is blank. */
  function StatementOf(piece: string): (r: seq<string>)
    ensures |r| <= 1
    ensures r != [] <==> !AllSpace(piece)
    ensures r != [] ==> r[0] == Strip(piece) && IsStatement(r[0])
  {
    var t := Strip(piece);
    StripIdempotent(piece);
    if t != [] then [t] else []
  }

  /** The statements of some "\n\n"-pieces: each piece stripped, the blank
      ones dropped, the order kept. */
  function StatementsOf(pieces: seq<string>): (r: seq<string>)
    ensures |r| <= |pieces|
    ensures forall k :: 0 <= k < |r| ==> IsStatement(r[k])
  {
    if pieces == [] then []
    else StatementsOf(pieces[..|pieces| - 1]) + StatementOf(pieces[|pieces| - 1])
  }

  /** Selecting statements commutes with concatenating pieces; with
      `StatementOf` for a single piece this says the statements are the
      non-blank pieces, stripped, in their order. */
  lemma {:induction false} StatementsOfAppend(a: seq<string>, b: seq<string>)
    ensures StatementsOf(a + b) == StatementsOf(a) + StatementsOf(b)
    decreases |b|
  {
    if b == [] {
      assert a + b == a;
    } else {
      var b' := b[..|b| - 1];
      var x := b[|b| - 1];
      DropLastOfConcat(a, b);
      StatementsOfAppend(a, b');
      StatementsOfUnfold(a + b);
      StatementsOfUnfold(b);
      var sa, sb', o := StatementsOf(a), StatementsOf(b'), StatementOf(x);
      ConcatAssoc(sa, sb', o);
    }
  }

  lemma StatementsOfUnfold(pieces: seq<string>)
    requires pieces != []
    ensures StatementsOf(pieces) == StatementsOf(pieces[..|pieces| - 1]) + StatementOf(pieces[|pieces| - 1])
  {
  }

  /** One piece yields exactly its own statement. */
  lemma StatementsOfSingle(piece: string)
    ensures StatementsOf([piece]) == StatementOf(piece)
  {
    assert [piece][..0] == [];
  }

  /** `x` is the statement of `piece`: the piece is not blank and `x` is
      the piece, stripped. */
  predicate StatementFrom(piece: string, x: string) {
    !AllSpace(piece) && x == Strip(piece)
  }

  /** Every statement comes from a piece: it is that non-blank piece,
      stripped. */
  lemma {:induction false} StatementSource(pieces: seq<string>, x: string) returns (k: nat)
    requires x in StatementsOf(pieces)
    ensures k < |pieces| && StatementFrom(pieces[k], x)
  {
    var init, last := pieces[..|pieces| - 1], pieces[|pieces| - 1];
    StatementsOfUnfold(pieces);
    if x in StatementsOf(init) {
      k := StatementSource(init, x);
      assert pieces[k] == init[k];
    } else {
      k := |pieces| - 1;
    }
  }

  /** Every non-blank piece contributes its stripped text. */
  lemma {:induction false} StatementPresent(pieces: seq<string>, k: nat)
    requires k < |pieces| && !AllSpace(pieces[k])
    ensures Strip(pieces[k]) in StatementsOf(pieces)
  {
    if k < |pieces| - 1 {
      var init := pieces[..|pieces| - 1];
      assert init[k] == pieces[k];
      StatementPresent(init, k);
      StatementKeptByLater(pieces, Strip(pieces[k]));
    } else {
      StatementOfLast(pieces);
    }
  }

  /** A statement of all but the last piece is a statement of them all. */
  lemma StatementKeptByLater(pieces: seq<string>, x: string)
    requires pieces != [] && x in StatementsOf(pieces[..|pieces| - 1])
    ensures x in StatementsOf(pieces)
  {
    StatementsOfUnfold(pieces);
  }

  /** A non-blank last piece contributes its stripped text. */
  lemma StatementOfLast(pieces: seq<string>)
    requires pieces != [] && !AllSpace(pieces[|pieces| - 1])
    ensures Strip(pieces[|pieces| - 1]) in StatementsOf(pieces)
  {
    var last := pieces[|pieces| - 1];
    StatementsOfUnfold(pieces);
    assert StatementOf(last)[0] == Strip(last);
  }

  /** The statements of some pieces are exactly their non-blank pieces,
      stripped. */
  lemma StatementsOfMembership(pieces: seq<string>, x: string)
    ensures x in StatementsOf(pieces) <==> exists k :: 0 <= k < |pieces| && StatementFrom(pieces[k], x)
  {
    if x in StatementsOf(pieces) {
      var k := StatementSource(pieces, x);
    }
    if exists k :: 0 <= k < |pieces| && StatementFrom(pieces[k], x) {
      var k :| 0 <= k < |pieces| && StatementFrom(pieces[k], x);
      StatementPresent(pieces, k);
    }
  }

  /** The statements of a report: its "\n\n"-pieces (of the untrimmed
      content) that are not blank, each stripped. */
  function Statements(content: string): (r: seq<string>)
    ensures |r| <= |SplitParagraphs(content)|
    ensures forall k :: 0 <= k < |r| ==> IsStatement(r[k])
  {
    StatementsOf(SplitParagraphs(content))
  }

  /** The statements of a report are exactly its non-blank "\n\n"-pieces,
      each stripped. */
  lemma StatementsMembership(content: string, x: string)
    ensures x in Statements(content) <==>
            exists k :: 0 <= k < |SplitParagraphs(content)| && StatementFrom(SplitParagraphs(content)[k], x)
  {
    var pieces := SplitParagraphs(content);
    StatementsOfMembership(pieces, x);
    if x in Statements(content) {
      var k :| 0 <= k < |pieces| && StatementFrom(pieces[k], x);
      assert StatementFrom(SplitParagraphs(content)[k], x);
    }
  }

  /** Python's `all` over a sequence of booleans. */
  function AllTrue(bs: seq<bool>): (r: bool)
    ensures r <==> forall k :: 0 <= k < |bs| ==> bs[k]
  {
    if bs == [] then true else AllTrue(bs[..|bs| - 1]) && bs[|bs| - 1]
  }

  /** The judge's decision on each statement, in order. */
  function Decisions(statements: seq<string>, reference: string, judges: Judges): (ds: seq<bool>)
    ensures |ds| == |statements|
    ensures forall k :: 0 <= k < |ds| ==> ds[k] == judges.correct(statements[k], reference)
  {
    if statements == [] then []
    else Decisions(statements[..|statements| - 1], reference, judges)
           + [judges.correct(statements[|statements| - 1], reference)]
  }

  /** Correctness-Metric: "1" exactly when the judge accepts every
      statement against the reference, so "1" when there is none. */
  function CorrectnessMetric(report: Report, reference: string, judges: Judges): (m: Metric)
    ensures m.name == "Correctness-Metric"
    ensures m.value == "1" || m.value == "0"
    ensures m.value == "1" <==> forall k :: 0 <= k < |Statements(report.content)| ==>
                                   judges.correct(Statements(report.content)[k], reference)
  {
    var decisions := Decisions(Statements(report.content), reference, judges);
    Metric("Correctness-Metric", FlagString(AllTrue(decisions)))
  }

  /** Correctness is vacuously "1" for a report without statements. */
  lemma CorrectnessWithoutStatements(report: Report, reference: string, judges: Judges)
    requires Statements(report.content) == []
    ensures CorrectnessMetric(report, reference, judges).value == "1"
  {
  }

  /** Completeness-Metric: the completeness judge's decision on the topic
      extracted from the reference. */
  function CompletenessMetric(report: Report, reference: string, judges: Judges): (m: Metric)
    ensures m.name == "Completeness-Metric"
    ensures m.value == "1" || m.value == "0"
    ensures m.value == "1" <==> judges.covers(judges.mainTopic(reference), report)
  {
    var topic := judges.mainTopic(reference);
    Metric("Completeness-Metric", FlagString(judges.covers(topic, report)))
  }

  // ---------------------------------------------------------------------
  // The examples the test suite checks
  // ---------------------------------------------------------------------

  lemma HasTitleMetricExamples()
    ensures HasTitleMetric(Report("", "UCLA is a public university at Los Angeles")).value == "0"
    ensures HasTitleMetric(Report("UCLA", "UCLA is a public university at Los Angeles")).value == "1"
    ensures HasTitleMetric(Report(" ", "")).value == "1"
  {
  }

  lemma TitleLengthMetricExample(title: string)
    requires title == "UCLA"
    ensures TitleLengthMetric(Report(title, "")).value == "4"
  {
    StripOfPadded("", title, "");
    assert "" + title + "" == title;
    assert DecimalString(4) == "4";
  }

  /** Surrounding whitespace does not count towards the title length. */
  lemma TitleLengthMetricPaddedExample(title: string, padded: string)
    requires title == "UCLA" && padded == " " + title + " "
    ensures TitleLengthMetric(Report(padded, "")).value == TitleLengthMetric(Report(title, "")).value
  {
    StripOfPadded("", title, "");
    assert "" + title + "" == title;
    StripOfPadded(" ", title, " ");
  }

  lemma NumberOfParagraphExample(content: string)
    requires content == "A.\n\nB."
    ensures NumberOfParagraphMetric(Report("UCLA", content)).value == "2"
  {
    assert Strip(content) == content by {
      StripOfPadded("", content, "");
      assert "" + content + "" == content;
    }
    assert SplitParagraphs(content) == ["A.", "B."] by {
      assert JoinParagraphs(["A.", "B."]) == content by {
        JoinCons("A.", ["B."]);
      }
      SplitUnique(content, ["A.", "B."]);
    }
    OneDigitString(2);
  }

  /** Empty content is still one (empty) paragraph. */
  lemma NumberOfParagraphEmptyExample(content: string)
    requires content == ""
    ensures NumberOfParagraphMetric(Report("UCLA", content)).value == "1"
  {
    assert DecimalString(1) == "1";
  }

  /** The token metric of words joined by single spaces is the number of
      words. */
  lemma NumberOfTokensOfSentence(title: string, words: seq<string>)
    requires forall k :: 0 <= k < |words| ==> words[k] != [] && NoSpace(words[k])
    ensures NumberOfTokenMetric(Report(title, Sentence(words))).value == DecimalString(|words|)
  {
    TokensOfSentence(words);
  }

  /** "UCLA is a public university at Los Angeles." has eight tokens. */
  lemma NumberOfTokenExamples(words: seq<string>)
    requires words == ["UCLA", "is", "a", "public", "university", "at", "Los", "Angeles."]
    ensures NumberOfTokenMetric(Report("UCLA", Sentence(words))).value == "8"
  {
    NumberOfTokensOfSentence("UCLA", words);
    assert DecimalString(8) == "8";
  }
}
