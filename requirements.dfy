/** Requirements: each wraps a metric extractor with an acceptance test, a
    "must be satisfied" flag fixed at construction, a name, and a
    description that is shown to the model inside the prompt. */
module Requirements {
  import opened Text
  import opened Documents
  import opened Metrics

  /** The seven kinds of requirement. Every flag defaults to false, as the
      constructors' keyword arguments do; the delimiter requirement has
      none, since it never gates a report. */
  datatype Requirement =
    | HasTitleRequirement(mustBe: bool := false)
    | TitleLengthRequirement(minChars: int, maxChars: int, mustBe: bool := false)
    | DoubleNewlineDelimiterRequirement
    | NumberOfParagraphRequirement(minParagraphs: int, maxParagraphs: int, mustBe: bool := false)
    | NumberOfTokenRequirement(minTokens: int, maxTokens: int, mustBe: bool := false)
    | CorrectnessRequirement(orgDocument: Document, mustBe: bool := false)
    | CompletenessRequirement(orgDocument: Document, mustBe: bool := false)

  /** The `name` property. Only the two semantic requirements share a
      name. */
  function Name(req: Requirement): (n: string)
    ensures n == "Correctness-Requirement" <==> req.CorrectnessRequirement? || req.CompletenessRequirement?
  {
    match req
    case HasTitleRequirement(_) => "Has-Title-Requirement"
    case TitleLengthRequirement(_, _, _) => "Title-Length-Requirement"
    case DoubleNewlineDelimiterRequirement => "Double-Newline-As-Paragraph-Delimiter-Requirement"
    case NumberOfParagraphRequirement(_, _, _) => "Number-Of-Paragraphs-Requirement"
    case NumberOfTokenRequirement(_, _, _) => "Number-Of-Tokens-Requirement"
    case CorrectnessRequirement(_, _) => "Correctness-Requirement"
    // the completeness requirement reuses the correctness requirement's name
    case CompletenessRequirement(_, _) => "Correctness-Requirement"
  }

  /** Apart from the two semantic requirements, the name tells the kind. */
  lemma NameIdentifiesKind(r1: Requirement, r2: Requirement)
    requires Name(r1) == Name(r2)
    ensures r1.HasTitleRequirement? <==> r2.HasTitleRequirement?
    ensures r1.TitleLengthRequirement? <==> r2.TitleLengthRequirement?
    ensures r1.DoubleNewlineDelimiterRequirement? <==> r2.DoubleNewlineDelimiterRequirement?
    ensures r1.NumberOfParagraphRequirement? <==> r2.NumberOfParagraphRequirement?
    ensures r1.NumberOfTokenRequirement? <==> r2.NumberOfTokenRequirement?
  {
  }

  /** The two semantic requirements cannot be told apart by name. */
  lemma SemanticNamesCollide(d1: Document, f1: bool, d2: Document, f2: bool)
    ensures Name(CompletenessRequirement(d1, f1)) == Name(CorrectnessRequirement(d2, f2))
  {
  }

  /** The `description` property: one instruction of the prompt, ending
      with a semicolon. */
  function Description(req: Requirement): string {
    match req
    case HasTitleRequirement(_) =>
      "Include a title that tells readers exactly what the document is about;"
    case TitleLengthRequirement(lo, hi, _) =>
      "Title must be: (1) longer than " + IntString(lo) + " characters and (2) shorter than "
      + IntString(hi) + " characters;"
    case DoubleNewlineDelimiterRequirement =>
      "Use \"\n\n\" as the delimiter to separate paragraphs;"
    case NumberOfParagraphRequirement(lo, hi, _) =>
      "Summarization report should have " + IntString(lo) + " to " + IntString(hi) + " paragraphs in total;"
    case NumberOfTokenRequirement(lo, hi, _) =>
      "Summarization report should have " + IntString(lo) + " to " + IntString(hi) + " tokens / words in total;"
    case CorrectnessRequirement(_, _) =>
      "Ensure the summary faithfully reflects the original document meaning without adding personal opinions;"
    case CompletenessRequirement(_, _) =>
      "Ensure the summary cover the main idea of the document;"
  }

  /** `must_be_satisfied()`: the constructor's flag, and always false for
      the delimiter requirement. */
  function MustBeSatisfied(req: Requirement): (must: bool)
    ensures req.DoubleNewlineDelimiterRequirement? ==> !must
    ensures !req.DoubleNewlineDelimiterRequirement? ==> must == req.mustBe
  {
    if req.DoubleNewlineDelimiterRequirement? then false else req.mustBe
  }

  /** Python's `bool(int(v))` on a metric value: true exactly when some
      digit is not zero. */
  function Truthy(value: string): (ok: bool)
    requires value != [] && IsDigits(value)
    ensures ok <==> exists k :: 0 <= k < |value| && value[k] != '0'
  {
    ParseDecimalZeroIff(value);
    ParseDecimal(value) != 0
  }

  /** `HasTitleRequirement.is_satisfied`: the has-title metric is truthy. */
  function HasTitleSatisfied(report: Report): (ok: bool)
    ensures ok <==> report.title != []
  {
    DecimalRoundTrip(1);
    Truthy(HasTitleMetric(report).value)
  }

  /** `TitleLengthRequirement.is_satisfied`: the stripped title length
      lies in [lo, hi]. */
  function TitleLengthSatisfied(lo: int, hi: int, report: Report): (ok: bool)
    ensures ok <==> lo <= |Strip(report.title)| <= hi
  {
    var n := ParseDecimal(TitleLengthMetric(report).value);
    lo <= n <= hi
  }

  /** `NumberOfParagraphRequirement.is_satisfied`: the paragraph count
      lies in [lo, hi]. */
  function NumberOfParagraphSatisfied(lo: int, hi: int, report: Report): (ok: bool)
    ensures ok <==> lo <= |SplitParagraphs(Strip(report.content))| <= hi
  {
    var n := ParseDecimal(NumberOfParagraphMetric(report).value);
    lo <= n <= hi
  }

  /** `NumberOfTokenRequirement.is_satisfied`: the token count lies in
      [lo, hi]. */
  function NumberOfTokenSatisfied(lo: int, hi: int, report: Report): (ok: bool)
    ensures ok <==> lo <= |Tokens(report.content)| <= hi
  {
    var n := ParseDecimal(NumberOfTokenMetric(report).value);
    lo <= n <= hi
  }

  /** `CorrectnessRequirement.is_satisfied`: the correctness metric is
      truthy. */
  function CorrectnessSatisfied(doc: Document, report: Report, judges: Judges): (ok: bool)
    ensures ok <==> CorrectnessMetric(report, doc.content, judges).value == "1"
  {
    DecimalRoundTrip(1);
    Truthy(CorrectnessMetric(report, doc.content, judges).value)
  }

  /** `CompletenessRequirement.is_satisfied`: the completeness metric is
      truthy. */
  function CompletenessSatisfied(doc: Document, report: Report, judges: Judges): (ok: bool)
    ensures ok <==> CompletenessMetric(report, doc.content, judges).value == "1"
  {
    DecimalRoundTrip(1);
    Truthy(CompletenessMetric(report, doc.content, judges).value)
  }

  /** `is_satisfied(report)` of any requirement: read the metric, parse its
      value, and test it; the bounds are inclusive at both ends, and the
      delimiter requirement accepts every report. */
  function IsSatisfied(req: Requirement, report: Report, judges: Judges): (ok: bool)
    ensures req.HasTitleRequirement? ==> (ok <==> report.title != [])
    ensures req.TitleLengthRequirement? ==>
              (ok <==> req.minChars <= |Strip(report.title)| <= req.maxChars)
    ensures req.DoubleNewlineDelimiterRequirement? ==> ok
    ensures req.NumberOfParagraphRequirement? ==>
              (ok <==> req.minParagraphs <= |SplitParagraphs(Strip(report.content))| <= req.maxParagraphs)
    ensures req.NumberOfTokenRequirement? ==>
              (ok <==> req.minTokens <= |Tokens(report.content)| <= req.maxTokens)
    ensures req.CorrectnessRequirement? ==>
              (ok <==> CorrectnessMetric(report, req.orgDocument.content, judges).value == "1")
    ensures req.CompletenessRequirement? ==>
              (ok <==> CompletenessMetric(report, req.orgDocument.content, judges).value == "1")
  {
    match req
    case HasTitleRequirement(_) => HasTitleSatisfied(report)
    case TitleLengthRequirement(lo, hi, _) => TitleLengthSatisfied(lo, hi, report)
    case DoubleNewlineDelimiterRequirement => true
    case NumberOfParagraphRequirement(lo, hi, _) => NumberOfParagraphSatisfied(lo, hi, report)
    case NumberOfTokenRequirement(lo, hi, _) => NumberOfTokenSatisfied(lo, hi, report)
    case CorrectnessRequirement(doc, _) => CorrectnessSatisfied(doc, report, judges)
    case CompletenessRequirement(doc, _) => CompletenessSatisfied(doc, report, judges)
  }

  /** The correctness requirement holds exactly when the judge accepts every
      statement of the report against the original document. */
  lemma CorrectnessSatisfiedIff(doc: Document, flag: bool, report: Report, judges: Judges)
    ensures IsSatisfied(CorrectnessRequirement(doc, flag), report, judges) <==>
            forall k :: 0 <= k < |Statements(report.content)| ==>
              judges.correct(Statements(report.content)[k], doc.content)
  {
  }

  /** The completeness requirement holds exactly when the judge finds the
      document's main topic covered. */
  lemma CompletenessSatisfiedIff(doc: Document, flag: bool, report: Report, judges: Judges)
    ensures IsSatisfied(CompletenessRequirement(doc, flag), report, judges) <==>
            judges.covers(judges.mainTopic(doc.content), report)
  {
  }

  /** The bounded requirements with their bounds, as (kind, min, max). */
  predicate Bounded(req: Requirement) {
    req.TitleLengthRequirement? || req.NumberOfParagraphRequirement? || req.NumberOfTokenRequirement?
  }

  function Lo(req: Requirement): int
    requires Bounded(req)
  {
    match req
    case TitleLengthRequirement(lo, _, _) => lo
    case NumberOfParagraphRequirement(lo, _, _) => lo
    case NumberOfTokenRequirement(lo, _, _) => lo
  }

  function Hi(req: Requirement): int
    requires Bounded(req)
  {
    match req
    case TitleLengthRequirement(_, hi, _) => hi
    case NumberOfParagraphRequirement(_, hi, _) => hi
    case NumberOfTokenRequirement(_, hi, _) => hi
  }

  /** The measured count a bounded requirement tests. */
  function Measured(req: Requirement, report: Report): nat
    requires Bounded(req)
  {
    match req
    case TitleLengthRequirement(_, _, _) => |Strip(report.title)|
    case NumberOfParagraphRequirement(_, _, _) => |SplitParagraphs(Strip(report.content))|
    case NumberOfTokenRequirement(_, _, _) => |Tokens(report.content)|
  }

  /** A bounded requirement holds exactly when its count lies in the
      closed interval [min, max]. */
  lemma BoundedSatisfiedIff(req: Requirement, report: Report, judges: Judges)
    requires Bounded(req)
    ensures IsSatisfied(req, report, judges) <==> Lo(req) <= Measured(req, report) <= Hi(req)
  {
  }

  /** `wide` is `narrow` with the same kind and flag and a range that
      contains narrow's range. */
  predicate Widens(wide: Requirement, narrow: Requirement) {
    && Bounded(wide) && Bounded(narrow)
    && wide.TitleLengthRequirement? == narrow.TitleLengthRequirement?
    && wide.NumberOfParagraphRequirement? == narrow.NumberOfParagraphRequirement?
    && wide.mustBe == narrow.mustBe
    && Lo(wide) <= Lo(narrow) && Hi(narrow) <= Hi(wide)
  }

  /** Widening the bounds never rejects a report that was accepted, and
      narrowing them never accepts a report that was rejected. */
  lemma WideningPreservesSatisfaction(wide: Requirement, narrow: Requirement, report: Report, judges: Judges)
    requires Widens(wide, narrow)
    ensures IsSatisfied(narrow, report, judges) ==> IsSatisfied(wide, report, judges)
    ensures !IsSatisfied(wide, report, judges) ==> !IsSatisfied(narrow, report, judges)
  {
    BoundedSatisfiedIff(wide, report, judges);
    BoundedSatisfiedIff(narrow, report, judges);
    assert Measured(wide, report) == Measured(narrow, report);
  }

  /** The title length bounds are inclusive although the description says
      "longer than" and "shorter than": a stripped title of exactly the
      minimum or the maximum length passes. */
  lemma TitleLengthBoundsInclusive(lo: int, hi: int, flag: bool, report: Report, judges: Judges)
    requires lo <= hi
    requires |Strip(report.title)| == lo || |Strip(report.title)| == hi
    ensures IsSatisfied(TitleLengthRequirement(lo, hi, flag), report, judges)
  {
  }

  // ---------------------------------------------------------------------
  // Descriptions carry their bounds
  // ---------------------------------------------------------------------

  lemma IntStringHasNoSpace(i: int)
    ensures NoSpace(IntString(i))
  {
    var s := IntString(i);
    forall k | 0 <= k < |s| ensures !IsSpace(s[k]) {
      if i < 0 && k > 0 {
        assert s[k] == s[1..][k - 1];
      }
    }
  }

  /** Where a space-free word is followed by text that starts with a space,
      the word ends at the first space. */
  lemma WordBeforeSpace(x: string, u: string, y: string, v: string)
    requires NoSpace(x) && NoSpace(y)
    requires u != [] && v != [] && u[0] == ' ' && v[0] == ' '
    requires x + u == y + v
    ensures x == y && u == v
  {
    var k := if |x| < |y| then |x| else |y|;
    assert (x + u)[k] == (y + v)[k];
    assert |x| == |y|;
    assert x == (x + u)[..|x|] && y == (y + v)[..|y|];
    assert u == (x + u)[|x|..] && v == (y + v)[|y|..];
  }

  lemma CancelPrefix(p: string, x: string, y: string)
    requires p + x == p + y
    ensures x == y
  {
    assert x == (p + x)[|p|..] && y == (p + y)[|p|..];
  }

  lemma Regroup(p: string, a: string, m: string, b: string, q: string)
    ensures p + a + m + b + q == p + (a + (m + (b + q)))
  {
  }

  /** Text of the form `p + str(lo) + m + str(hi) + q`, with `m` and `q`
      starting with a space, determines `lo` and `hi`. */
  lemma BoundsFromText(p: string, m: string, q: string, lo1: int, hi1: int, lo2: int, hi2: int)
    requires m != [] && m[0] == ' ' && q != [] && q[0] == ' '
    requires p + IntString(lo1) + m + IntString(hi1) + q == p + IntString(lo2) + m + IntString(hi2) + q
    ensures lo1 == lo2 && hi1 == hi2
  {
    var a1, b1, a2, b2 := IntString(lo1), IntString(hi1), IntString(lo2), IntString(hi2);
    IntStringHasNoSpace(lo1); IntStringHasNoSpace(hi1);
    IntStringHasNoSpace(lo2); IntStringHasNoSpace(hi2);
    Regroup(p, a1, m, b1, q);
    Regroup(p, a2, m, b2, q);
    CancelPrefix(p, a1 + (m + (b1 + q)), a2 + (m + (b2 + q)));
    WordBeforeSpace(a1, m + (b1 + q), a2, m + (b2 + q));
    CancelPrefix(m, b1 + q, b2 + q);
    WordBeforeSpace(b1, q, b2, q);
    IntRoundTrip(lo1); IntRoundTrip(lo2); IntRoundTrip(hi1); IntRoundTrip(hi2);
  }

  /** The description of a bounded requirement determines its bounds, so
      the prompt tells the model the exact acceptance range. */
  lemma DescriptionDeterminesBounds(r1: Requirement, r2: Requirement)
    requires Bounded(r1) && Bounded(r2)
    requires r1.TitleLengthRequirement? == r2.TitleLengthRequirement?
    requires r1.NumberOfParagraphRequirement? == r2.NumberOfParagraphRequirement?
    requires Description(r1) == Description(r2)
    ensures Lo(r1) == Lo(r2) && Hi(r1) == Hi(r2)
  {
    match r1
    case TitleLengthRequirement(_, _, _) =>
      BoundsFromText("Title must be: (1) longer than ", " characters and (2) shorter than ",
        " characters;", Lo(r1), Hi(r1), Lo(r2), Hi(r2));
    case NumberOfParagraphRequirement(_, _, _) =>
      BoundsFromText("Summarization report should have ", " to ", " paragraphs in total;",
        Lo(r1), Hi(r1), Lo(r2), Hi(r2));
    case NumberOfTokenRequirement(_, _, _) =>
      BoundsFromText("Summarization report should have ", " to ", " tokens / words in total;",
        Lo(r1), Hi(r1), Lo(r2), Hi(r2));
  }

  // ---------------------------------------------------------------------
  // The examples the test suite checks
  // ---------------------------------------------------------------------

  /** The description of `TitleLengthRequirement(4, 64)`: the expected text,
      written in pieces at the points where the bounds are interpolated. */
  lemma TitleLengthDescriptionExample(lo: int, hi: int)
    requires lo == 4 && hi == 64
    ensures Description(TitleLengthRequirement(lo, hi, true))
         == "Title must be: (1) longer than " + "4" + " characters and (2) shorter than " + "64" + " characters;"
  {
    OneDigitString(4);
    TwoDigitString(6, 4);
  }

  lemma NumberOfParagraphDescriptionExample(lo: int, hi: int)
    requires lo == 2 && hi == 5
    ensures Description(NumberOfParagraphRequirement(lo, hi, true))
         == "Summarization report should have " + "2" + " to " + "5" + " paragraphs in total;"
  {
    OneDigitString(2);
    OneDigitString(5);
  }

  lemma NumberOfTokenDescriptionExample(lo: int, hi: int)
    requires lo == 5 && hi == 30
    ensures Description(NumberOfTokenRequirement(lo, hi, true))
         == "Summarization report should have " + "5" + " to " + "30" + " tokens / words in total;"
  {
    OneDigitString(5);
    TwoDigitString(3, 0);
  }

  lemma FlagExamples(doc: Document)
    ensures !MustBeSatisfied(HasTitleRequirement())
    ensures !MustBeSatisfied(TitleLengthRequirement(4, 64))
    ensures !MustBeSatisfied(CorrectnessRequirement(doc))
    ensures MustBeSatisfied(NumberOfParagraphRequirement(2, 5, true))
    ensures !MustBeSatisfied(DoubleNewlineDelimiterRequirement)
  {
  }
}
