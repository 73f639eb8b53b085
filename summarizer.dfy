/** The best-hit summariser: describe every requirement to the model, ask
    it for a report a fixed number of times, check every reply against the
    requirements which must be satisfied, and return a reply. As written,
    the check keeps every reply and so the first reply is returned; the
    intended version, which keeps only the replies passing every gating
    requirement and returns the earliest of those, is modelled beside it.

    The model is an oracle `chat(prompt, attempt)`; the requirement judges
    are the `Judges` oracles of the metrics. */
module Summarizer {
  import opened Sequences
  import opened Documents
  import opened Metrics
  import opened Requirements

  /** What the prompt template is rendered from: the document's text and
      the requirement descriptions, in order. */
  datatype PromptInput = PromptInput(document: string, requirements: seq<string>)

  /** The result of one chat attempt: the call raised (swallowed by the
      loop), the reply did not validate as a report (propagates), or a
      report. */
  datatype ChatOutcome =
    | ChatFailed
    | Malformed
    | Replied(report: Report)

  datatype SummarizeError =
    | LargeLanguageAPIError
    | NoReportSatisfyAllMustRequirements
    | ValidationError

  datatype Outcome = Selected(report: Report) | Raised(error: SummarizeError)

  /** The reports gathered by the attempt loop, or the loop left early
      because a reply did not validate. */
  datatype Collection = Collected(reports: seq<Report>) | Aborted

  // ---------------------------------------------------------------------
  // Specification functions
  // ---------------------------------------------------------------------

  /** The requirement list `summarize` builds for a document. */
  function AllRequirements(document: Document): (all: seq<Requirement>)
    ensures |all| == 7
    ensures forall k :: 0 <= k < |all| ==> (MustBeSatisfied(all[k]) <==> !all[k].DoubleNewlineDelimiterRequirement?)
    ensures forall k :: 0 <= k < |all| && Bounded(all[k]) ==> 0 <= Lo(all[k]) <= Hi(all[k])
    ensures forall k :: 0 <= k < |all| && (all[k].CorrectnessRequirement? || all[k].CompletenessRequirement?) ==>
              all[k].orgDocument == document
  {
    [ HasTitleRequirement(mustBe := true),
      TitleLengthRequirement(5, 80, mustBe := true),
      DoubleNewlineDelimiterRequirement,
      NumberOfParagraphRequirement(2, 4, mustBe := true),
      NumberOfTokenRequirement(100, 250, mustBe := true),
      CorrectnessRequirement(document, mustBe := true),
      CompletenessRequirement(document, mustBe := true) ]
  }

  /** The requirements that gate a report, in their order in the list. */
  function MustBeSatisfiedRequirements(reqs: seq<Requirement>): (must: seq<Requirement>)
    ensures |must| <= |reqs|
    ensures forall k :: 0 <= k < |must| ==> must[k] in reqs && MustBeSatisfied(must[k])
  {
    FilterSubset(MustBeSatisfied, reqs);
    Filter(MustBeSatisfied, reqs)
  }

  /** The description of each requirement, in order. */
  function Descriptions(reqs: seq<Requirement>): (ds: seq<string>)
    ensures |ds| == |reqs|
    ensures forall k :: 0 <= k < |reqs| ==> ds[k] == Description(reqs[k])
  {
    if reqs == [] then []
    else Descriptions(reqs[..|reqs| - 1]) + [Description(reqs[|reqs| - 1])]
  }

  /** What the prompt template receives: the document text and the
      descriptions of all requirements, in list order. */
  function PromptFor(reqs: seq<Requirement>, document: Document): (p: PromptInput)
    ensures p.document == document.content
    ensures |p.requirements| == |reqs|
    ensures forall k :: 0 <= k < |reqs| ==> p.requirements[k] == Description(reqs[k])
  {
    PromptInput(document.content, Descriptions(reqs))
  }

  /** The outcome of attempts `0 .. n-1`: the replies in attempt order, or
      `Aborted` as soon as one reply is malformed. */
  function Collect(chat: (PromptInput, nat) -> ChatOutcome, prompt: PromptInput, n: nat): (c: Collection)
    ensures c.Aborted? <==> exists i :: 0 <= i < n && chat(prompt, i).Malformed?
    ensures c.Collected? ==> |c.reports| <= n
  {
    if n == 0 then Collected([])
    else
      match Collect(chat, prompt, n - 1)
      case Aborted => Aborted
      case Collected(reports) =>
        match chat(prompt, n - 1)
        case ChatFailed => Collected(reports)
        case Malformed => Aborted
        case Replied(report) => Collected(reports + [report])
  }

  /** How many of attempts `0 .. i-1` produced a report. */
  function Replies(chat: (PromptInput, nat) -> ChatOutcome, prompt: PromptInput, i: nat): nat {
    if i == 0 then 0
    else Replies(chat, prompt, i - 1) + (if chat(prompt, i - 1).Replied? then 1 else 0)
  }

  /** Python's `range(num_tries)` has no element for a negative count. */
  function Attempts(numTries: int): (n: nat)
    ensures numTries >= 0 ==> n == numTries
    ensures numTries < 0 ==> n == 0
  {
    if numTries < 0 then 0 else numTries
  }

  /** The check results of one report: one per must requirement, in order. */
  function CheckResults(must: seq<Requirement>, report: Report, judges: Judges): (checks: seq<bool>)
    ensures |checks| == |must|
    ensures forall k :: 0 <= k < |must| ==> checks[k] == IsSatisfied(must[k], report, judges)
  {
    if must == [] then []
    else
      var init := must[..|must| - 1];
      assert forall k :: 0 <= k < |init| ==> init[k] == must[k];
      CheckResults(init, report, judges) + [IsSatisfied(must[|must| - 1], report, judges)]
  }

  /** A report meets every gating requirement. */
  predicate PassesAll(must: seq<Requirement>, report: Report, judges: Judges) {
    forall q :: q in must ==> IsSatisfied(q, report, judges)
  }

  /** The validity test as written: the list of check results is
      non-empty, whatever its entries. */
  function ValidReportsAsWritten(reports: seq<Report>, must: seq<Requirement>, judges: Judges): (valid: seq<Report>)
    ensures |valid| <= |reports|
    ensures forall k :: 0 <= k < |valid| ==> valid[k] in reports && CheckResults(must, valid[k], judges) != []
  {
    FilterSubset(r => CheckResults(must, r, judges) != [], reports);
    Filter(r => CheckResults(must, r, judges) != [], reports)
  }

  /** The validity test as intended: every check result is true. */
  function ValidReports(reports: seq<Report>, must: seq<Requirement>, judges: Judges): (valid: seq<Report>)
    ensures |valid| <= |reports|
    ensures forall k :: 0 <= k < |valid| ==> valid[k] in reports && AllTrue(CheckResults(must, valid[k], judges))
  {
    FilterSubset(r => AllTrue(CheckResults(must, r, judges)), reports);
    Filter(r => AllTrue(CheckResults(must, r, judges)), reports)
  }

  lemma ValidReportsAsWrittenSnoc(reports: seq<Report>, report: Report, must: seq<Requirement>, judges: Judges)
    ensures ValidReportsAsWritten(reports + [report], must, judges)
         == ValidReportsAsWritten(reports, must, judges) + (if CheckResults(must, report, judges) != [] then [report] else [])
  {
    var s := reports + [report];
    assert s[..|s| - 1] == reports;
  }

  lemma ValidReportsSnoc(reports: seq<Report>, report: Report, must: seq<Requirement>, judges: Judges)
    ensures ValidReports(reports + [report], must, judges)
         == ValidReports(reports, must, judges) + (if AllTrue(CheckResults(must, report, judges)) then [report] else [])
  {
    var s := reports + [report];
    assert s[..|s| - 1] == reports;
  }

  /** The final choice: no report at all, no valid report, or the earliest
      valid one. */
  function Select(reports: seq<Report>, valid: seq<Report>): (o: Outcome)
    ensures o == Raised(LargeLanguageAPIError) <==> reports == []
    ensures o == Raised(NoReportSatisfyAllMustRequirements) <==> reports != [] && valid == []
    ensures o.Selected? <==> reports != [] && valid != []
    ensures o.Selected? ==> o.report == valid[0]
  {
    if reports == [] then Raised(LargeLanguageAPIError)
    else if valid == [] then Raised(NoReportSatisfyAllMustRequirements)
    else Selected(valid[0])
  }

  /** `summarize` over a requirement list, with the validity test as written. */
  function BestHitAsWritten(reqs: seq<Requirement>, numTries: int, document: Document,
                            chat: (PromptInput, nat) -> ChatOutcome, judges: Judges): (o: Outcome)
    ensures var c := Collect(chat, PromptFor(reqs, document), Attempts(numTries));
            && (o == Raised(ValidationError) <==> c.Aborted?)
            && (o == Raised(LargeLanguageAPIError) <==> c == Collected([]))
            && (o.Selected? ==> c.Collected? && o.report in c.reports)
  {
    match Collect(chat, PromptFor(reqs, document), Attempts(numTries))
    case Aborted => Raised(ValidationError)
    case Collected(reports) =>
      Select(reports, ValidReportsAsWritten(reports, MustBeSatisfiedRequirements(reqs), judges))
  }

  /** `summarize` over a requirement list, with the intended validity test. */
  function BestHit(reqs: seq<Requirement>, numTries: int, document: Document,
                   chat: (PromptInput, nat) -> ChatOutcome, judges: Judges): (o: Outcome)
    ensures var c := Collect(chat, PromptFor(reqs, document), Attempts(numTries));
            && (o == Raised(ValidationError) <==> c.Aborted?)
            && (o == Raised(LargeLanguageAPIError) <==> c == Collected([]))
            && (o.Selected? ==> c.Collected? && o.report in c.reports
                                && AllTrue(CheckResults(MustBeSatisfiedRequirements(reqs), o.report, judges)))
  {
    match Collect(chat, PromptFor(reqs, document), Attempts(numTries))
    case Aborted => Raised(ValidationError)
    case Collected(reports) =>
      Select(reports, ValidReports(reports, MustBeSatisfiedRequirements(reqs), judges))
  }

  // ---------------------------------------------------------------------
  // The summariser
  // ---------------------------------------------------------------------

  class BestHitLLMSummarizer {
    const numTries: int

    constructor(numTries: int := 3)
      ensures this.numTries == numTries
    {
      this.numTries := numTries;
    }

    /** `summarize` as written: a report is kept when its list of check
        results is non-empty. */
    method Summarize(document: Document, chat: (PromptInput, nat) -> ChatOutcome, judges: Judges)
      returns (outcome: Outcome)
      ensures outcome == BestHitAsWritten(AllRequirements(document), numTries, document, chat, judges)
    {
      var allRequirements := AllRequirements(document);
      var mustRequirements := MustBeSatisfiedRequirements(allRequirements);
      var descriptions := DescribeAll(allRequirements);
      var prompt := PromptInput(document.content, descriptions);
      var collection := QueryModel(prompt, Attempts(numTries), chat);
      if collection.Aborted? {
        return Raised(ValidationError);
      }
      var reports := collection.reports;
      var validReports := ValidateAsWritten(reports, mustRequirements, judges);
      if reports == [] {
        return Raised(LargeLanguageAPIError);
      }
      if validReports == [] {
        return Raised(NoReportSatisfyAllMustRequirements);
      }
      return Selected(validReports[0]);
    }

    /** `summarize` with the validity test it evidently intends: a report is
        kept when every check result is true. */
    method SummarizeIntended(document: Document, chat: (PromptInput, nat) -> ChatOutcome, judges: Judges)
      returns (outcome: Outcome)
      ensures outcome == BestHit(AllRequirements(document), numTries, document, chat, judges)
    {
      var allRequirements := AllRequirements(document);
      var mustRequirements := MustBeSatisfiedRequirements(allRequirements);
      var descriptions := DescribeAll(allRequirements);
      var prompt := PromptInput(document.content, descriptions);
      var collection := QueryModel(prompt, Attempts(numTries), chat);
      if collection.Aborted? {
        return Raised(ValidationError);
      }
      var reports := collection.reports;
      var validReports := Validate(reports, mustRequirements, judges);
      if reports == [] {
        return Raised(LargeLanguageAPIError);
      }
      if validReports == [] {
        return Raised(NoReportSatisfyAllMustRequirements);
      }
      return Selected(validReports[0]);
    }
  }

  /** The description loop. */
  method DescribeAll(reqs: seq<Requirement>) returns (descriptions: seq<string>)
    ensures descriptions == Descriptions(reqs)
  {
    descriptions := [];
    for k := 0 to |reqs|
      invariant descriptions == Descriptions(reqs[..k])
    {
      TakeSnoc(reqs, k);
      descriptions := descriptions + [Description(reqs[k])];
    }
    TakeAll(reqs);
  }

  /** The attempt loop: failed calls are skipped, a malformed reply ends
      the loop, and every report is appended. */
  method QueryModel(prompt: PromptInput, n: nat, chat: (PromptInput, nat) -> ChatOutcome)
    returns (c: Collection)
    ensures c == Collect(chat, prompt, n)
  {
    var reports: seq<Report> := [];
    for i := 0 to n
      invariant Collect(chat, prompt, i) == Collected(reports)
    {
      match chat(prompt, i)
      case ChatFailed =>
      case Malformed =>
        return Aborted;
      case Replied(report) =>
        reports := reports + [report];
    }
    return Collected(reports);
  }

  /** The inner loop: one check result per must requirement. */
  method CheckAll(must: seq<Requirement>, report: Report, judges: Judges) returns (checks: seq<bool>)
    ensures checks == CheckResults(must, report, judges)
  {
    checks := [];
    for j := 0 to |must|
      invariant checks == CheckResults(must[..j], report, judges)
    {
      TakeSnoc(must, j);
      checks := checks + [IsSatisfied(must[j], report, judges)];
    }
    TakeAll(must);
  }

  /** The validation loop as written. */
  method ValidateAsWritten(reports: seq<Report>, must: seq<Requirement>, judges: Judges)
    returns (valid: seq<Report>)
    ensures valid == ValidReportsAsWritten(reports, must, judges)
  {
    valid := [];
    for i := 0 to |reports|
      invariant valid == ValidReportsAsWritten(reports[..i], must, judges)
    {
      TakeSnoc(reports, i);
      ValidReportsAsWrittenSnoc(reports[..i], reports[i], must, judges);
      var checks := CheckAll(must, reports[i], judges);
      if checks != [] {
        valid := valid + [reports[i]];
      }
    }
    TakeAll(reports);
  }

  /** The validation loop with the intended test. */
  method Validate(reports: seq<Report>, must: seq<Requirement>, judges: Judges)
    returns (valid: seq<Report>)
    ensures valid == ValidReports(reports, must, judges)
  {
    valid := [];
    for i := 0 to |reports|
      invariant valid == ValidReports(reports[..i], must, judges)
    {
      TakeSnoc(reports, i);
      ValidReportsSnoc(reports[..i], reports[i], must, judges);
      var checks := CheckAll(must, reports[i], judges);
      if AllTrue(checks) {
        valid := valid + [reports[i]];
      }
    }
    TakeAll(reports);
  }

  // ---------------------------------------------------------------------
  // Properties
  // ---------------------------------------------------------------------

  /** Only the delimiter requirement is left out of the gating list. */
  lemma MustRequirementsOfFixedList(document: Document)
    ensures MustBeSatisfiedRequirements(AllRequirements(document))
            == AllRequirements(document)[..2] + AllRequirements(document)[3..]
  {
    var all := AllRequirements(document);
    FilterDropsOne(MustBeSatisfied, all, 2);
  }

  /** A gating requirement is one of the list with its flag set. */
  lemma MustRequirementsMembership(reqs: seq<Requirement>, q: Requirement)
    ensures q in MustBeSatisfiedRequirements(reqs) <==> q in reqs && MustBeSatisfied(q)
  {
    FilterMembership(MustBeSatisfied, reqs, q);
  }

  /** The reports are the replies in attempt order: the `i`-th reply is
      report number `Replies(i)`. */
  lemma {:induction false} CollectKeepsReplies(chat: (PromptInput, nat) -> ChatOutcome, prompt: PromptInput, n: nat)
    requires Collect(chat, prompt, n).Collected?
    ensures |Collect(chat, prompt, n).reports| == Replies(chat, prompt, n)
    ensures forall i :: 0 <= i < n && chat(prompt, i).Replied? ==>
              Replies(chat, prompt, i) < |Collect(chat, prompt, n).reports| &&
              Collect(chat, prompt, n).reports[Replies(chat, prompt, i)] == chat(prompt, i).report
  {
    if n > 0 {
      CollectKeepsReplies(chat, prompt, n - 1);
    }
  }

  /** When every attempt fails, nothing is collected. */
  lemma {:induction false} CollectAllFailed(chat: (PromptInput, nat) -> ChatOutcome, prompt: PromptInput, n: nat)
    requires forall i :: 0 <= i < n ==> chat(prompt, i).ChatFailed?
    ensures Collect(chat, prompt, n) == Collected([])
  {
    if n > 0 {
      CollectAllFailed(chat, prompt, n - 1);
    }
  }

  /** The validity test as written keeps every report as soon as there is
      one gating requirement, and none otherwise. */
  lemma ValidAsWrittenAllOrNothing(reports: seq<Report>, must: seq<Requirement>, judges: Judges)
    ensures ValidReportsAsWritten(reports, must, judges) == (if must == [] then [] else reports)
  {
    var p := r => CheckResults(must, r, judges) != [];
    if must == [] {
      FilterDropsAll(p, reports);
    } else {
      FilterKeepsAll(p, reports);
    }
  }

  /** A report passes the intended test exactly when it satisfies every
      gating requirement. */
  lemma ValidReportsIff(reports: seq<Report>, must: seq<Requirement>, judges: Judges, r: Report)
    ensures r in ValidReports(reports, must, judges) <==> r in reports && PassesAll(must, r, judges)
  {
    FilterMembership(r' => AllTrue(CheckResults(must, r', judges)), reports, r);
    PassesIff(must, judges, r);
  }

  /** The possible outcomes of `summarize` as written, given what the
      attempt loop collected. */
  lemma AsWrittenOutcome(reqs: seq<Requirement>, numTries: int, document: Document,
                         chat: (PromptInput, nat) -> ChatOutcome, judges: Judges)
    ensures var c := Collect(chat, PromptFor(reqs, document), Attempts(numTries));
            var o := BestHitAsWritten(reqs, numTries, document, chat, judges);
            && (c.Aborted? ==> o == Raised(ValidationError))
            && (c == Collected([]) ==> o == Raised(LargeLanguageAPIError))
            && (c.Collected? && c.reports != [] ==>
                  o == if MustBeSatisfiedRequirements(reqs) == [] then Raised(NoReportSatisfyAllMustRequirements)
                       else Selected(c.reports[0]))
  {
    var c := Collect(chat, PromptFor(reqs, document), Attempts(numTries));
    if c.Collected? {
      ValidAsWrittenAllOrNothing(c.reports, MustBeSatisfiedRequirements(reqs), judges);
    }
  }

  /** With the fixed requirement list, `summarize` as written returns the
      first reply whatever it contains, and never raises
      `NoReportSatisfyAllMustRequirements`. */
  lemma AsWrittenReturnsFirstReply(numTries: int, document: Document,
                                   chat: (PromptInput, nat) -> ChatOutcome, judges: Judges)
    ensures var reqs := AllRequirements(document);
            var c := Collect(chat, PromptFor(reqs, document), Attempts(numTries));
            var o := BestHitAsWritten(reqs, numTries, document, chat, judges);
            && o != Raised(NoReportSatisfyAllMustRequirements)
            && (c.Collected? && c.reports != [] ==> o == Selected(c.reports[0]))
  {
    var reqs := AllRequirements(document);
    AsWrittenOutcome(reqs, numTries, document, chat, judges);
    MustRequirementsOfFixedList(document);
  }

  /** The title requirement of the fixed list gates the result. */
  lemma HasTitleGates(document: Document)
    ensures HasTitleRequirement(mustBe := true) in MustBeSatisfiedRequirements(AllRequirements(document))
  {
    var reqs := AllRequirements(document);
    MustRequirementsMembership(reqs, HasTitleRequirement(mustBe := true));
    assert reqs[0] == HasTitleRequirement(mustBe := true);
  }

  /** With the fixed list and one attempt, `summarize` as written returns
      whatever the single reply holds. */
  lemma AsWrittenReturnsOnlyReply(report: Report, document: Document, judges: Judges)
    ensures var chat := (p: PromptInput, i: nat) => Replied(report);
            BestHitAsWritten(AllRequirements(document), 1, document, chat, judges) == Selected(report)
  {
    var chat := (p: PromptInput, i: nat) => Replied(report);
    assert Collect(chat, PromptFor(AllRequirements(document), document), 1) == Collected([report]);
    AsWrittenReturnsFirstReply(1, document, chat, judges);
  }

  /** A reply without a title is returned by `summarize` as written,
      although its title requirement must be satisfied. */
  lemma AsWrittenAcceptsUntitledReport(document: Document, judges: Judges)
    ensures var untitled := Report("", "");
            var chat := (p: PromptInput, i: nat) => Replied(untitled);
            && !IsSatisfied(HasTitleRequirement(mustBe := true), untitled, judges)
            && HasTitleRequirement(mustBe := true) in MustBeSatisfiedRequirements(AllRequirements(document))
            && BestHitAsWritten(AllRequirements(document), 1, document, chat, judges) == Selected(untitled)
  {
    HasTitleGates(document);
    AsWrittenReturnsOnlyReply(Report("", ""), document, judges);
  }

  /** The intended test passes exactly when every gating requirement holds. */
  lemma PassesIff(must: seq<Requirement>, judges: Judges, r: Report)
    ensures AllTrue(CheckResults(must, r, judges)) <==> PassesAll(must, r, judges)
  {
    var checks := CheckResults(must, r, judges);
    if AllTrue(checks) {
      forall q | q in must ensures IsSatisfied(q, r, judges) {
        var k :| 0 <= k < |must| && must[k] == q;
        assert checks[k];
      }
    }
  }

  /** A report returned by the intended `summarize` satisfies every gating
      requirement, and every earlier report fails one of them. */
  lemma IntendedSelectsEarliestValid(reqs: seq<Requirement>, numTries: int, document: Document,
                                     chat: (PromptInput, nat) -> ChatOutcome, judges: Judges)
    requires BestHit(reqs, numTries, document, chat, judges).Selected?
    ensures var c := Collect(chat, PromptFor(reqs, document), Attempts(numTries));
            var must := MustBeSatisfiedRequirements(reqs);
            var r := BestHit(reqs, numTries, document, chat, judges).report;
            && c.Collected?
            && PassesAll(must, r, judges)
            && exists k :: 0 <= k < |c.reports| && c.reports[k] == r
                 && forall j :: 0 <= j < k ==> !PassesAll(must, c.reports[j], judges)
  {
    var c := Collect(chat, PromptFor(reqs, document), Attempts(numTries));
    var must := MustBeSatisfiedRequirements(reqs);
    var reports := c.reports;
    var p := r => AllTrue(CheckResults(must, r, judges));
    assert ValidReports(reports, must, judges) == Filter(p, reports);
    var k := FilterFirst(p, reports);
    PassesIff(must, judges, reports[k]);
    forall j | 0 <= j < k ensures !PassesAll(must, reports[j], judges) {
      assert !p(reports[j]);
      PassesIff(must, judges, reports[j]);
    }
  }

  /** The intended `summarize` raises `NoReportSatisfyAllMustRequirements`
      exactly when there were reports and each fails a gating requirement. */
  lemma IntendedNoValidReport(reqs: seq<Requirement>, numTries: int, document: Document,
                              chat: (PromptInput, nat) -> ChatOutcome, judges: Judges)
    ensures var c := Collect(chat, PromptFor(reqs, document), Attempts(numTries));
            var must := MustBeSatisfiedRequirements(reqs);
            BestHit(reqs, numTries, document, chat, judges) == Raised(NoReportSatisfyAllMustRequirements)
            <==> c.Collected? && c.reports != [] &&
                 forall j :: 0 <= j < |c.reports| ==> !PassesAll(must, c.reports[j], judges)
  {
    var c := Collect(chat, PromptFor(reqs, document), Attempts(numTries));
    if c.Collected? {
      var must := MustBeSatisfiedRequirements(reqs);
      var reports := c.reports;
      var p := r => AllTrue(CheckResults(must, r, judges));
      assert ValidReports(reports, must, judges) == Filter(p, reports);
      FilterEmptyIff(p, reports);
      forall j | 0 <= j < |reports| ensures p(reports[j]) <==> PassesAll(must, reports[j], judges) {
        PassesIff(must, judges, reports[j]);
      }
    }
  }

  /** When every attempt fails, both versions raise `LargeLanguageAPIError`. */
  lemma AllAttemptsFail(reqs: seq<Requirement>, numTries: int, document: Document,
                        chat: (PromptInput, nat) -> ChatOutcome, judges: Judges)
    requires forall i :: 0 <= i < Attempts(numTries) ==> chat(PromptFor(reqs, document), i).ChatFailed?
    ensures BestHitAsWritten(reqs, numTries, document, chat, judges) == Raised(LargeLanguageAPIError)
    ensures BestHit(reqs, numTries, document, chat, judges) == Raised(LargeLanguageAPIError)
  {
    CollectAllFailed(chat, PromptFor(reqs, document), Attempts(numTries));
  }

  /** A gating requirement no report can meet (an empty length range):
      the intended version raises `NoReportSatisfyAllMustRequirements`
      once a report arrives, while the version as written returns it. */
  lemma UnsatisfiableRequirement(lo: int, hi: int, report: Report, document: Document, judges: Judges)
    requires hi < lo
    ensures var reqs := [HasTitleRequirement(), TitleLengthRequirement(lo, hi, mustBe := true)];
            var chat := (p: PromptInput, i: nat) => Replied(report);
            && BestHit(reqs, 1, document, chat, judges) == Raised(NoReportSatisfyAllMustRequirements)
            && BestHitAsWritten(reqs, 1, document, chat, judges) == Selected(report)
  {
    var reqs := [HasTitleRequirement(), TitleLengthRequirement(lo, hi, mustBe := true)];
    var chat := (p: PromptInput, i: nat) => Replied(report);
    var c := Collect(chat, PromptFor(reqs, document), 1);
    assert c == Collected([report]);
    var must := MustBeSatisfiedRequirements(reqs);
    assert reqs[1] in must by {
      MustRequirementsMembership(reqs, reqs[1]);
    }
    assert !IsSatisfied(reqs[1], report, judges);
    PassesIff(must, judges, report);
    IntendedNoValidReport(reqs, 1, document, chat, judges);
    AsWrittenOutcome(reqs, 1, document, chat, judges);
  }
}
