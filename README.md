# ai-summarize-document, modelled in Dafny

This project models the core of a document summariser. A large language
model is asked several times for a titled report of a document. Each reply
is checked against a list of requirements. As written, `summarize` returns
the first reply: the check at main/summarizer.py:108 is meant to keep only
the replies that pass every requirement which must be satisfied, but it
keeps every reply (see below). The model gives both the code as written
and the intended version, which returns the earliest passing reply.

The model has three layers, each following one Python module:

- **Metrics** (`metrics.dfy`, from `main/metrics.py`). A `Metric` is a named
  measurement whose value is a decimal string. The four structural
  extractors are modelled exactly:
  - has-title: a non-empty title, not trimmed;
  - title length: characters after `strip()`;
  - paragraphs: pieces of the stripped content split on `"\n\n"`;
  - tokens: `split()` on whitespace.

  The two semantic extractors, correctness and completeness, consult judges.
  The judges are uninterpreted functions. Correctness asks the judge about
  every non-blank `"\n\n"`-piece of the content, stripped, and is `"1"`
  exactly when all the answers are true. `Metric.__eq__` and
  `Metric.__hash__` are modelled too, including the `AttributeError` the
  equality raises on foreign objects.
- **Requirements** (`requirements.dfy`, from `main/requirements.py`). The
  seven requirement classes are one datatype. For each class the model gives
  the name, the description, `must_be_satisfied()` and `is_satisfied()`.
  Every bound is inclusive at both ends. The completeness requirement
  reuses the name `"Correctness-Requirement"`. The description of a bounded
  requirement is proved to determine its bounds.
- **Summariser** (`summarizer.dfy`, from `main/summarizer.py`). The class
  `BestHitLLMSummarizer` keeps `numTries`. Its method `Summarize` runs the
  source's loops with invariants:
  - build the fixed list of seven requirements and the gating subset;
  - collect the descriptions;
  - query the model `numTries` times;
  - check every report against the gating requirements;
  - raise or return the first valid report.

  The method is proved equal to a specification function. Lemmas about that
  function state what the method returns and when it raises.

Supporting modules:

- `text.dfy` holds Python's `strip()`, `split("\n\n")`, `split()`, `str(int)`
  and `int(str)` on strings. It proves round trips, uniqueness of the split,
  and idempotence.
- `sequences.dfy` holds order-preserving filtering, which models list
  comprehensions with a condition.
- `documents.dfy` holds `Document` and `Report`.
- `wrappers.dfy` holds `Option`.

Where the code's own names and tests say one thing and its statements do
another, the model follows the statements and proves the intended version
beside them:

- `Metric.__eq__` (main/metrics.py:44-51) starts with an `isinstance` test,
  so a non-Metric operand should compare false. But `all` receives a tuple
  that already reads `other.name` and `other.value`, so such an operand
  raises AttributeError. `EqualsAsWritten` follows the code and `Equals` is
  the equality the `isinstance` test intends; see Findings. `__hash__`
  hashes the value alone, and `HashConsistentWithEquals` proves it agrees
  with the equality.
- The list of check results is named `satisfy_all_must_requirements`
  (main/summarizer.py:101), so a report should be kept when it satisfies
  every gating requirement. Line 108 keeps it whenever that list is
  non-empty. `Summarize` follows the code. The conjunction the name
  intends is `SummarizeIntended`; see Findings.
- A reply that fails `Report.model_validate_json` (main/summarizer.py:95)
  is parsed in the `else` branch of the `try` at lines 86-97. The
  `except` does not cover it, so the `ValidationError` ends `summarize`
  rather than skipping that attempt as a failed call is skipped. The model
  follows the code: `Collect` aborts and both versions raise
  `ValidationError`.
- The title-length description says "longer than" and "shorter than", but
  the test is inclusive at both ends. `TitleLengthBoundsInclusive` states
  the code's behaviour.

## Model

| member | source | states |
|---|---|---|
| Metrics.EqualsAsWritten | main/metrics.py:44-51 | Between two Metrics, `==` is true exactly when name and value agree. Against another object it raises AttributeError exactly when that object lacks `name` or `value`; otherwise it is false. |
| Metrics.Equals | main/metrics.py:44-51 | The equality the `isinstance` test intends: true exactly when the other operand is a Metric with the same name and value, never an error |
| Metrics.EqualsAgreesWhenNoError | main/metrics.py:44-51 | Wherever the written equality does not raise, it gives the same answer as the intended one |
| Metrics.EqualsAsWrittenRaises | main/metrics.py:45-50 | Comparing a Metric with an object that has no `name` raises, where the intended equality answers false |
| Metrics.HashConsistentWithEquals | main/metrics.py:53-54 | Metrics that compare equal hash alike, and metrics with the same value hash alike whatever their names |
| Metrics.FlagString | main/metrics.py:68 | `str(int(b))` of a boolean is "1" for true and "0" for false |
| Metrics.HasTitleMetric | main/metrics.py:66-69 | Named "Has-Title-Metric"; the value is "1" exactly when the title is non-empty (untrimmed) and "0" exactly when it is empty |
| Metrics.TitleLengthMetric | main/metrics.py:74-77 | Named "Number-Of-Chars-In-Title-Metric"; the value is the decimal length of the stripped title and parses back to it, which is at most the title's length |
| Metrics.NumberOfParagraphMetric | main/metrics.py:82-85 | Named "Number-Of-Paragraphs-Metric"; the value parses to the number of "\n\n"-pieces of the stripped content, which is one more than its delimiter count and so at least 1 |
| Metrics.NumberOfTokenMetric | main/metrics.py:90-93 | Named "Number-Of-Tokens-Metric"; the value is the decimal token count of the content; it parses to 0 exactly when the content is all whitespace |
| Metrics.Hash | main/metrics.py:53-54 | The hash of a metric equals the value-hash of every Metric that `__eq__` as written calls equal to it |
| Metrics.StatementOf | main/metrics.py:101-105 | A piece contributes a statement exactly when it is not blank, and then exactly its stripped text, never more than one |
| Metrics.StatementsOf | main/metrics.py:101-105 | There are no more statements than pieces, and every statement is non-blank and stripped |
| Metrics.StatementsOfMembership | main/metrics.py:101-105 | A string is a statement exactly when some piece is non-blank and strips to it |
| Metrics.StatementsOfAppend | main/metrics.py:101-105 | Selecting statements commutes with concatenation, so they come in the order of their pieces |
| Metrics.StatementsOfSingle | main/metrics.py:101-105 | A single piece yields exactly its own statement |
| Metrics.Statements | main/metrics.py:101-105 | A report has no more statements than its unstripped content has "\n\n"-pieces, and each is non-blank and stripped |
| Metrics.StatementsMembership | main/metrics.py:101-105 | A string is a statement of a report exactly when some "\n\n"-piece of its content is non-blank and strips to it |
| Metrics.AllTrue | main/metrics.py:109-111 | Python's `all` is true exactly when every entry is true |
| Metrics.Decisions | main/metrics.py:106-108 | One judge decision per statement, in statement order, each the judge's answer on that statement and the reference |
| Metrics.CorrectnessMetric | main/metrics.py:100-113 | Named "Correctness-Metric"; the value is "1" or "0", and "1" exactly when the judge accepts every statement against the reference |
| Metrics.CorrectnessWithoutStatements | main/metrics.py:109-112 | A report without statements is vacuously correct |
| Metrics.CompletenessMetric | main/metrics.py:123-129 | Named "Completeness-Metric"; the value is "1" or "0", and "1" exactly when the judge finds the reference's extracted main topic covered by the report |
| Metrics.HasTitleMetricExamples | test/test_metrics.py:46-56 | An empty title gives "0", a title "UCLA" gives "1", and a blank title " " gives "1" because nothing is trimmed |
| Metrics.TitleLengthMetricExample | test/test_metrics.py:68-71 | The title "UCLA" measures "4" |
| Metrics.TitleLengthMetricPaddedExample | main/metrics.py:75 | " UCLA " measures the same as "UCLA" |
| Metrics.NumberOfParagraphExample | test/test_metrics.py:86-89 | Two paragraphs separated by "\n\n" count "2" |
| Metrics.NumberOfParagraphEmptyExample | main/metrics.py:83-84 | Empty content still counts one (empty) paragraph |
| Metrics.NumberOfTokensOfSentence | main/metrics.py:90-93 | Non-empty, space-free words joined by single spaces count as many tokens as there are words |
| Metrics.NumberOfTokenExamples | test/test_metrics.py:101-104 | "UCLA is a public university at Los Angeles." counts "8" tokens |
| Requirements.Name | main/requirements.py:220-249 | The name is "Correctness-Requirement" exactly for the correctness and the completeness requirements |
| Requirements.NameIdentifiesKind | main/requirements.py:52-189 | Two requirements with the same name are of the same kind, for each of the five structural kinds |
| Requirements.Description | main/requirements.py:53-250 | The seven description texts (lines 53-55, 89-92, 121, 151-154, 190-193, 221-224 and 250). No contract of its own; `DescriptionDeterminesBounds` and the three description examples state what it produces |
| Requirements.SemanticNamesCollide | main/requirements.py:249 | The completeness requirement has the same name as the correctness requirement |
| Requirements.MustBeSatisfied | main/requirements.py:134-135 | The delimiter requirement never gates a report; every other requirement gates exactly when its constructor flag is set |
| Requirements.Truthy | main/requirements.py:69 | `bool(int(v))` of a metric value is true exactly when some digit is not zero |
| Requirements.HasTitleSatisfied | main/requirements.py:67-70 | Satisfied exactly when the title is non-empty |
| Requirements.TitleLengthSatisfied | main/requirements.py:103-109 | Satisfied exactly when min <= stripped title length <= max |
| Requirements.NumberOfParagraphSatisfied | main/requirements.py:165-171 | Satisfied exactly when min <= paragraph count of the stripped content <= max |
| Requirements.NumberOfTokenSatisfied | main/requirements.py:204-210 | Satisfied exactly when min <= token count <= max |
| Requirements.CorrectnessSatisfied | main/requirements.py:236-239 | Satisfied exactly when the correctness metric is "1" |
| Requirements.CompletenessSatisfied | main/requirements.py:262-265 | Satisfied exactly when the completeness metric is "1" |
| Requirements.IsSatisfied | main/requirements.py:39-41 | For each of the seven kinds, the exact condition under which `is_satisfied` is true; the delimiter requirement accepts every report |
| Requirements.CorrectnessSatisfiedIff | main/requirements.py:236-239 | The correctness requirement holds exactly when the judge accepts every statement of the report against the original document |
| Requirements.CompletenessSatisfiedIff | main/requirements.py:262-265 | The completeness requirement holds exactly when the judge finds the document's main topic covered |
| Requirements.BoundedSatisfiedIff | main/requirements.py:106-108 | Each bounded requirement holds exactly when its measured count is in the closed interval [min, max] |
| Requirements.WideningPreservesSatisfaction | main/requirements.py:168-170 | Widening a range never rejects an accepted report, and narrowing it never accepts a rejected one |
| Requirements.TitleLengthBoundsInclusive | main/requirements.py:103-109 | A stripped title of exactly the minimum or the maximum length passes, despite "longer than"/"shorter than" in the description |
| Requirements.BoundsFromText | main/requirements.py:89-92 | Text made of fixed pieces with two interpolated integers, each followed by a space, determines both integers |
| Requirements.DescriptionDeterminesBounds | main/requirements.py:151-154 | Two bounded requirements of the same kind with the same description have the same bounds |
| Requirements.TitleLengthDescriptionExample | test/test_requirements.py:50-57 | The description of the title-length requirement (4, 64) is the text the test expects |
| Requirements.NumberOfParagraphDescriptionExample | test/test_requirements.py:109-113 | The description of the paragraph requirement (2, 5) is the text the test expects |
| Requirements.NumberOfTokenDescriptionExample | test/test_requirements.py:137-141 | The description of the token requirement (5, 30) is the text the test expects |
| Requirements.FlagExamples | main/requirements.py:72-73 | The flag defaults to false, is kept when given, and is always false for the delimiter requirement |
| Sequences.Filter | main/summarizer.py:61-63 | The filtered list is no longer than the input and every survivor satisfies the condition |
| Sequences.FilterMembership | main/summarizer.py:61-63 | An element survives exactly when it is in the input and satisfies the condition |
| Sequences.FilterSubset | main/summarizer.py:61-63 | Every survivor of the filter is an element of the input |
| Sequences.FilterAppend | main/summarizer.py:61-63 | Filtering commutes with concatenation, so survivors keep their order |
| Sequences.FilterDropsOne | main/summarizer.py:61-63 | When one element alone fails the condition, the filter removes exactly that element |
| Sequences.FilterEmptyIff | main/summarizer.py:114-115 | Nothing survives exactly when no element satisfies the condition |
| Sequences.FilterFirst | main/summarizer.py:117 | The first survivor is the earliest element that satisfies the condition; every element before it fails |
| Text.Strip | main/metrics.py:75 | `strip()` is no longer than its input; it neither starts nor ends with whitespace; it is empty exactly when the input is all whitespace |
| Text.StripBounds | main/metrics.py:75 | `strip()` is a slice of the input between a whitespace-only prefix and a whitespace-only suffix |
| Text.StripIdempotent | main/metrics.py:102 | Stripping twice is stripping once |
| Text.StripOfPadded | main/metrics.py:75 | Stripping whitespace-padded text with non-blank ends gives the text back |
| Text.SplitParagraphs | main/metrics.py:83 | `split("\n\n")` gives at least one piece; the first piece is a prefix of the input, followed by the delimiter when more pieces follow |
| Text.SplitJoin | main/metrics.py:83 | Joining the pieces with "\n\n" gives the input back |
| Text.SplitPiecesWellFormed | main/metrics.py:83 | No piece holds "\n\n", and no piece but the last ends with a line feed |
| Text.SplitUnique | main/metrics.py:83 | Any well-formed pieces that join to the input are exactly its split |
| Text.SplitCount | main/metrics.py:84 | The number of pieces is one more than the number of non-overlapping delimiters |
| Text.Tokens | main/metrics.py:91 | Every token of `split()` is non-empty and free of whitespace |
| Text.TokensEmpty | main/metrics.py:91 | There are no tokens exactly when the string is all whitespace |
| Text.TokensOfSentence | main/metrics.py:91 | `split()` gives back the non-empty, space-free words that were joined by single spaces |
| Text.TokensOfStrip | main/metrics.py:91 | Stripping before `split()` changes no token |
| Text.DecimalString | main/metrics.py:76 | `str(n)` is a non-empty digit string without a leading zero, except "0" itself |
| Text.IsSpace | main/metrics.py:75-104 | The `str.isspace()` set that `strip()` and `split()` use at lines 75, 83, 91 and 102-104. It is a definition with no contract; `Strip`, `Tokens` and their lemmas state what follows from it |
| Text.ParseDecimal | main/requirements.py:69-264 | Python's `int()` of a metric value (lines 69, 105, 167, 206, 238 and 264): the last digit is the value modulo 10; with `ParseDecimalZeroIff` it is 0 exactly for all-zero digits, and `DecimalRoundTrip` inverts `str()` |
| Text.ParseDecimalZeroIff | main/requirements.py:69 | A digit string parses to 0 exactly when every digit is "0" |
| Text.DecimalRoundTrip | main/requirements.py:105 | `int(str(n)) == n` for every count a metric reports |
| Text.IntString | main/requirements.py:90-91 | `str(i)` of an integer is a minus sign exactly for negatives, followed by digits |
| Text.IntRoundTrip | main/requirements.py:90-91 | `int(str(i)) == i`, so an interpolated bound loses nothing |
| Summarizer.AllRequirements | main/summarizer.py:46-60 | The fixed list has seven requirements; all but the delimiter requirement gate; every bounded range is non-empty; the semantic requirements refer to the summarised document |
| Summarizer.MustBeSatisfiedRequirements | main/summarizer.py:61-63 | The gating requirements are taken from the list, each has its flag set, and there are no more of them than requirements |
| Summarizer.Attempts | main/summarizer.py:84 | `range(num_tries)` runs `num_tries` attempts, and none for a negative count |
| Summarizer.ValidReportsAsWritten | main/summarizer.py:99-109 | As written, every kept report was collected and has a non-empty list of check results |
| Summarizer.ValidReports | main/summarizer.py:99-109 | Intended: every kept report was collected and all its check results are true |
| Summarizer.Select | main/summarizer.py:111-117 | LargeLanguageAPIError exactly when nothing was collected; NoReportSatisfyAllMustRequirements exactly when reports exist but none is valid; otherwise the first valid report |
| Summarizer.BestHitAsWritten | main/summarizer.py:44-117 | As written: ValidationError exactly when a reply was malformed, LargeLanguageAPIError exactly when nothing was collected, and a returned report is one of the collected reports |
| Summarizer.BestHit | main/summarizer.py:44-117 | Intended: the same two errors under the same conditions, and a returned report was collected and passes every gating check |
| Summarizer.PromptFor | main/summarizer.py:70-75 | The template receives the document's content and the descriptions of all requirements, one per requirement, in list order |
| Summarizer.Descriptions | main/summarizer.py:65-67 | One description per requirement, in list order |
| Summarizer.Collect | main/summarizer.py:83-97 | The attempt loop aborts exactly when some attempt's reply fails to validate as a report; otherwise it collects at most one report per attempt |
| Summarizer.CheckResults | main/summarizer.py:101-106 | One check result per gating requirement, in order, each that requirement's `is_satisfied` on the report |
| Summarizer.BestHitLLMSummarizer.constructor | main/summarizer.py:37-38 | The summariser keeps the given number of tries, 3 by default |
| Summarizer.BestHitLLMSummarizer.Summarize | main/summarizer.py:44-117 | The imperative `summarize` (description loop, attempt loop, checking loops) returns exactly what the as-written specification function gives for the fixed requirement list |
| Summarizer.BestHitLLMSummarizer.SummarizeIntended | main/summarizer.py:99-117 | The same loops with the all-checks-true test return exactly what the intended specification function gives |
| Summarizer.DescribeAll | main/summarizer.py:65-67 | The description loop produces the descriptions of all requirements in order |
| Summarizer.QueryModel | main/summarizer.py:83-97 | The attempt loop skips failed calls, stops at a malformed reply, and otherwise collects the replies in order |
| Summarizer.CheckAll | main/summarizer.py:101-106 | The inner loop records every gating requirement's check in order |
| Summarizer.ValidateAsWritten | main/summarizer.py:99-109 | The validation loop as written keeps the reports whose list of check results is non-empty |
| Summarizer.Validate | main/summarizer.py:99-109 | The intended validation loop keeps, in order, the reports whose checks are all true |
| Summarizer.MustRequirementsOfFixedList | main/summarizer.py:46-63 | The gating requirements of the fixed list are all of it except the delimiter requirement |
| Summarizer.MustRequirementsMembership | main/summarizer.py:61-63 | A requirement gates exactly when it is in the list and its flag is set |
| Summarizer.CollectKeepsReplies | main/summarizer.py:83-97 | Collected reports are exactly the replies, in attempt order, with no failed attempt leaving a trace |
| Summarizer.CollectAllFailed | main/summarizer.py:86-93 | When every call fails, nothing is collected |
| Summarizer.ValidAsWrittenAllOrNothing | main/summarizer.py:108-109 | As written, either every report is valid (some requirement gates) or none is (none gates), whatever the checks answer |
| Summarizer.ValidReportsIff | main/summarizer.py:99-109 | Under the intended test, a report is valid exactly when it was collected and passes every gating requirement |
| Summarizer.AsWrittenOutcome | main/summarizer.py:111-117 | As written: a malformed reply raises a validation error; no report raises LargeLanguageAPIError; otherwise the first reply is returned, or NoReportSatisfyAllMustRequirements when nothing gates |
| Summarizer.AsWrittenReturnsFirstReply | main/summarizer.py:108-117 | With the fixed requirement list, `summarize` as written never raises NoReportSatisfyAllMustRequirements and returns the first reply whenever there is one |
| Summarizer.HasTitleGates | main/summarizer.py:46-63 | The title requirement of the fixed list is among the gating requirements |
| Summarizer.AsWrittenReturnsOnlyReply | main/summarizer.py:83-117 | With the fixed list and one attempt, `summarize` as written returns the single reply, whatever it holds |
| Summarizer.AsWrittenAcceptsUntitledReport | main/summarizer.py:108 | A reply with an empty title fails a gating requirement but is still returned by `summarize` as written |
| Summarizer.PassesIff | main/summarizer.py:101-108 | All check results are true exactly when the report satisfies every gating requirement |
| Summarizer.IntendedSelectsEarliestValid | main/summarizer.py:114-117 | Intended: a returned report satisfies every gating requirement, was collected, and every earlier report fails one |
| Summarizer.IntendedNoValidReport | main/summarizer.py:114-115 | Intended: NoReportSatisfyAllMustRequirements is raised exactly when reports were collected and each fails a gating requirement |
| Summarizer.AllAttemptsFail | main/summarizer.py:84-93 | When every call fails, both versions raise LargeLanguageAPIError |
| Summarizer.UnsatisfiableRequirement | main/summarizer.py:108 | With an empty title-length range, the intended version raises NoReportSatisfyAllMustRequirements while the version as written returns the reply |

## Left out

- Whitespace is the set for which Python's `str.isspace()` is true: tab
  through carriage return, the separators \x1c to \x1f, space, U+0085,
  U+00A0, U+1680, U+2000 to U+200A, U+2028, U+2029, U+202F, U+205F and
  U+3000. A later Unicode version that adds a space character is not
  followed.
- Requirements.Description: it carries no postcondition. What it produces
  is stated by the three description examples and by
  `DescriptionDeterminesBounds`, which show that every bounded description
  holds its two bounds.
- The judges and the main-topic extractor are uninterpreted functions. Their
  prompts, the Ollama calls behind them, their exceptions and
  `Judgement.reason` are not modelled. The source makes a fresh model call
  on every `is_satisfied` and extracts the main topic again for every
  report (main/metrics.py:124-127); the model assumes that repeated calls
  on the same input agree, which is what lets `ValidReportsIff` and
  `IntendedSelectsEarliestValid` judge a report by its value.
- `asyncio.gather` concurrency and the `inspect.iscoroutinefunction`
  dispatch are left out. Each check is a plain function call, in list order.
- The Jinja template and the chat messages are left out. `PromptInput`
  stands for the rendered prompt: the document text and the description
  list, which is all the template receives.
- The chat client is an oracle `chat(prompt, attempt)`. It either fails,
  returns a reply that does not validate as a report, or returns a report.
  `print` calls, the model name and the JSON schema are left out.
- The Malformed case stands for pydantic's `ValidationError`, which the
  attempt loop does not catch. The model records only that `summarize`
  raised it.
- `app.py`, document loading and the Report and Document classes' own
  validation are not part of this model.
- `int()` is modelled only on what `str()` of an integer produces. That is
  the only input the metrics give it.
- Metrics.EqualsAsWritten: a foreign operand's `name` and `value` are
  modelled as strings or absent. Attributes of other types, and custom
  `__eq__` on them, are not modelled.
- Metrics.NumberOfTokenExamples: the content is written as the sentence of
  its eight words rather than as one string literal.
- Metrics.NumberOfParagraphExample: the two paragraphs are the short texts
  "A." and "B." instead of the test's two long sentences. The property,
  two pieces giving "2", is the same.
- Requirements.TitleLengthDescriptionExample: the expected descriptions in
  this lemma and its two siblings are written as a concatenation of the
  fixed text and the digits.
- Python's integer width is unbounded like Dafny's, so no wrap-around
  arises.

## Findings

| source | as written | input that shows it | evidently intended | confidence | as-written member | corrected member |
|---|---|---|---|---|---|---|
| main/metrics.py:44-51 | The tuple passed to `all` is built before `all` runs, so `other.name` and `other.value` are read even when `other` is not a Metric | `Metric("Has-Title-Metric", "1") == object()` raises AttributeError | Answer false for any non-Metric operand | not executed | Metrics.EqualsAsWrittenRaises | Metrics.Equals |
| main/summarizer.py:108 | A report is kept when the list of check results is non-empty, whatever its entries, so every reply is valid as soon as one requirement gates | One attempt replying `Report(title="", content="")`, with `num_tries=1` | Keep a report only when every check result is true | not executed | Summarizer.AsWrittenAcceptsUntitledReport | Summarizer.IntendedSelectsEarliestValid |
