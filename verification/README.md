# Verified model of gebra's repository tools

A Dafny model of the self-contained algorithms that gebra's repository tools and its pytest plugin rest
on, with the properties they are relied on for. One module or a small group of modules stands for each
tool:

- **The JSON Schema validator** (`JsonValues`, `JsonCanonical`, `JsonSchema`, `JsonMeaning`,
  `JsonCorrectness`, `JsonLaws`, `JsonReports`, `JsonLimits`, `JsonRanks`, `JsonStandard`, `JsonPointer`,
  `JsonValidator`, over the numbers of `Doubles`). `JsonMeaning` gives a schema a declarative
  meaning, `JsonSchema` says what the interpreter reports, `JsonCorrectness` relates the two,
  `JsonLaws` and `JsonReports` say both again name by name over the members as they are written, and
  `JsonValidator` is the interpreter with its shared list of issues.
- **The board engine** (`Graphs`, `DepthFirst`, `BoardCycles`, `BoardPlan`, `WorkingDays`): cycle search,
  statuses over histories, derived readiness, gates.
- **The transcript matcher** (`Transcript`): greedy placement against the meaning of `...`.
- **The drift issue protocol** (`DriftMarkers`, `DriftIssues`, `DriftSteps`, `DriftSafety`,
  `DriftReports`, `DriftRouting`): a repository as a class whose methods are the requests, any of which may
  fail.
- **The path-glob compiler** (`PathGlob`, `PathGlobReadings`, `PathGlobSteady`, `PathGlobPartings`): what a
  rule covers, and when that is its reading by segments.
- **Cycle canonicalisation and revisions** (`Utf16Order`, `Rotation`, `Reconcile`).
- **The provenance guard** (`FileTree`, `ProvenanceGuard`, `ProvenanceFindings`): a manifest, a record, and a tree
  with links.
- **The Markdown scanners** (`Directives`, `Fences`, `DocsExamples`, `DocsRoundTrip`, `QuickstartSteps`).
- **The Mermaid checker** (`MermaidLabels`, `Mermaid`, `MermaidRules`, `MermaidDrawings`).
- **The pytest plugin** (`PytestPlugin`, `PytestCarriers`, `PytestPromotions`, `StrictPolicy`, `ShownItems`).

`Text`, `Ordering`, `Numerals`, `Lists` and `Options` hold what several of them share.

Loops and objects of the tools are methods and classes here, each proved against a function; the
properties are lemmas about these functions. `dafny verify dfyconfig.toml` checks everything.

## Where the code and its documentation part

The model follows the code.

- `1` and `1.0` are one number for the standard and two for the validator, which also takes `1.0` for no
  integer; `CanonicalDecidesEquality` and `StandardExactly` say for which numbers this does not matter.
- Every page ending in a shown line after `...` describes an output that the transcript matcher rejects
  (`PageIsExact`).
- The comment at `src/gebra/pytest_plugin.py:1242-1244` takes the kind of a note for a sufficient key. It
  is one only while notes of a kind share their grade; and a promoted note is shown once for each of its
  locations. `NotesAreShownOnceExactly` gives the condition under which every note is shown once,
  `UngradedNoteIsLostExactly` the one under which a note is not shown.
- The verdict of a review scope is the whole run's (`tools/provenance_guard.py:703-718`) as long as the
  report was not narrowed before: narrowing a narrowed report forgets what lay outside
  (`SecondScopeForgets`).
- The gate check looks one prerequisite deep; `GatesClimbExactly` says which plans it accepts have their
  gates in order all the way back.
- The comment at `tools/pre_review_routing.py:87` has `**` span directories. `**/` stands for whole
  directories only at the start of a segment, and `**` beside other characters of a
  segment leaves it; `ReadsBySegmentsExactly` says for which rules this shows.

## Model

| member | source | states |
|---|---|---|
| JsonCorrectness.ReportIsMeaning | tools/json_schema.py:165-332 | For every ranking of supported schemas that falls along each step on one instance, and every instance: validation ends with a verdict within the nesting the ranking gives, and its report is empty exactly when the instance satisfies the declarative meaning of the schema (sections 6.1 to 6.7 of draft-handrews-json-schema-validation-01, section 8.3 of draft-handrews-json-schema-01). `JsonRanks` says when there is a ranking, `JsonLaws.MeetsByNames` what the meaning is for each keyword by its name |
| JsonStandard.StandardExactly | tools/json_schema.py:117-332 | For any set of numbers: on all documents written with these numbers the verdicts of the validator are those of the standard, and the meanings are, exactly when no value is written in two ways and none as a float without a fraction |
| JsonStandard.WholeFloatsAreReported | tools/json_schema.py:117-130 | `type: integer` reports every float without a fraction, `1.0` among them, which the standard accepts |
| JsonStandard.BoundsCompareDoubles | tools/json_schema.py:311-325 | Floats are the doubles their decimals are read as: `1e+23` is reported below a minimum of 10^23 |
| JsonLimits.ReportIsStandardMeaning | tools/json_schema.py:165-332 | One document at a time: given pairs of an instance and a schema that judging does not leave, none of them ambiguous, the verdict is the one of the standard; ambiguous is a pair that compares two spellings of one value, or that asks a float like `1.0` for an integer and not for any number |
| JsonLimits.MeaningIsStandard | tools/json_schema.py:117-135 | On such pairs comparing printed text and taking integer literals for integers reads every schema as the standard does |
| JsonLimits.SpelledIsClear | tools/json_schema.py:117-135 | It is met by all instances whose numbers come from one set that writes no value in two ways, the compared values included, and holds no whole float where an integer is asked for |
| JsonMeaning.MeetsByParts | tools/json_schema.py:180-196 | The meaning of a keyword object is that every keyword holds, each branch and part in its own meaning |
| JsonMeaning.MeetsByReference | tools/json_schema.py:173-178 | The meaning of a reference is the meaning of what it names |
| JsonLaws.MeetsByNames | tools/json_schema.py:180-332 | Name by name, over the members as they are written: a schema object that is no reference is met exactly when each value has its shape and the instance obeys the law of each name, `minItems: n` that there are n items or more, `required` that each name is a member, `oneOf` that one branch is met and no other, and so on for all twenty-one |
| JsonLaws.ReferenceByName | tools/json_schema.py:173-178 | A schema with a `$ref` is met exactly when the reference names something and that is met |
| JsonLaws.ReportByNames | tools/json_schema.py:165-332 | The validator decides just these laws: on a supported schema its report is empty exactly when the instance obeys every name |
| JsonReports.ReportLevel | tools/json_schema.py:180-332 | Which issues a report holds, told by the names: an issue is reported exactly when a member of the schema faults the instance so at this place, or a schema it applies to the instance, a property, an additional member or an item reports it at that part's place |
| JsonReports.ReferenceReports | tools/json_schema.py:173-178 | A reference reports what it names reports, in the same place |
| JsonReports.RefusedByNames | tools/json_schema.py:157-180 | An unknown name, a name beside `$ref` that asserts something, and a value of the wrong shape are refused before anything is judged |
| JsonLimits.RecursionThroughItemsIsDecided | tools/json_schema.py:138-178 | A document that refers to itself through `items` is judged as it means on every instance, however deep |
| JsonLimits.SelfReferenceNeverEnds | tools/json_schema.py:173-178 | A reference to itself on one instance reaches no verdict within any nesting |
| JsonRanks.ReportIsMeaningWithoutCircles | tools/json_schema.py:165-332 | The same with no ranking asked of the caller: on a supported document whose schemas never lead back to themselves on one instance, every instance is judged within a nesting of its height times the number of schemas, by a meaning that is the same for every ranking |
| JsonRanks.ReportIsStandardWithoutCircles | tools/json_schema.py:165-332 | On such a document the verdict is the standard's, if the numbers of the instance and of the compared values write no value in two ways and no whole float is among them where an integer is asked for |
| JsonRanks.RankedExactly | tools/json_schema.py:165-332 | Schemas that lead to one another only have a ranking exactly when none leads back to itself on one instance |
| JsonRanks.VerdictsExactly | tools/json_schema.py:165-332 | Where `anyOf` offers no choice, every instance gets a verdict exactly when no schema leads back to itself on one instance |
| JsonRanks.RoundWithoutVerdict | tools/json_schema.py:165-332 | Schemas that must lead round among themselves, by a reference, `allOf`, `oneOf`, `not` or the first branch of `anyOf`, give no instance a verdict at any nesting |
| JsonRanks.CircleThatIsEscaped | tools/json_schema.py:234-238 | A circle behind a branch of `anyOf` that holds does no harm |
| JsonLimits.DeeperIsTheSame | tools/json_schema.py:165-332 | A verdict or a refusal, once reached, is the same for every larger nesting limit |
| JsonLimits.FloatsAreComparedAsWritten | tools/json_schema.py:133-135 | `const: 1` reports the instance `1.0`, which the standard accepts: the text is compared, not the value |
| JsonLimits.UnreachedBranchesAreNotRefused | tools/json_schema.py:230-238 | An unsupported keyword behind a branch of `anyOf` that holds is not refused; in front of it, it is |
| JsonCanonical.CanonicalDecidesSameText | tools/json_schema.py:133-135 | Two documents have one canonical text exactly when they are equal up to the order of members, numbers as written |
| JsonCanonical.CanonicalDecidesEquality | tools/json_schema.py:219-227 | For any set of numbers, the canonical text decides JSON equality of all documents with these numbers exactly when the set writes no value in two ways; floats such as `1.5` do no harm |
| JsonCanonical.EqualTextIsEqual | tools/json_schema.py:133-135 | Equal canonical texts always stand for equal documents, floats among them |
| JsonCanonical.PrintsApart | tools/json_schema.py:133-135 | A printed document followed by anything can be taken apart in one way only |
| JsonCanonical.OneIsNotOnePointZero | tools/json_schema.py:133-135 | `1` and `1.0` are one number and two texts (section 4.2.3 of draft-handrews-json-schema-01) |
| JsonPointer.TokenRoundTrip | tools/json_schema.py:138-152 | Undoing the two escapes in the order of section 4 of RFC 6901 gives back every member name |
| JsonPointer.PointersResolve | tools/json_schema.py:138-152 | The fragment written for a path of member names resolves to the value at that path, and to nothing when there is none |
| JsonValidator.Validate | tools/json_schema.py:335-353 | The validator, appending to one list and trying branches on lists of their own, reports what the specification function says, or stops as it does; `JsonReports.ReportLevel` and `JsonLaws.ReportByNames` say what that is, name by name |
| JsonValidator.ValidateInto | tools/json_schema.py:165-196 | One call appends its report to the shared list and changes nothing in front of it |
| JsonValidator.ResolveRef | tools/json_schema.py:138-152 | The loop over the tokens finds what the reference names, and refuses a remote or dangling one |
| JsonValidator.ValidateType | tools/json_schema.py:199-209 | The type check reports when no named type fits and refuses a type it does not know, in the order of the names |
| JsonValidator.ValidateValues | tools/json_schema.py:219-227 | `enum` and `const` report what differs in canonical text |
| JsonValidator.ValidateCombinators | tools/json_schema.py:230-244 | `allOf` reports into the shared list; `anyOf`, `oneOf` and `not` judge branches on fresh lists and add one issue at most |
| JsonValidator.ConformsTo | tools/json_schema.py:328-332 | A branch holds when its report on a list of its own is empty |
| JsonValidator.ValidateObject | tools/json_schema.py:247-269 | Required names, judged members and the members left over are reported in that order |
| JsonValidator.ValidateArray | tools/json_schema.py:272-294 | Counts, uniqueness and the items by position are reported in that order |
| JsonValidator.ItemsAreUnique | tools/json_schema.py:291-294 | Comparing the size of the set of texts with the length finds exactly the lists without repetition |
| JsonValidator.ValidateString | tools/json_schema.py:297-308 | Pattern and length limits, as the specification function has them |
| JsonValidator.ValidateNumber | tools/json_schema.py:311-325 | The four limits, as the specification function has them |
| BoardCycles.FindCycles | tools/board_integrity.py:561-593 | The lists reported are, in order, the first for each set of vertices among the cycles that the recursive depth-first walk closes at its back edges; every one is a simple closed path, every closed walk runs along an edge whose two ends lie on one of them, every successor slot is read exactly once, and the result is empty exactly when the graph is acyclic |
| DepthFirst.BackEdgesAreTold | tools/board_integrity.py:561-593 | What the walk tells: its forest has one way to every vertex, branching off the ways to the vertices it passes; each successor that stands on the way to its vertex closes a cycle whose vertices are those of a told list, and every told list is closed by such a successor |
| DepthFirst.FirstsHave | tools/board_integrity.py:578-583 | A list is left out only if one with the same vertices is told |
| BoardCycles.Explore | tools/board_integrity.py:568-592 | The walk from one root finishes everything white it reaches and keeps what is known of the finished part |
| BoardCycles.ReadSuccessors | tools/board_integrity.py:573-588 | The resumed iterator reads on to the next white successor; what it has told and what is still to come make up what the recursive walk tells |
| BoardCycles.EveryCycleIsTouched | tools/board_integrity.py:561-593 | When all vertices are finished and all edges settled, every closed walk runs along an edge whose ends lie on one reported cycle |
| BoardCycles.RanksFall | tools/board_integrity.py:561-593 | Along edges that no reported cycle covers the finishing order falls |
| BoardPlan.CheckCycles | tools/board_integrity.py:596-610 | The check reports the cycles of the walk over the prerequisites; it is silent exactly when no card waits for itself through others, and each finding is a chain of prerequisites |
| BoardPlan.CheckPrereqs | tools/board_integrity.py:504-558 | A finding for exactly the cards that have a prerequisite list one of whose tokens does not resolve, and of each kind exactly those that the tokens of the card call for |
| BoardPlan.BlockingTokens | tools/board_integrity.py:930-945 | No token blocks exactly when every named card is done and every named gate signed |
| BoardPlan.BlockersAre | tools/board_integrity.py:930-945 | The blocking tokens are exactly those of the card's list that name a card that is not there or not done, or a gate that is not there or not signed |
| BoardPlan.SomethingIsReady | tools/board_integrity.py:930-945 | Progress: without cycles, with tokens that resolve, gates signed and no live card behind a dropped or superseded one, a live card is left only together with a live card that nothing blocks |
| BoardPlan.CheckTransitions | tools/board_integrity.py:948-993 | One true finding for exactly the cards whose step is not legal |
| BoardPlan.ArrowsAre | tools/board_integrity.py:69-83 | The eleven legal transitions, one by one |
| BoardPlan.CardsStayAndTerminalsHold | tools/board_integrity.py:948-993 | Over a silent history no card is lost and a terminal status is kept for good |
| BoardPlan.HistoryIsAWalk | tools/board_integrity.py:68-82 | Over a silent history the statuses of a card are a walk along the legal transitions |
| BoardPlan.ClaimedOnDoneWork | tools/board_integrity.py:948-993 | What a card named as a prerequisite when it was claimed is done in all later plans |
| BoardPlan.WorkWasClaimed | tools/board_integrity.py:948-993 | A card that was todo and is under way or done was claimed in between, on work done since |
| BoardPlan.CirclesNeverStart | tools/board_integrity.py:930-993 | Cards that wait for each other in a circle and start as todo are never worked on in a silent history that keeps the circle |
| BoardPlan.LowestGate | tools/board_integrity.py:819-825 | The lowest number of a gate that lists a card, for exactly the cards some gate lists |
| BoardPlan.CheckGates | tools/board_integrity.py:828-871 | Every finding is a defect, every defect of a gate is told, and none is reported exactly when the gates are consistent |
| BoardPlan.GatesClimbExactly | tools/board_integrity.py:828-871 | In a plan the check accepts, no exit card waits, however far back, for a card of a later gate exactly when none does along a path whose inner cards belong to no gate |
| BoardPlan.OrderIsDecidedBetweenGates | tools/board_integrity.py:828-871 | In every plan the order of the gates holds along all prerequisite paths exactly when it holds along those with no gated card inside |
| BoardPlan.GatesClimb | tools/board_integrity.py:828-871 | In particular, in an accepted plan it holds along paths of gated cards |
| BoardPlan.SignedMeansBuilt | tools/board_integrity.py:828-871 | Then, once all gates up to a gate are signed, every gated card that its exit cards wait for, along any path, is done |
| BoardPlan.UngatedPrereqHidesALaterGate | tools/board_integrity.py:828-871 | A plan that the check, looking one edge deep, accepts although an exit card waits through an ungated card for a later gate |
| WorkingDays.WorkingDaysAfter | tools/board_integrity.py:762-772 | The loop counts exactly the weekdays after the start up to and including the end |
| WorkingDays.CountIsDifference | tools/board_integrity.py:762-772 | The count has a closed form by whole weeks and remainders |
| WorkingDays.StretchesAddUp | tools/board_integrity.py:762-772 | Adjoining stretches add up, and any seven days hold five working days |
| Transcript.MatchTranscript | tools/readme_quickstart.py:543-590 | The verdict is a match exactly when the page describes the output and, unless the page ends in `...`, describes no shorter prefix of it. A missing line is the first segment without which there is no placement, behind the earliest end of those before it; extra output is counted behind the shortest prefix described; unexpected output is all there is |
| Transcript.NormalIs | tools/readme_quickstart.py:549-556 | What is compared: each line without its trailing space, the text without its trailing blank lines, and nothing else gone |
| Transcript.SegmentMeaning | tools/readme_quickstart.py:561-576 | Splitting at `...` loses nothing: a page describes an output exactly when its segments can be placed in order, anchored as its ends say |
| Transcript.FindSegment | tools/readme_quickstart.py:593-601 | The first index from the cursor on at which the segment stands, or the anchored one, or none |
| Transcript.SplitAtElisions | tools/readme_quickstart.py:561-573 | The loop cuts the shown lines into the segments between elisions |
| Transcript.PlaceSegments | tools/readme_quickstart.py:575-584 | The loop finds the earliest end of a placement, or stops at a segment without which there is none |
| Transcript.LeftmostStep | tools/readme_quickstart.py:575-601 | Taking the leftmost place of the first segment loses no placement of the rest |
| Transcript.ClosedVerdict | tools/readme_quickstart.py:585-590 | When the page ends in a shown line, the earliest end of a placement decides |
| Transcript.NoElisionIsExact | tools/readme_quickstart.py:543-590 | Without an elision a page describes one output, so the verdict is exact |
| Transcript.PageIsExact | tools/readme_quickstart.py:543-590 | On a page the matcher accepts just what the page describes, whatever is printed, exactly when the page ends in `...` or holds none |
| Transcript.VerdictIsExact | tools/readme_quickstart.py:543-590 | On such a page, output by output |
| Transcript.ClosedPageRejects | tools/readme_quickstart.py:543-590 | Every other page describes an output that the matcher rejects: its shown lines, and those behind the last `...` once more |
| Transcript.EndAnchorRejectsADescribedOutput | tools/readme_quickstart.py:543-590 | `...`, `A` against `A`, `B`, `A` is described and rejected |
| DriftSafety.HistoriesKeepUnique | tools/drift_issues.py:573-613 | From at most one open drift issue per fingerprint, no sequence of runs and closings leads to two |
| DriftSafety.HistoriesKeepTexts | tools/drift_issues.py:573-613 | No history loses an issue, rewrites a text, removes a comment or touches a closed issue |
| DriftSafety.StepSettles | tools/drift_issues.py:573-613 | After a payload its issue is open and the latest digest in it is the payload's |
| DriftSafety.RunSettles | tools/drift_issues.py:573-613 | A run leaves every payload so, where no open issue is for two of them that differ |
| DriftSafety.SecondRunWritesNothing | tools/drift_issues.py:573-613 | A second run with the same fingerprints and digests, in any order and however often, writes nothing |
| DriftSafety.SecondRunIsQuietExactly | tools/drift_issues.py:573-613 | The second run is silent exactly when, to begin with, no open issue carries the fingerprints of two payloads that differ |
| DriftSafety.InterleavedRunsBothCreate | tools/drift_issues.py:573-613 | Two runs that both read before either writes both create, and one open issue per fingerprint is kept exactly when their fingerprints differ |
| DriftSafety.WrittenOnceExactly | tools/drift_issues.py:546-613 | Whatever texts are shown: once a payload is written, processing it again writes nothing exactly when the last digest marker in these texts, if there is one, is the payload's; a signal line with another digest makes every later run comment again |
| DriftIssues.Repository.ProcessPayloads | tools/drift_issues.py:573-613 | A run takes the payloads in order, and the repository is what those steps make of it; it succeeds exactly when the requests it takes are answered, and otherwise stops at the payload whose requests exceed them |
| DriftIssues.Repository.Process | tools/drift_issues.py:580-612 | One payload: create, comment or leave, the labels being there before an issue is created; the exact number of requests this takes, and failure, with the issues kept, exactly when fewer are answered |
| DriftSteps.WhatAPayloadWrites | tools/drift_issues.py:573-613 | What the step is, told from the texts: with no open drift issue, pull requests aside, whose body holds the marker, one is opened with title, labels and both markers; else the newest such issue is left alone when its last digest is the payload's, and gets the comment when it is not; nothing else changes |
| DriftSteps.LatestIs | tools/drift_issues.py:546-570 | The latest digest is that of the last marker in the last text that has one: no marker begins behind it |
| DriftSteps.ItemsArePaged | tools/drift_issues.py:524-570 | Item k of a list, counted from zero, stands on page k / 100 + 1 at place k % 100, and that many pages are read to see it |
| DriftIssues.Repository.FindOpenIssue | tools/drift_issues.py:524-543 | Reading page by page finds the first open drift issue with the marker and no pull request, over the whole list |
| DriftIssues.Repository.LatestSignals | tools/drift_issues.py:546-570 | Reading body and comments page by page finds the last digest of all |
| DriftIssues.Repository.EnsureLabel | tools/drift_issues.py:506-521 | The label exists afterwards and no other is added |
| DriftIssues.PageSplits | tools/drift_issues.py:524-570 | Pages of one hundred cover the list without gap or overlap, a short one being the last |
| DriftMarkers.MarkersOfBody | tools/drift_issues.py:330-343 | A created body carries its own fingerprint and besides exactly those carried by the texts shown in it |
| DriftMarkers.DigestsOfBody | tools/drift_issues.py:330-343 | The digests read from a created body are its own, then those in the texts shown in it |
| DriftMarkers.DigestsOfComment | tools/drift_issues.py:330-343 | The same for a comment |
| DriftMarkers.BodyCarriesOneFingerprint | tools/drift_issues.py:330-343 | So a body whose texts hold no marker carries its own fingerprint and no other |
| DriftMarkers.BodyCarriesItsDigest | tools/drift_issues.py:330-343 | The only digest read from a created body is its own |
| DriftMarkers.CommentCarriesItsDigest | tools/drift_issues.py:330-343 | The only digest read from a comment is its own |
| DriftMarkers.DigestIgnoresOrderAndRepetition | tools/drift_issues.py:238-240 | The digest depends on the set of lines alone |
| DriftReports.BuildPayloads | tools/drift_issues.py:417-449 | Reports are routed to their cells, a cell other than 1, 2, 3 and pre refuses the run, and the payloads are those of the specification, of which `DriftRouting` says what they are |
| DriftRouting.WhatARunAsksFor | tools/drift_issues.py:417-449 | What a run asks for, told from reports and outcome alone: for each of the three frozen cells a version-gap issue exactly when one of its reports has a line, and a range review exactly when one of the early-warning cell has or an outcome is recorded that is not `success`; with their fingerprints, labels and the sorted lines whose hash is the digest |
| DriftRouting.FingerprintsAskedFor | tools/drift_issues.py:417-449 | So a fingerprint is asked for exactly under these conditions |
| DriftReports.FingerprintsAreDistinct | tools/drift_issues.py:417-449 | No two payloads of a run share a fingerprint |
| DriftReports.SameSignalsSameRun | tools/drift_issues.py:417-449 | Reports with the same signals, in any order and repetition, ask for the same fingerprints and digests |
| DriftReports.RepeatedSignalsWriteNothing | tools/drift_issues.py:417-613 | From reports to repository: a second run over the same signals leaves what the first left |
| PathGlob.AcceptsMeansReads | tools/pre_review_routing.py:202-225 | For every rule and every path: the rule covers the path exactly when its pieces divide the path among them, a character for itself, `*` a run without slash, `**` any run of a line, `**/` nothing or a run that ends in a slash; a newline at the very end may be left over |
| PathGlob.CutLongestFirst | tools/pre_review_routing.py:206-218 | The pieces of a rule are those that spell it, each the longest that can stand where it stands, and no others |
| PathGlob.Compile | tools/pre_review_routing.py:203-220 | The loop over the pattern emits exactly the pieces of the specification |
| PathGlob.TrailingNewlineIsCovered | tools/pre_review_routing.py:219-225 | A path ending in a newline is covered by every rule that covers the path without it |
| PathGlobPartings.ReadsBySegmentsExactly | tools/pre_review_routing.py:202-225 | A rule of whole segments covers the same plain paths as its reading by segments (`**` before others any number of whole directories, `*` within a segment, a trailing `**` any remainder) exactly when it is steady: two stars beside other characters, or three and more, stand only where segments of stars lead from them to a segment `**` |
| PathGlobPartings.CompiledMeansGlob | tools/pre_review_routing.py:202-225 | Every steady rule, whatever else it holds, reads by segments on all plain paths |
| PathGlobPartings.CoversItsGlob | tools/pre_review_routing.py:202-225 | Every rule, steady or not, covers the plain paths that its segments match |
| PathGlobPartings.Parting | tools/pre_review_routing.py:202-225 | For every rule that is not steady there is a plain path that it covers and its segments do not match |
| PathGlobPartings.WellPlacedIsSteady | tools/pre_review_routing.py:87 | Rules whose `**` are segments of their own or stand at the end, as all rules of the table are, are steady |
| PathGlobPartings.SteadyAndNot | tools/pre_review_routing.py:208-213 | `***` and `**/**b` are steady; `a**/b` and `**b/c` are not |
| Utf16Order.OrdersPartExactlyAtSurrogates | tools/corpus_reconcile.py:1367-1378 | The UTF-16 byte order is the code point order for all strings of scalar values, except exactly when the first characters to differ are one at or above U+10000 and one in U+E000..U+FFFF (section 3.2.3 of RFC 8785) |
| Utf16Order.Utf16OrderIsTotal | tools/corpus_reconcile.py:1367-1378 | The order is total and irreflexive: different strings are ordered one way |
| Utf16Order.Utf16IsTransitive | tools/corpus_reconcile.py:1367-1378 | The order is transitive |
| Rotation.CanonicalIsARotation | tools/corpus_reconcile.py:1367-1378 | The canonical form is a rotation led by a least id, with the neighbours of the cycle |
| Rotation.CanonicalIsIdempotent | tools/corpus_reconcile.py:1367-1378 | Canonicalising twice changes nothing more |
| Rotation.OneFormForAllRotations | tools/corpus_reconcile.py:1367-1378 | All rotations of a cycle have one form exactly when the places of its least id lead to one list |
| Rotation.DistinctIdsHaveOneForm | tools/corpus_reconcile.py:1367-1378 | All rotations of a cycle of distinct ids have one form |
| Reconcile.OutstandingIsSpliced | tools/corpus_reconcile.py:182-205 | An outstanding revision splices its block where the header stands and leaves the rest of the file |
| Reconcile.HeaderStays | tools/corpus_reconcile.py:182-205 | The splice keeps the header where it was and brings in no other |
| Reconcile.EditApplies | tools/corpus_reconcile.py:172-205 | The edited file is applied exactly when the text at the header does not begin with the old block again; otherwise it is ambiguous |
| Reconcile.AppliedIsKept | tools/corpus_reconcile.py:182-205 | An applied revision leaves the file alone |
| Reconcile.EditsChangeOutstandingFiles | tools/corpus_reconcile.py:172-205 | An edit differs from its file exactly when the revision was outstanding |
| Reconcile.Emit | tools/corpus_reconcile.py:1543-1567 | The emitted corpus holds every file, edits exactly the fixtures of the plan and counts the outstanding ones; it fails exactly when some revision cannot be applied, with the failure of the first such, the revisions before it applied and counted and the rest untouched |
| Reconcile.WhatApplyingDoes | tools/corpus_reconcile.py:172-205 | A file comes back edited exactly when it holds the new block and not the old one, and is kept, or holds the old block once and not the new one, and these are exchanged; it is refused exactly when it holds both or neither, or the old one more than once |
| Reconcile.EmissionCompletesThePass | tools/corpus_reconcile.py:1543-1567 | After an emission nothing is outstanding or ambiguous and a second one changes nothing |
| ProvenanceGuard.CleanRunIsSound | tools/provenance_guard.py:513-684 | A run with the record finds nothing exactly when every entry is a file with its hash and no link, the guarded trees hold nothing but listed files, every row is claimed by exactly one scope, foreign rows are absent, and the entries mirror the rows claimed here with source and commit; a path is guarded when it is a listed file or below a guarded tree, slash included, and foreign likewise by the manifest's two foreign lists |
| ProvenanceGuard.RowsAreHeld | tools/provenance_guard.py:589-638 | In a clean run every row not below the sibling's files and trees is an entry with the recorded source and commit, and a file with the recorded hash |
| ProvenanceGuard.ListedFilesAreReal | tools/provenance_guard.py:408-449 | In a clean run no listed file below a guarded tree is reached through a link, ignored directories aside |
| ProvenanceGuard.WrongDeclarationIsToldOnce | tools/provenance_guard.py:589-638 | A path whose declaration is wrong has no second finding from the record |
| ProvenanceGuard.TreeIsClean | tools/provenance_guard.py:513-578 | The findings on the tree are none exactly when the tree is what the manifest says |
| ProvenanceGuard.RecordIsClean | tools/provenance_guard.py:589-684 | The findings on the record are none exactly when every row is claimed once, by the manifest's own lists or by its foreign ones, and mirrored |
| ProvenanceGuard.Verify | tools/provenance_guard.py:513-586 | The run reports the findings of the specification, modified, missing, unlisted and those on the record in that order, and refuses a record without rows; `ProvenanceFindings.FindingsAre` says which they are |
| ProvenanceFindings.FindingsAre | tools/provenance_guard.py:513-684 | A finding is reported exactly when the tree, the two scopes or the rows give cause for it, told from the manifest's own lists, the tree and the record, kind by kind |
| ProvenanceFindings.FindingsWithoutRecord | tools/provenance_guard.py:513-586 | Without the record exactly the findings on the tree are reported |
| ProvenanceGuard.ScopesAre | tools/provenance_guard.py:214-226 | Guarded is a path that is a guarded file or `tree/rest` for a guarded tree; foreign is the same of the foreign files and trees |
| ProvenanceGuard.CrossCheckProvenance | tools/provenance_guard.py:589-638 | The three loops report what the rows and the entries lack of each other, but for paths whose declaration is wrong |
| ProvenanceGuard.CheckDeclaredScopes | tools/provenance_guard.py:641-684 | Rows claimed twice, by nobody, or held here though foreign, in the order of the paths; `ScopesAre` and `FindingsAre` say which rows these are |
| ProvenanceGuard.Regenerate | tools/provenance_guard.py:753-784 | The rewritten manifest is that of the specification |
| ProvenanceGuard.RegeneratedHas | tools/provenance_guard.py:753-784 | Its entries are the files that were listed or stand in a guarded tree, hashed anew, with the source and commit they had |
| ProvenanceGuard.RegenerateIsIdempotent | tools/provenance_guard.py:753-784 | Regenerating twice changes nothing more |
| ProvenanceGuard.DropsExactlyDropped | tools/provenance_guard.py:740-784 | A listed path is gone afterwards exactly when it is one of the dropped paths |
| ProvenanceGuard.RegeneratedLeavesLinks | tools/provenance_guard.py:513-784 | A run without the record after a regeneration finds the links of the guarded trees and nothing else |
| ProvenanceGuard.DroppedPaths | tools/provenance_guard.py:740-750 | The listed paths that are no file of this tree, in their order |
| ProvenanceGuard.ScopeKeepsTheVerdict | tools/provenance_guard.py:703-732 | A review scope keeps the findings on its guarded paths and sets the others aside, without loss or repetition; the verdict is the whole run's exactly when the report was not narrowed before or still lists something |
| ProvenanceGuard.ScopeSplitsTheSelection | tools/provenance_guard.py:703-732 | The selected paths are in scope when they are guarded and out of scope when not, each once |
| ProvenanceGuard.SecondScopeSeesTheListed | tools/provenance_guard.py:703-732 | A second scope refuses a whole run exactly when the first one lists a finding |
| ProvenanceGuard.SecondScopeForgets | tools/provenance_guard.py:703-732 | A modified file outside the first scope: the once narrowed report is refused, the twice narrowed one accepted |
| ProvenanceGuard.ScanTreeIs | tools/provenance_guard.py:408-449 | A path is reported in a tree exactly when it is a visible file or link that real directories lead to, or the linked root |
| FileTree.ScanGuardedTrees | tools/provenance_guard.py:408-449 | The walk over all trees hands back its files and its links, each sorted |
| FileTree.WalkFinds | tools/provenance_guard.py:429-448 | The walk finds every visible file and link below a directory |
| FileTree.WalkFindsOnly | tools/provenance_guard.py:429-448 | The walk finds nothing else |
| FileTree.LinkOnTheWay | tools/provenance_guard.py:408-449 | What a path query finds but real directories do not lead to lies behind a link to a directory |
| Fences.HarnessesSeeOneView | tools/docs_examples.py:272-345 | A harness that accepts a page sees the page's fenced regions, each once and in order, whatever its namespace |
| Fences.TagsOutsideAreTaken | tools/docs_examples.py:272-345 | A line is taken as a directive exactly when it reads as one and lies in no fenced region |
| Fences.ClosingFence | tools/docs_examples.py:215-226 | The index of the first line after the opening one that closes the fence, or the end |
| Fences.ReadFence | tools/docs_examples.py:229-269 | Behind blank lines a closed block is read; anything else is refused |
| QuickstartSteps.BothHarnessesAgree | tools/readme_quickstart.py:315-407 | On a page that both harnesses accept they see the same regions, and no line is a directive to both |
| QuickstartSteps.ParseMarkdown | tools/readme_quickstart.py:315-407 | Exactly the pages are accepted whose directives are closed and declare good steps, no command id twice; the steps come in document order |
| QuickstartSteps.StepsAreDeclared | tools/readme_quickstart.py:315-407 | A page has its steps exactly when its directives declare them, one each and in order, with file paths and attributes as they must be and no two commands under one id |
| DocsExamples.ParseMarkdown | tools/docs_examples.py:272-345 | Exactly the pages are accepted whose directives are closed, known and well identified, examples new and outputs after their example, once; the examples come in document order with their outputs |
| DocsExamples.MarkedOnce | tools/docs_examples.py:315-329 | On an accepted page no two blocks of one kind share an id |
| DocsExamples.EveryOutputIsExpected | tools/docs_examples.py:331-345 | Every output block of an accepted page is the expected output of the example with its id |
| DocsRoundTrip.RoundTrip | tools/docs_examples.py:215-345 | Examples rendered in fences that no line of theirs closes are read back: the same ids, code and outputs, in order, and nothing else |
| DocsRoundTrip.BlockReadsBack | tools/docs_examples.py:215-269 | A body is read back from its block exactly when none of its lines closes the fence |
| Directives.WrittenTagIsRead | tools/docs_examples.py:97-108 | A written directive is recognised, with its kind and attributes |
| Directives.WrittenIdIsRead | tools/docs_examples.py:204-212 | The written id is the id read |
| Directives.NamespacesAreDisjoint | tools/docs_examples.py:97-108 | No line is a directive of two different namespaces that hold no colon |
| MermaidDrawings.AcceptedLinesAreADrawing | tools/mermaid_check.py:126-270 | When nothing is reported the lines are, blank lines and comments aside, a drawing: the ids collected first are those defined, each once, every endpoint, member, class and link index resolves, blocks are closed, unnested and hold nodes only |
| MermaidDrawings.GoodDrawingsAreAccepted | tools/mermaid_check.py:126-270 | Every such drawing, printed in the licensed form with any blank lines and comments between, is accepted |
| MermaidDrawings.PrintedIsCollected | tools/mermaid_check.py:126-142 | The first pass collects exactly the ids, classes and links of the drawing |
| MermaidDrawings.DropChangesNothing | tools/mermaid_check.py:174-181 | Blank lines and comments change no state and no other problem; a directive block is one |
| Mermaid.MermaidProblems | tools/mermaid_check.py:145-270 | The two passes report the problems of every line in order, then those of the whole; `MermaidRules.ProblemsAre` says which they are |
| MermaidRules.ProblemsAre | tools/mermaid_check.py:145-270 | A problem is reported exactly when its rule is broken, told from the lines themselves: what stands above a line, what is defined anywhere, which block is open |
| Mermaid.CollectPass | tools/mermaid_check.py:126-142 | The loop of the first pass collects ids, classes and the number of links |
| Mermaid.CheckLine | tools/mermaid_check.py:174-263 | One turn of the second pass, with the state it leaves |
| Mermaid.CheckForm | tools/mermaid_check.py:208-263 | What is asked of edges, blocks, classes and styles |
| MermaidLabels.LabelProblem | tools/mermaid_check.py:91-105 | The first raw bracket, control character or `#` outside an entity; none exactly when the label is escaped |
| MermaidLabels.EscapedLabelsAreAccepted | src/gebra/display/mermaid.py:89-102 | Every label the emitter escapes is accepted and holds no double quote |
| MermaidLabels.EscapedLabelsShowTheText | src/gebra/display/mermaid.py:89-102 | Reading the entities of an escaped label gives back the text, so the escape is injective |
| PytestPlugin.RecordsSplitOverItems | src/gebra/pytest_plugin.py:866-931 | Whatever properties have an item, every record of a run is a finding of exactly one item or belongs to a property without one; each item has records of its own property only; `PytestCarriers.ItemIsChargedByOwner` says which |
| PytestCarriers.ItemIsChargedByOwner | src/gebra/pytest_plugin.py:866-931 | From the reports alone: an item has a finding as often as reports of its own property fail with it and co-failures and advisories, of whatever report, name that property as owner and spell it |
| PytestCarriers.ItemFindingsAre | src/gebra/pytest_plugin.py:866-931 | So a finding is the item's exactly when it names the property and some report carries it |
| PytestCarriers.ItemNotesAre | src/gebra/pytest_plugin.py:934-960 | The item has the notes of the first report of its property: of the witness, the failure and its co-failures, each as often as it stands there |
| PytestCarriers.ItemPromotionsAre | src/gebra/pytest_plugin.py:971-981 | The item has the promotions of its property, and the error of the run |
| PytestPlugin.NothingGatesUnseen | src/gebra/pytest_plugin.py:1650-1673 | An error-free run has a blocking record or a promotion exactly when some item fails or the closing report names what fell outside the items |
| PytestPlugin.OwnedFindings | src/gebra/pytest_plugin.py:866-916 | The failure under the report's property, then its co-failures, then its advisories, each under its own owner, as `PytestCarriers` tells it from the reports |
| PytestPlugin.NotesFor | src/gebra/pytest_plugin.py:934-960 | The notes of the property's own report, in witness, failure and co-failures |
| ShownItems.ItemShowsItsRecords | src/gebra/pytest_plugin.py:1213-1295 | In a run that follows its policy, the entries of a failing item are, as a multiset, the error, one entry for each finding (blocking, promoted or noted, as its grade and the policy say) and the entries of each note, and nothing else |
| ShownItems.NotesAreShownOnceExactly | src/gebra/pytest_plugin.py:1213-1295 | Every note has exactly one entry exactly when, as far as the policy names the property, notes of one kind share a grade and no graded note has two locations |
| ShownItems.ShownOnceCounts | src/gebra/pytest_plugin.py:1213-1295 | Then an item has as many entries as it has findings and notes, and one for the error if there is one |
| ShownItems.NoteWithTwoLocations | src/gebra/verify/run.py:571-604 | A graded note with two locations is shown twice, though its kind has one grade |
| ShownItems.UngradedNoteIsLostExactly | src/gebra/pytest_plugin.py:1213-1295 | A note without a grade has no entry exactly when the policy names the property and the note shares its kind with a graded one |
| ShownItems.UngradedNoteIsLost | src/gebra/pytest_plugin.py:1235-1295 | Such a run: of two notes one is shown nowhere |
| StrictPolicy.FindingsAreShownOnce | src/gebra/pytest_plugin.py:1235-1295 | The findings of an item are its blocking ones and its warnings; the policy promotes all its warnings, one promotion each, or none, and then they are all noted |
| StrictPolicy.NotedUnlessPromoted | src/gebra/pytest_plugin.py:1253-1295 | The noted notes are those the policy does not promote exactly when, as far as it names the property, notes of one kind share a grade |
| StrictPolicy.WhatIsNoted | src/gebra/pytest_plugin.py:1253-1295 | A note is left out of the noted ones exactly when a note of its kind is promoted |
| StrictPolicy.PromotedWarningsJoin | src/gebra/pytest_plugin.py:1053-1073 | A promoted warning is joined to a record of its identity; where these share a grade, to its own grade |
| StrictPolicy.PromotedNotesJoin | src/gebra/pytest_plugin.py:1023-1050 | Where the notes of one kind share a grade every promoted note is joined to a note |
| StrictPolicy.FindingSideOfRun | src/gebra/verify/run.py:607-631 | The promotions of findings that a property owns are those of its warnings, in order, if the policy names it |
| StrictPolicy.NoteSideOfRun | src/gebra/verify/run.py:571-604 | The promotions of its notes are those of its graded ones, once for each location |
| PytestPromotions.PromotedRecords | src/gebra/pytest_plugin.py:984-1005 | Each promotion is joined by its origin, in order |
| PytestPromotions.JoinToNote | src/gebra/pytest_plugin.py:1023-1050 | The search ends at the first note of the kind and place; without a grade it joins nothing |
| PytestPromotions.JoinToFinding | src/gebra/pytest_plugin.py:1053-1073 | The first record with origin, condition and place gives the grade |
| PytestPromotions.RenderNotes | src/gebra/pytest_plugin.py:1253-1295 | Warnings and notes that no promotion covers |

## Left out

Whole parts of the tools:

- Subprocesses, git, HTTP, the environment, command lines and the reading of YAML, TOML and report text
  (`parse_report`, `load_manifest`, `parse_provenance_rows`): their results are the inputs of the model.
- The wording of messages. Findings, issues and problems are told apart by kind, not by text.
- Regular expressions, but for the pieces the path-glob compiler emits, the fences and the directives. The
  `pattern` keyword is a given predicate, and so are the style declarations of a drawing.
- SHA-256: a given function, of which nothing is assumed.
- How changed paths are routed to reviewers (`route`), the form a review comment must have
  (`check_comment`), the findings on stale claims, and how status and gate texts are parsed.
- The guards that patch sockets and `Runnable`, and running the examples.

Where the model is narrower than the code:

- JsonCorrectness.ReportIsMeaning: a recursion limit counts calls of the validating function, not frames of the interpreter. A keyword value of the wrong shape is refused in the model (`Malformed`) when its schema is read; the code raises an exception, or takes the value as it comes (`uniqueItems: 1` is true, `required: "ab"` asks for two names), or never looks at it.
- Doubles.ToDouble: numbers beyond the largest double are not made infinite.
- JsonRanks.VerdictsExactly: where `anyOf` has several branches, whether a circle is entered depends on the instance; `RoundWithoutVerdict` and `ReportIsMeaningWithoutCircles` bound the two sides.
- JsonCanonical.CanonicalDecidesEquality: a float is given by its printed text; how Python prints it, and that equal floats print alike, is not modelled. Documents are what the parser leaves: decimals read as one double are one number.
- JsonPointer.PointersResolve: paths of member names; the code walks into objects only, so array indices name nothing.
- BoardCycles.FindCycles: does not claim to list all elementary cycles, which the code does not.
- PathGlobPartings.ReadsBySegmentsExactly: rules with an empty segment or a newline are outside the exact statement, as is a rule that holds every character there is; that steady ones read by segments holds for them too.
- DriftIssues.Repository.Process: rate limits and retries are one kind of failed request; other writers may close issues, but do not edit texts.
- DriftSafety.HistoriesKeepUnique: the texts shown in issues are taken to hold no marker, which the code does not enforce; `MarkersOfBody` and `WrittenOnceExactly` say what one does.
- DriftReports.BuildPayloads: the sentences of a payload are given by a function of the cell.
- FileTree.ScanGuardedTrees: a link carries what it points at, so a link to one of its own ancestors is not modelled; paths are normalised relative ones.
- ProvenanceGuard.ListedFilesAreReal: below guarded trees only; a single guarded file, or a tree root itself, may lie behind a linked ancestor, which the code does not look for.
- DocsExamples.ParseMarkdown: refusals are one outcome, without line number and reason.
- QuickstartSteps.ParseMarkdown: what makes a command block or a path good is given; an exit status is a run of ASCII digits.
- Mermaid.MermaidProblems: lines come already told apart by the licensed forms, and the final newline is given.
- StrictPolicy.NoteSideOfRun: the identity under which a property promotes its notes is given; the cases in which the code raises instead are not modelled.
- ShownItems.ItemShowsItsRecords: one entry a record; extraction warnings, the best-effort line and the subject line are not modelled.
- Reconcile.EmissionCompletesThePass: the checks that parse the corpus, and the refusal of a vendored destination, are not modelled.
