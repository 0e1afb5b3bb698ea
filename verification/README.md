# Checker models

The repository guards itself with a set of checker scripts: each reads some part of the
tree or of a running database and gives a verdict that blocks a merge or a release. This
project models the ones that hold real algorithms and proves what their verdicts mean.

The files follow the scripts:

- `RouteMatcher`, `RouteShapes`, `ShapeMatcher`, `Lexer`, `TemplateScanner`,
  `CommentStripper`, `LexerMeaning`, `StripAgain`, `TemplateExpansion`, `ExpansionMeaning`,
  `ExpansionRuns`, `HoleReading`, `MixedSegments`, `SourceLines`, `LinkLedger`,
  `LinkEndToEnd`, `LinkScope`, `DeadShapes`, `LinkGate`: the link gate
  (`scripts/link-integrity-check.js`), from the backtracking route matcher and the two
  lexers to the reconciliation against the baseline and the claims a green run and a dead
  shape make about links at run time.
- `PromText`, `PromShield`, `PromWalk`: the PromQL gauge check
  (`scripts/observability-check.js`) on text, and the same decision on expression trees.
  `PromMeaning` says what aggregation computes over label vectors and what identical
  replicas do to it; `PromExactness`, `PromQuantile`, `PromQuantileShield` and
  `PromRelabel` say exactly where a trusted shield is right. `PromRender`,
  `PromRoundTrip`, `PromMask`, `PromNames`, `PromSound` and `PromGate` carry the claim
  from trees to the text that is checked, selectors, quoted text and ranges included;
  `PromSums` and `PromTypes` say what is reported, over the declared types; `PromLabels`
  says where the text of a correct reference cannot be read.
- `TenantCensus`, `RoleWrites`: the foreign-key closure, the census assertions and the
  role write policies (`scripts/rls-isolation-check.js`).
- `DrillVerdict`, `DrillFaults`, `DrillLifecycle`: the restore drill
  (`scripts/restore-drill.js`), its manifest comparison, its verdict fault by fault, and
  the life of its scratch database.
- `ComposeProfiles`, `AuditSiteKeys`, `SourceColumns`: profile reachability
  (`scripts/compose-invocation-check.js`), site keys (`scripts/audit-write-check.js`) and
  the line splitter (`scripts/production-artefact-check.js`).
- `Text`: the string functions the scripts share.

Loops are methods over the variables the scripts use, each proved against a function; the
lemmas are about those functions. What a run cannot decide for itself (a query's answer,
a signal, a declared union, the meaning of a PromQL function) is a parameter.

Where a claim is false of the code, the code is kept, a concrete input shows the failure,
and the exact condition under which the claim holds is proved:

- Shape matching agrees with route matching exactly for templates that do not end in an
  optional catch-all (`ShapeMatcher.ShapeExactIff`).
- A dead shape is reported with the words that it resolves for no value of its variables.
  A value may spell several segments, or none, or cut the rest away
  (`DeadShapes.SlashEscapes`); `DeadShapes.DiesWithIff` says which runs a dead shape
  condemns, over all inventories without trailing optional catch-alls.
- The expander gives every hole a value of its own. Where one expression stands in two
  segments it makes targets no run produces (`ExpansionRuns.OneNameTwice`), so the gate can
  report a correct link as dead; elsewhere the targets are exactly the runs
  (`ExpansionRuns.ExactForProgramsIff`).
- A template cut at an interpolation that joins a segment keeps the text in front of it,
  but not its empty segments (`MixedSegments.EmptySegmentIsLost`): the target is that text
  exactly when it has none (`MixedSegments.PlainFrontIff`).
- A baseline may hold two rows of one key. Only the last is asked for its reason and its
  finding (`LinkLedger.EarlierRowIsNotAsked`).
- Stripping comments twice is not stripping once
  (`StripAgain.StrippingIsNotIdempotent`): a blanked comment can turn a division into a
  regex. `StripAgain.IdempotentIff` is the condition: every division stands, or behind the
  first that does not nothing reads as a comment.
- The comment beside `REPLICA_IDEMPOTENT_AGGREGATIONS` calls `quantile` safe because any
  quantile of copies of one value is that value. The code trusts it for every share and
  every group. For a group it is safe at every share exactly when the group holds one
  value (`PromQuantile.QuantileIgnoresReplicasIff`); for a share it is safe in every group
  exactly at 0, 1/2 and 1 (`PromQuantile.ShareIgnoresReplicasIff`), and so is the sum
  above it (`PromQuantileShield.QuantileShieldIff`).
- A `without (...)` shield is trusted when it names one replica label; it is sound exactly
  when the replicas agree on the ones it does not name (`PromExactness.WithoutShieldIff`).
- The walk looks at shields, not below them: a `count` under a shield passes
  (`PromExactness.CountBelowShieldIsUnsound`). Over one metric the exact condition is
  `PromExactness.SumIsExactIff`: what is added or counted below must still tell apart the
  replicas its argument tells apart. The soundness theorem asks the same of shields over
  larger expressions (`PromMeaning.Sensible`), and of paired operands that they tell the
  same replicas apart.
- Nor does the walk look at labels. Below an accepted shield `label_replace` can carry the
  replicas into a label that is kept; `PromRelabel.CopyShieldIff` is the condition for a
  copied label, and the soundness theorem asks that functions below a shield leave the
  replica labels alone (`PromMeaning.ShieldsLeaveLabels`).
- The comment on `sumAggregationArguments` says that a label called `sum` is no
  aggregation. The code reads it as one and reports the expression as unreadable
  (`PromLabels.LabelCalledSum`, `PromLabels.ReferenceIsReadIff`). The same holds of a label
  that a modifier lists; of the rest of a written expression everything is readable
  (`PromTypes.WhatIsReported`).
- Row security is asserted as a count only (`TenantCensus.RowSecurityIsOnlyCounted`).
- A system role of a tenant's own school is not protected: deleting the school takes it
  along (`RoleWrites.ReachIff`).
- The comment on required evidence says that absence is never agreement. The code asks for
  seven pieces; a run may pass without any of the others, exactly as
  `DrillVerdict.WhatMayBeAbsent` says. Where only one manifest holds a schema, it is
  compared with nothing (`DrillVerdict.BareRunIsOk`).
- In the line splitter a backslash that ends a line inside a quote makes the columns one
  longer than the line (`SourceColumns.ColumnLength`).

## Model

| member | source | states |
|---|---|---|
| RouteMatcher.MatchTemplateIffTiles | scripts/link-integrity-check.js:257-283 | A template matches exactly when the target splits into consecutive slices, one per segment, of the lengths that segment allows; the capture and catch-all flags depend on the template alone, so the order in which takes are tried does not matter |
| RouteMatcher.WalkSound | scripts/link-integrity-check.js:257-283 | Every success of the backtracking walk is witnessed by such a split of the target |
| RouteMatcher.WalkComplete | scripts/link-integrity-check.js:257-283 | Whenever a split exists, the greedy walk finds one, whatever it tried first |
| RouteMatcher.ResolveTarget | scripts/link-integrity-check.js:293-312 | The loop with its early exit returns the highest verdict any route gives the target, and the route it names gives it |
| RouteMatcher.ClassifyOrderIrrelevant | scripts/link-integrity-check.js:293-316 | The verdict depends on which routes exist, not on their order or repetition |
| RouteMatcher.ClassifyMonotone | scripts/link-integrity-check.js:293-316 | Adding routes never lowers a verdict |
| RouteMatcher.ClassifyMeaning | scripts/link-integrity-check.js:293-316 | What each verdict says without the matcher; a target is a dynamic capture exactly when some route matches and every matching route has a `[param]` |
| RouteMatcher.VerdictMeaning | scripts/link-integrity-check.js:293-312 | The verdict of one route in terms of the splits of the target |
| RouteShapes.BracketBehindWords | scripts/link-integrity-check.js:218-283 | As they are written: behind literal words `[name]` takes exactly one segment and captures, `[...name]` one or more, `[[...name]]` any number, and nothing else matches |
| RouteShapes.KindsAsWritten | scripts/link-integrity-check.js:222-235 | Which segments stand for others, as they are written: three dots in two pairs of brackets, three dots in one, one pair without dots |
| RouteShapes.WordsMatch | scripts/link-integrity-check.js:257-283 | A route of words matches itself and nothing else |
| RouteShapes.GroupIsInvisible | scripts/link-integrity-check.js:217-220 | A segment in parentheses makes no difference to what a route answers for any target, wherever it stands |
| RouteShapes.NoGroupsNoChange | scripts/link-integrity-check.js:217-220 | Every segment not in parentheses is part of the template |
| ShapeMatcher.MatchShapeMeaning | scripts/link-integrity-check.js:333-362 | For every template: a shape matches exactly when some replacement of each `*` by a segment gives a target that splits over the template with the last template segment not empty |
| ShapeMatcher.ShapeExact | scripts/link-integrity-check.js:333-362 | Without a trailing optional catch-all, a shape matches exactly when some replacement of its stars makes the strict matcher succeed |
| ShapeMatcher.ShapeExactIff | scripts/link-integrity-check.js:333-362 | Exactly which templates make the shape check exact: those that do not end in an optional catch-all; for any other a target is exhibited that the two matchers judge differently |
| ShapeMatcher.ClassifyPattern | scripts/link-integrity-check.js:356-362 | The loop answers alive exactly when some route has the shape |
| ShapeMatcher.DeadShapeResolvesForNoValue | scripts/link-integrity-check.js:1482-1486 | A dead shape resolves for no replacement of each `*` by one segment, over an inventory without trailing optional catch-alls |
| Lexer.SkipQuoted | scripts/link-integrity-check.js:470-488 | The loop ends behind the first unescaped quote, at the first unescaped line break before it, or with the source, one past it when a backslash ends it |
| Lexer.SkipRegex | scripts/link-integrity-check.js:490-522 | The loop ends behind the first unescaped slash outside a character class, and says division when an unescaped line break or the end comes first |
| Lexer.StepTouchesTop | scripts/link-integrity-check.js:639-720 | A step changes the top frame only, or pushes or pops one, and the bottom frame is never popped |
| Lexer.StackMovesAt | scripts/link-integrity-check.js:639-720 | Exactly which characters move the stack: backticks and closing braces in code, backticks and interpolations in template text |
| LexerMeaning.RegexBehindOperator | scripts/link-integrity-check.js:403-426 | Behind an opening parenthesis or any other listed operator, white space between or not, a slash opens a regex that is read over whole: what quotes, backticks and slashes it holds open nothing, for the scanner and for the stripper |
| LexerMeaning.SlashBehindWord | scripts/link-integrity-check.js:403-446 | Behind a listed keyword a slash opens a regex in the same way; behind every other word it divides |
| LexerMeaning.RegexAtStart | scripts/link-integrity-check.js:403-446 | With nothing in front of it a regex may stand as well |
| LexerMeaning.RegexBehindBrace | scripts/link-integrity-check.js:403-426 | Behind a brace that opens, one that closes and the one of an interpolation, a regex may stand; the brace moves the depth by one |
| LexerMeaning.DivisionBehindMark | scripts/link-integrity-check.js:403-446 | Behind a closing parenthesis or bracket, a dot or a digit a slash divides, whatever follows it |
| LexerMeaning.QuotesEndOperands | scripts/link-integrity-check.js:524-720 | A string and a template literal end an operand, so a slash behind them divides |
| LexerMeaning.OpenRegexDivides | scripts/link-integrity-check.js:490-522 | Where no slash closes a regex before the line ends, the slash divides |
| LexerMeaning.TagIsClosed | scripts/link-integrity-check.js:430-446 | Glued to an opening angle bracket a slash closes a tag and opens no regex |
| LexerMeaning.InterpolationCloses | scripts/link-integrity-check.js:639-720 | The scanner is back in template text at exactly the brace at which the expander closes the interpolation |
| LexerMeaning.TextCloses | scripts/link-integrity-check.js:639-720 | Template text runs up to its first unescaped backtick and closes there |
| LexerMeaning.TextOpensCode | scripts/link-integrity-check.js:639-720 | An unescaped dollar and brace in template text open code |
| LexerMeaning.CommentCloses | scripts/link-integrity-check.js:524-622 | A line comment ends at the first line break, a block comment behind the first closing mark after its own, either with the source where there is none |
| TemplateScanner.ScanTemplateLiterals | scripts/link-integrity-check.js:639-720 | The scanner loop reports the literals and the open ends of the backticks read along the run |
| TemplateScanner.ScanStructure | scripts/link-integrity-check.js:639-720 | Every opening backtick is reported exactly once, closed or open at the end; each literal is the text between its two backticks; any two are disjoint or nested |
| TemplateScanner.ScanLiterals | scripts/link-integrity-check.js:639-720 | Each closed literal is the text between its two backticks and each open one what follows its only one, both with the offset they begin at |
| TemplateScanner.OpenedOnce | scripts/link-integrity-check.js:639-720 | Openings are conserved: those closed and those left open make up all that were read |
| TemplateScanner.TicksAscend | scripts/link-integrity-check.js:639-720 | Backticks are read left to right, each once |
| TemplateScanner.SpansPlaced | scripts/link-integrity-check.js:639-720 | Closed literals nest or lie apart, also against those still open |
| CommentStripper.StripCommentsPreservingLines | scripts/link-integrity-check.js:524-622 | The in-place loop over the character array blanks exactly the comments the machine reads |
| CommentStripper.StripPreserves | scripts/link-integrity-check.js:524-622 | Length survives, line feeds and carriage returns survive, and of the other characters exactly those in a comment are blanked |
| CommentStripper.CommentsInOrder | scripts/link-integrity-check.js:524-622 | Comments are read left to right, do not overlap, open with a comment mark and end where the source's loops end them |
| CommentStripper.CommentsOpenInCode | scripts/link-integrity-check.js:524-622 | A comment is read exactly where the machine comes to a comment mark in code |
| CommentStripper.UnchangedIffNoComment | scripts/link-integrity-check.js:524-622 | Nothing is blanked exactly when no comment is read |
| CommentStripper.NoCommentInStep | scripts/link-integrity-check.js:524-720 | Where nothing is blanked the stripper and the template scanner agree on index, token and stack at every step |
| CommentStripper.StepsAgreeIffDivisionsStand | scripts/link-integrity-check.js:524-720 | Exactly when the scanner reads the stripped text step by step as the stripper read the source: every slash read as division must still be division |
| CommentStripper.ScanOfStripped | scripts/link-integrity-check.js:524-720 | Under that condition the scan of the stripped text finds the literals the stripper saw |
| StripAgain.IdempotentIff | scripts/link-integrity-check.js:524-622 | Stripping twice is stripping once exactly when every slash read as division is still division in the output, or behind the first that is not the scanner reads no comment |
| StripAgain.IdempotentWhereDivisionsStand | scripts/link-integrity-check.js:524-622 | Where every division stands, stripping again changes nothing |
| StripAgain.StrippingIsNotIdempotent | scripts/link-integrity-check.js:524-622 | A source where a division falls and the second pass blanks text the first kept |
| StripAgain.FallMayDoNoHarm | scripts/link-integrity-check.js:524-622 | A source where a division falls and the second pass changes nothing, so standing divisions are not necessary |
| TemplateExpansion.CloseHole | scripts/link-integrity-check.js:741-776 | The scan ends behind the first brace at which the depth of braces is back at zero, escapes skipped and quoted stretches passed over, and finds none where no brace does that |
| TemplateExpansion.MaskInterpolations | scripts/link-integrity-check.js:741-776 | The masker's loop writes one numbered mask per interpolation and lists the expressions in order |
| HoleReading.HoleIsItsExpression | scripts/link-integrity-check.js:741-776 | An interpolation is recorded as the expression written in it, white space around it taken off |
| HoleReading.QuotedIsPassed | scripts/link-integrity-check.js:741-776 | Braces in quotes, of any of the three kinds, neither open nor close an interpolation |
| TemplateExpansion.CollectUnions | scripts/link-integrity-check.js:918-989 | The lookup loop finds the declared union of every whole-segment hole, or says that one is missing |
| TemplateExpansion.CrossProduct | scripts/link-integrity-check.js:918-989 | The nested loops build exactly the product of the alternatives, segment by segment |
| TemplateExpansion.ExpandTemplateTarget | scripts/link-integrity-check.js:918-989 | The expander's verdict and targets for one literal: unparsed, a shape, or the full list |
| ExpansionMeaning.MaskReadBack | scripts/link-integrity-check.js:727-776 | A masked segment is read back as a hole exactly when it is that hole and nothing else, and counts as mixed exactly when it joins a hole with other pieces |
| ExpansionMeaning.ProductsMeaning | scripts/link-integrity-check.js:918-989 | The products are exactly the paths that one choice per segment can spell |
| ExpansionMeaning.PathRender | scripts/link-integrity-check.js:237-245 | Cutting and splitting a path commutes with writing the values into its template |
| ExpansionMeaning.ExpansionIsExact | scripts/link-integrity-check.js:918-989 | For a template whose path holes are whole segments with declared unions, the expansions are the cross product: what is spelled when every hole takes a member of its union on its own |
| ExpansionRuns.EveryRunIsATarget | scripts/link-integrity-check.js:918-989 | Every value a program can give such a template, one value per expression, is among the targets |
| ExpansionRuns.ExactForProgramsIff | scripts/link-integrity-check.js:918-989 | The targets are exactly the values a program can give the template if and only if no expression with two different members stands in two segments of the path |
| ExpansionRuns.OneNameTwice | scripts/link-integrity-check.js:959-982 | For the template slash-p-slash-p with two members of `p`, a target no run produces |
| HoleReading.ExpandedIffDeclared | scripts/link-integrity-check.js:918-989 | Of a template with whole-segment interpolations the targets are listed exactly when all of those are variables with a declared union; otherwise its shape is reported |
| HoleReading.UnclosedIsUnparsed | scripts/link-integrity-check.js:741-776 | A template with an interpolation that never closes is not read, whatever is declared |
| HoleReading.TargetsAreDistinct | scripts/link-integrity-check.js:959-989 | No target is listed twice |
| MixedSegments.MixedExpandsAsItsFront | scripts/link-integrity-check.js:937-949 | A template with an interpolation that joins a segment expands to what the text in front of that interpolation expands to, whole-segment unions included: the literal start of the segment is kept and nothing behind it matters |
| MixedSegments.PlainFrontIff | scripts/link-integrity-check.js:937-949 | Where that text holds no interpolation, the one target is the text itself, normalized, exactly when none of its segments is empty |
| MixedSegments.EmptySegmentIsLost | scripts/link-integrity-check.js:937-949 | A path with an empty segment in front of a joined interpolation, whose one target is another path |
| MixedSegments.MixedRunIsATarget | scripts/link-integrity-check.js:937-949 | Whenever the joined interpolation and what follows it evaluate to nothing, a query or a fragment, the run of the program is among the targets |
| MixedSegments.HoleBehindFront | scripts/link-integrity-check.js:741-776 | Behind such a text every closed interpolation is one more hole with the pieces in front unchanged, so the three results above speak of every parsed template of that form |
| ExpansionMeaning.NormalizeIdempotent | scripts/link-integrity-check.js:237-245 | Normalizing a target twice is normalizing it once |
| SourceLines.FindLineStarts | scripts/link-integrity-check.js:1138-1141 | The loop lists offset 0 and every offset behind a line break |
| SourceLines.LineOf | scripts/link-integrity-check.js:1142-1151 | The binary search returns the line an offset lies on |
| SourceLines.LineCountsLines | scripts/link-integrity-check.js:1138-1151 | The line of an offset is the number of lines the text up to it splits into |
| SourceLines.StrippingKeepsLines | scripts/link-integrity-check.js:524-622 | A line number in the stripped text is the line number in the source |
| LinkLedger.ClassifyAll | scripts/link-integrity-check.js:1301-1531 | The report holds exactly the problems the input has; targets = alive + dead + captures, and dead = prefix constants + debt |
| LinkLedger.JudgeTarget | scripts/link-integrity-check.js:1362-1443 | What one target adds to the report and the counts |
| LinkLedger.JudgeShape | scripts/link-integrity-check.js:1473-1518 | What one shape adds to the report and the counts |
| LinkLedger.FindStale | scripts/link-integrity-check.js:1445-1528 | Baseline rows nothing stands under any more, in both sections |
| LinkLedger.CleanIffRatchet | scripts/link-integrity-check.js:1301-1531 | The verdict is clean exactly when there are no captures and no unread rows, dead targets and dead shapes equal the two baseline key sets, the row in force for every key, the last one, is reasoned and owned, and no prefix constant is navigated to |
| LinkLedger.GreenRowsAnswer | scripts/link-integrity-check.js:1392-1408 | Behind a green gate the row in force for every key gives a reason that is not white space and names its finding |
| LinkLedger.EveryRowAnswers | scripts/link-integrity-check.js:1392-1408 | Where no key has two rows that is every row of the baseline |
| LinkLedger.EarlierRowIsNotAsked | scripts/link-integrity-check.js:1316-1317 | A row that another row of its key follows is asked for nothing: put in front of a baseline, it leaves a green gate green |
| LinkLedger.FindingIdIff | scripts/link-integrity-check.js:1392-1407 | A finding is named by one of the four prefixes and digits, and nothing else is one |
| LinkLedger.PrefixConstantIff | scripts/link-integrity-check.js:1409-1432 | A prefix constant is refused exactly when its target is dead, the row in force declares it, and some reference navigates to it |
| LinkLedger.UpdateRefusesIff | scripts/link-integrity-check.js:1692-1718 | The update refuses exactly when some target is a dynamic capture: a dead target without a row never stops it |
| LinkLedger.UpdateIsTheDebt | scripts/link-integrity-check.js:1692-1736 | Otherwise the rows are exactly the dead targets and the dead shapes, one each; a key without a previous row gets an empty reason and finding, and a known one keeps those of its last row |
| LinkLedger.UpdateIsFixpoint | scripts/link-integrity-check.js:1693-1736 | Updating again, before anything is filled in, changes nothing |
| LinkLedger.FilledUpdateIsFixpoint | scripts/link-integrity-check.js:1693-1736 | Updating a ceiling whose reasons and findings were filled in changes nothing |
| LinkLedger.UpdateThenGreen | scripts/link-integrity-check.js:1693-1736 | After an update, with reasons and findings supplied, the gate is green exactly when every template was parsed and no prefix constant is navigated to |
| LinkEndToEnd.ExtractTemplates | scripts/link-integrity-check.js:1117-1210 | The extraction over one file: comments go, literals are scanned over the whole text, rows and references follow, each citing the line it opens on |
| LinkEndToEnd.CitedIff | scripts/link-integrity-check.js:1155-1206 | What a file cites is exactly the in-scope targets of its literals, each on the line its literal opens on, and as a navigation exactly where that line is one |
| LinkEndToEnd.RowsIff | scripts/link-integrity-check.js:1155-1195 | Which rows a file gives: one for a literal that cannot be read, for an in-scope shape, for a literal with some in-scope target, and for every open literal, of those that begin with a slash |
| LinkScope.PathInScopeIff | scripts/link-integrity-check.js:992-1009 | A path of words is looked at exactly when the first begins with a letter and is none of the framework's, the first two are not the API's, and the last is no file name |
| LinkScope.OutOfScope | scripts/link-integrity-check.js:992-1009 | Nothing with another character in it, without a slash in front or with two, is looked at |
| LinkScope.ShapeInScopeIff | scripts/link-integrity-check.js:1019-1025 | A shape is looked at exactly when it is with a placeholder word for every star |
| LinkEndToEnd.CitedIsGathered | scripts/link-integrity-check.js:1194-1206 | Passing on every cited reference gathers every target read from the literals |
| LinkEndToEnd.RunIsRead | scripts/link-integrity-check.js:918-989 | The targets read from a fully declared literal include every in-scope run of it |
| LinkEndToEnd.GreenMeansEveryRunResolves | scripts/link-integrity-check.js:1203-1205 | A green gate on an empty baseline: every in-scope value a fully declared template takes at run time resolves as an exact route or a catch-all |
| LinkEndToEnd.RunsAreInstances | scripts/link-integrity-check.js:918-989 | Whatever its holes take, as long as each value is one segment without a slash, `?` and `#`, a template runs to an instance of the pattern reported for it |
| DeadShapes.DeadShapeNeverResolves | scripts/link-integrity-check.js:1482-1486 | For such values, one segment each, a shape reported dead resolves for no run of its template over an inventory without trailing optional catch-alls |
| DeadShapes.DiesWithIff | scripts/link-integrity-check.js:1482-1486 | A target is dead over every inventory without trailing optional catch-alls in which a pattern is dead, exactly when both have as many segments and each segment of the pattern is `*`, is the target's, or meets a segment no route can spell literally |
| DeadShapes.DeadShapeIff | scripts/link-integrity-check.js:1482-1486 | So exactly which runs of a template the dead shape reported for it condemns, for all values of its holes |
| DeadShapes.SlashEscapes | scripts/link-integrity-check.js:1482-1486 | A value that spells two segments: the shape is reported dead and the run is an exact route |
| LinkGate.ScanSources | scripts/link-integrity-check.js:1094-1215 | The pass over all files of an application puts together what each file's extraction gives |
| LinkGate.GreenSourcesResolve | scripts/link-integrity-check.js:1203-1205 | A green gate on an empty baseline, said of source texts: every fully declared template of any file resolves for every in-scope value it takes at run time |
| LinkGate.GreenSourcesAreRead | scripts/link-integrity-check.js:1155-1195 | Behind a green gate without baselined shapes, every template that begins with a slash was read, and every in-scope shape is alive |
| PromText.ScanQuotedSpans | scripts/observability-check.js:381-404 | The loop returns the mask and whether a quote is left open |
| PromText.MaskIdempotent | scripts/observability-check.js:381-404 | Masking again changes nothing and leaves the same quote open; the mask has the length of the text |
| PromText.QuotedIsBlanked | scripts/observability-check.js:381-404 | A text in double, single or back quotes is blanked between them and reading goes on behind; without the closing quote it stays open |
| PromText.VisibleIsOutside | scripts/observability-check.js:381-404 | What the mask shows besides blanks and quotes stands outside quotes, and stands there in the text |
| PromText.MatchingParen | scripts/observability-check.js:654-672 | The loop returns the parenthesis that brings the depth back to zero, quotes respected |
| PromText.MatchingParenOnMask | scripts/observability-check.js:654-672 | From any position outside quotes the matching parenthesis is the same on the mask and on the text |
| PromText.ClosedIsBalanced | scripts/observability-check.js:654-672 | What lies before a matching parenthesis is balanced |
| PromText.SumAggregationArguments | scripts/observability-check.js:286-340 | The loop returns the direct argument of every `sum` in order, and says whether anything could not be read |
| PromText.ArgumentsAreBalanced | scripts/observability-check.js:286-340 | Every argument sliced out has balanced unquoted parentheses and closed quotes, although it was found on the mask |
| PromShield.RemovesReplicasMeaning | scripts/observability-check.js:505-515 | A bare or `by` modifier is trusted exactly when it keeps no replica label, a `without` as soon as it drops one |
| PromMeaning.AggregateScrape | scripts/observability-check.js:467-487 | Aggregating what the replicas publish gives one copy of the aggregate per distinct set of kept labels, for max, min, avg and group always, for sum and count where no two replicas fall together |
| PromMeaning.ChainLabels | scripts/observability-check.js:467-487 | Whatever aggregations do to the values, the labels are those of one copy per replica still told apart |
| PromMeaning.ReduceTimes | scripts/observability-check.js:467-470 | max, min, avg and group ignore how many copies of a group they see |
| PromMeaning.ScrapeCommutes | scripts/observability-check.js:487-515 | Evaluating an expression over scraped replicas gives its value once for every way the replicas can still be told apart |
| PromMeaning.KeepingKeepsApart | scripts/observability-check.js:505-515 | A modifier that keeps every replica label its argument can carry tells all replicas apart, so a sum under it may stand below a shield |
| PromMeaning.SteadyIsExact | scripts/observability-check.js:487-515 | Behind a sound shield the value is that of the vectors themselves, for every set of replicas |
| PromMeaning.CleanIsSteady | scripts/observability-check.js:543-651 | Where the walk reports nothing, every gauge stands below a sound shield |
| PromMeaning.ShieldIsSound | scripts/observability-check.js:543-651 | When the walk reports nothing for the argument of a `sum` over gauges, the sum is equal for all non-empty sets of identical replicas, provided the outermost shields are no `without`, what is below them keeps replicas apart where it adds or counts, and functions below them leave replica labels alone |
| PromMeaning.SumCountsReplicas | scripts/observability-check.js:487-501 | A `sum` or `count` that keeps no replica label multiplies its value by the number of replicas it can still tell apart |
| PromMeaning.FlaggedSumIsMultiplied | scripts/observability-check.js:543-651 | A flagged `sum by (...) (gauge)` is exactly the number of replicas times the one-replica value |
| PromRelabel.CopyShieldIff | scripts/observability-check.js:543-651 | Below an accepted `max by` shield a function may copy a label, as `label_replace` does: the sum counts replicas once exactly when the copy is not kept or the replicas agree on what is copied |
| PromRelabel.ResourceCopyLeaves | scripts/observability-check.js:543-651 | Copying a label of the resource is among the functions the soundness theorem admits |
| PromExactness.SumIsExactIff | scripts/observability-check.js:487-515 | A sum over aggregations of one gauge, sums and counts below it included, reads every resource once exactly when the replicas agree on every replica label that is still kept and no sum or read count below lets two of them fall together |
| PromExactness.MergingShows | scripts/observability-check.js:467-487 | A sum or count that lets replicas fall together makes some value too great, and no max, avg, sum or count above it hides that |
| PromExactness.MinCanHide | scripts/observability-check.js:467-487 | A `min` above can hide it: a chain in which replicas fall together and the sum is exact all the same |
| PromExactness.SumBelowShieldIff | scripts/observability-check.js:543-651 | A sum or count below a shield the walk accepts is sound exactly when its own modifier tells every two replicas apart |
| PromExactness.WithoutShieldIff | scripts/observability-check.js:513 | A `without (...)` shield the walk trusts is sound exactly when the replicas agree on every replica label its list does not name |
| PromExactness.CountBelowShieldIsUnsound | scripts/observability-check.js:543-651 | A bare `count` below a shield passes the walk, and the sum is the number of processes |
| PromQuantile.QuantileOfOneValue | scripts/observability-check.js:470 | Any quantile of copies of one value is that value |
| PromQuantile.QuantileIgnoresReplicasIff | scripts/observability-check.js:467-487 | For a group: all quantiles ignore any number of copies exactly when the group holds one value |
| PromQuantile.ShareIgnoresReplicasIff | scripts/observability-check.js:467-487 | For a share: its quantile ignores any number of copies in every group exactly when it is the least, the greatest or the median |
| PromQuantileShield.QuantileShieldIff | scripts/observability-check.js:487-501 | The walk trusts a bare `quantile` for every share; the sum above it is right exactly for the least, the greatest and the median |
| PromQuantileShield.QuantileIsSteady | scripts/observability-check.js:487-501 | For those three shares a `quantile` under any trusted modifier but `without` has the same value for all sets of replicas |
| PromQuantile.SomeQuantileMoves | scripts/observability-check.js:467-487 | For any group of differing values, a share whose quantile two replicas change |
| PromWalk.UnshieldedGaugeReferences | scripts/observability-check.js:543-651 | The recursive walk with its accumulators returns the unshielded families and whether anything was unreadable |
| PromWalk.OpenQuoteIsUnreadable | scripts/observability-check.js:543-651 | A text that ends inside a quote is reported as unreadable, whatever it reads |
| PromWalk.GaugeWalk.Descend | scripts/observability-check.js:552-649 | One level of the walk adds exactly its own reading to the accumulators |
| PromWalk.GaugeWalk.Consume | scripts/observability-check.js:562-634 | The loop over the tokens, with its list of consumed stretches, reads exactly the outermost aggregations of the level |
| PromRender.AggIsRead | scripts/observability-check.js:562-624 | An aggregation written out is read back with its operator, its modifier and its argument, the modifier in front or behind |
| PromRender.EveryOperatorIsRead | scripts/observability-check.js:441-454 | Each of the twelve aggregations across series is read as one, and no other name is |
| PromMask.MaskOfRender | scripts/observability-check.js:381-404 | The mask of a written expression is the expression with the quoted contents of its selectors blanked, written out, and no quote is left open |
| PromRoundTrip.BlocksOfRender | scripts/observability-check.js:562-624 | The aggregations read from the mask of a written expression are its outermost ones, each with its argument |
| PromRoundTrip.ResidualOfRender | scripts/observability-check.js:638-642 | Blanking what was consumed leaves the rest of the expression in place |
| PromNames.SelectorsAreStripped | scripts/observability-check.js:232-240 | From what is left of a written expression exactly the selectors and the ranges are stripped, each for one blank, and nothing else is |
| PromNames.NamesOfLeft | scripts/observability-check.js:242-252 | The names read from what is left are those of the metrics outside the aggregations; calls are passed over |
| PromNames.KeywordsAreNoNames | scripts/observability-check.js:200-252 | The words of the language are never read as metrics, in either case |
| PromNames.CalledNameIsNone | scripts/observability-check.js:242-252 | A name is no metric where a parenthesis opens behind it, white space between or not |
| PromSound.WalkOfRender | scripts/observability-check.js:543-651 | Walking the text of an expression, selectors with any quoted contents and ranges included, reports exactly what walking its tree reports, and nothing is unreadable |
| PromSound.ModifierPlaceIsIrrelevant | scripts/observability-check.js:573-615 | Wherever each modifier stands, in front of its argument or behind it, every aggregation on its own, the report is the same |
| PromSound.AcceptedTextIsSound | scripts/observability-check.js:543-651 | A `sum` whose argument text the walk accepts is equal for all sets of identical replicas, on the conditions of the tree-level claim |
| PromGate.EvaluateGaugeAggregation | scripts/observability-check.js:1120-1178 | The check over all panels reports nothing exactly when types are declared and every expression is accepted; each problem is one that some expression gives, and every family named is declared a gauge |
| PromGate.EverySumIsFound | scripts/observability-check.js:286-340 | Every `sum` of an expression, at any depth, is found on the mask of its text, and the stretch of text between the parentheses found is its argument |
| PromGate.AcceptedExpressionIsSound | scripts/observability-check.js:1120-1178 | When the check accepts the text of an expression, every `sum` in it over gauges is equal for all sets of identical replicas, on the same conditions |
| PromSums.EveryTokenIsAccounted | scripts/observability-check.js:286-340 | The converse of EverySumIsFound: every `sum` the scanner comes to on the mask of a written expression is a sum of its tree, read with its own argument, or a label of a modifier called `sum`, read with none |
| PromTypes.TreeWalkMeaning | scripts/observability-check.js:487-651 | The walk names a family exactly when some reference reads it, by its own name or with a histogram's suffix, and no trusted aggregation stands around that reference; the trusted operators and the replica labels are spelled out |
| PromTypes.WhatIsReported | scripts/observability-check.js:1120-1178 | Over the declared types: a written expression is unreadable exactly when a modifier lists a label called `sum`; otherwise the report names exactly the families declared `gauge` that some `sum` of it reads with no shield in between |
| PromTypes.NoGaugeNoReport | scripts/observability-check.js:1120-1178 | An expression that reads no family declared `gauge`, a summed counter for one, is not reported |
| PromTypes.SummedGaugeIsReported | scripts/observability-check.js:1120-1178 | A `sum` straight over a family declared `gauge` is reported with that family |
| PromTypes.ShieldedIsAccepted | scripts/observability-check.js:1110-1118 | The idiom the message recommends, a `sum` over `max by` or another trusted aggregation around the gauge, is not reported |
| PromTypes.SilenceIsSound | scripts/observability-check.js:1120-1178 | An empty report over the declared types makes every `sum` on the dashboards over families declared `gauge` equal for all sets of identical replicas, on the conditions of the tree-level claim |
| PromLabels.ReferenceIsReadIff | scripts/observability-check.js:262-268 | A metric reference is readable, by itself and under a `sum`, exactly when no label of it is called like an aggregation, or like `sum` |
| PromLabels.LabelCalledSum | scripts/observability-check.js:262-268 | With a label called `sum` a correct reference is unreadable |
| TenantCensus.DerivedSet | scripts/rls-isolation-check.js:584-607 | The recursive query, each round over the rows the last one added, stops on cyclic foreign keys and yields exactly the unscoped tables with some chain to a table carrying `tenant_id` |
| TenantCensus.DerivedIsLeast | scripts/rls-isolation-check.js:584-607 | The derived set is contained in every set closed under the recursive term: it is the least fixpoint |
| TenantCensus.CensusForcesThePolicies | scripts/rls-isolation-check.js:2420-2500 | Residue names, policy count, granted names and granted count together force the policied tables to be exactly the scoped, derived and auto-discriminant ones, pairwise disjoint |
| TenantCensus.CensusAcceptsTheRightPolicies | scripts/rls-isolation-check.js:2420-2500 | Where policies, grants and names are right, all four assertions hold |
| TenantCensus.ResidueIsNeeded | scripts/rls-isolation-check.js:2454-2459 | Without the residue names a derived table can lose its policy unseen |
| TenantCensus.PolicyCountIsNeeded | scripts/rls-isolation-check.js:2466-2470 | Without the policy count the reference surface can gain a policy unseen |
| TenantCensus.GrantNamesAreNeeded | scripts/rls-isolation-check.js:2483-2488 | Without the granted names a derived table can swap its policy with the reference surface |
| TenantCensus.GrantCountIsNeeded | scripts/rls-isolation-check.js:2496-2500 | Without the granted count the same swap hides behind a missing grant |
| TenantCensus.RowSecurityIsOnlyCounted | scripts/rls-isolation-check.js:2461-2465 | All assertions can pass with row security on for the wrong tables |
| TenantCensus.RowSecurityIffPolicied | scripts/rls-isolation-check.js:2461-2465 | The count is exact exactly where row security is on for policied tables only |
| TenantCensus.Verdict.ExpectSetEqual | scripts/rls-isolation-check.js:934-949 | Set equality in both directions: one failure when a name is missing or unexpected, one line of evidence always |
| TenantCensus.Verdict.ExpectEqual | scripts/rls-isolation-check.js:922-925 | One failure when the numbers differ, one line of evidence always |
| TenantCensus.Verdict.RunCensus | scripts/rls-isolation-check.js:2384-2500 | The census section adds no failure exactly when the reading passes every assertion |
| TenantCensus.PassingCensusIsSafe | scripts/rls-isolation-check.js:2384-2500 | A passing census of a database: a table carries the policy exactly when it is scoped, reaches a tenant through foreign keys, or is the tenant dimension |
| TenantCensus.CensusPassesIff | scripts/rls-isolation-check.js:2384-2500 | Name by name: the census passes exactly for a database whose derived tables, tenant dimension and remaining tables are the named ones, whose grants are its policied tables and the shared ones, and whose policies, grants and row security have the added-up counts |
| TenantCensus.AutoDiscriminantIff | scripts/rls-isolation-check.js:612-633 | A table is the tenant dimension exactly when a foreign key points to it through the tenant column |
| Text.ItemsOfJoined | scripts/rls-isolation-check.js:952-957 | Reading back a comma list gives its names, and an empty cell gives none |
| RoleWrites.ProtectedRun | scripts/rls-isolation-check.js:1565-1704 | Over every run of tenant writes, with cascades, shared system roles, other tenants' school-scoped roles and the permission rows of both never change |
| RoleWrites.ReachIff | scripts/rls-isolation-check.js:1565-1704 | A role is out of a tenant's reach exactly when it is protected: any other role of any kind is changed by some run |
| RoleWrites.NoSystemRoleIsMade | scripts/rls-isolation-check.js:1631-1641 | No run makes a system role |
| RoleWrites.RefusalMatrix | scripts/rls-isolation-check.js:1626-1687 | Companion of ProtectedRun, read off the policies: the refusals of the write matrix, and which of them raise and which silently touch no row |
| RoleWrites.GuardsMustRestrict | scripts/rls-isolation-check.js:2292-2298 | Companion of ProtectedRun: guards composed permissively, or dropped, let every tenant rename a shared system role |
| RoleWrites.PermissiveGuardsCrossTenants | scripts/rls-isolation-check.js:2292-2298 | Companion of ProtectedRun: permissive guards also let a tenant delete another tenant's custom role; dropped guards do not |
| RoleWrites.SchoolLessCustomIsOpen | scripts/rls-isolation-check.js:1682-1697 | Companion of ReachIff: a custom role without a school is edited and deleted by every tenant |
| RoleWrites.ClearingTheSchoolPromotes | scripts/rls-isolation-check.js:1616-1624 | Clearing the school of an own role succeeds and opens the role to every other tenant |
| RoleWrites.WritesSucceedIff | scripts/rls-isolation-check.js:1565-1704 | Exactly which writes succeed: of roles that are no system roles and have no school or an own one, and of their permission rows, where the key is free or the row is there |
| RoleWrites.MadeAndTakenBack | scripts/rls-isolation-check.js:1565-1704 | A role made and granted has both rows, and taking it back leaves the tables as they were |
| RoleWrites.RenumberingKeepsRows | scripts/rls-isolation-check.js:1565-1704 | A renumbered role keeps its permission rows and no other role's change |
| RoleWrites.SchoolMovedAndBack | scripts/rls-isolation-check.js:2187-2190 | A renumbered school takes its roles along, and renumbered back all is as it was |
| RoleWrites.SchoolWrites | scripts/rls-isolation-check.js:2187-2190 | A deleted school takes exactly its own roles and their rows; a new one is empty |
| RoleWrites.Connection.DeleteSchool | scripts/rls-isolation-check.js:2187-2190 | Deleting an own school takes its roles one by one with their permission rows, system roles included, past every policy |
| DrillVerdict.BuildManifestDiff | scripts/restore-drill.js:275-316 | The comparison loops yield exactly the missing, unexpected and differing tables and schema entries, driven by the source |
| DrillVerdict.DiffSchema | scripts/restore-drill.js:320-340 | The schema comparison over the five kinds, skipped where one side was not read |
| DrillVerdict.DiffEmptyIff | scripts/restore-drill.js:275-316 | No table difference exactly when every source table stands in the restore as it is and the names are the same |
| DrillVerdict.NoDifferenceIsEquality | scripts/restore-drill.js:275-316 | With distinct names in the restore, no difference means the same tables |
| DrillVerdict.SchemaEmptyIff | scripts/restore-drill.js:320-340 | No schema difference exactly when all entries agree, or one side was not read |
| DrillVerdict.NoSchemaDifferenceIsEquality | scripts/restore-drill.js:320-340 | Between two schemas that were read, no difference means the same entries in each of the five kinds |
| DrillVerdict.EvaluateDrill | scripts/restore-drill.js:367-708 | The whole evaluation, stage by stage, as it runs |
| DrillFaults.FindingsAreFaults | scripts/restore-drill.js:367-708 | Which fault gives which verdict: for each of the verdicts, in terms of the input, exactly when it is among the findings and about which table or object |
| DrillFaults.VerdictIsTopFault | scripts/restore-drill.js:222-246 | The verdict of a run is the fault it shows that is ranked above all its others |
| DrillFaults.RestoreFailedIff | scripts/restore-drill.js:497-509 | The verdict is a failed restore exactly when the restore failed and none of the seven faults ranked above it holds |
| DrillFaults.ExitCodeIff | scripts/restore-drill.js:660-708 | The exit code is zero exactly when the run shows no fault, and one otherwise |
| DrillFaults.SloExceededIff | scripts/restore-drill.js:619-640 | A duration is too slow exactly beyond its recorded value times the tolerance, three where none is recorded |
| DrillFaults.WritableIffForgiven | scripts/restore-drill.js:692-698 | The baseline is writable exactly when every fault shown is one of the two that a new baseline answers |
| DrillVerdict.PickVerdict | scripts/restore-drill.js:222-246 | The loop over the precedence list returns the first verdict that was found |
| DrillVerdict.HighestPrecedence | scripts/restore-drill.js:222-246 | The verdict is the highest-ranked finding, and `ok` only where there is none |
| DrillVerdict.VerdictOkIff | scripts/restore-drill.js:367-708 | `ok` and exit code zero hold exactly when the seven required pieces of evidence are there (source reachable, restore result, both manifests, both ledgers, durations), there are at least fifty tables, the manifests agree, nothing else that was read speaks against the run, the tooling was there, no fault was injected and the scratch database is gone |
| DrillVerdict.WhatMayBeAbsent | scripts/restore-drill.js:405-437 | Of an `ok` run exactly this may be absent: anything but the seven required pieces, the schema of a manifest included, and the source's name only together with the scratch name |
| DrillVerdict.BareRunIsOk | scripts/restore-drill.js:405-437 | A run with the seven pieces and no role, route, scratch name, emptiness check, second manifest, migrations or baseline is `ok`, whatever schema one of the manifests holds alone |
| DrillVerdict.OkMeansRestored | scripts/restore-drill.js:419-523 | `ok` implies all required evidence, at least fifty tables, equal tables and, as far as both manifests hold a schema, equal schemas |
| DrillVerdict.NoEvidenceNoPass | scripts/restore-drill.js:419-437 | Removing any required evidence, or setting the fault flag, never leaves `ok` nor a writable baseline; no input at all is `unknown` |
| DrillVerdict.WritableIff | scripts/restore-drill.js:692-698 | The baseline is writable exactly from a faithful run, reviewed or not |
| DrillVerdict.WritableMeansRestored | scripts/restore-drill.js:692-698 | A writable baseline implies that the tables of source and restore agree and, as far as both manifests hold a schema, the schemas |
| DrillVerdict.DivergenceOutranksCleanup | scripts/restore-drill.js:215-221 | A run that diverges and fails to clean up reports the divergence and still lists the cleanup failure |
| DrillLifecycle.Drill.DropScratch | scripts/restore-drill.js:1357-1387 | A drop is sent exactly for a name that matches the scratch pattern and is not the source, checked just before it is sent |
| DrillLifecycle.Drill.Cleanup | scripts/restore-drill.js:1071-1075 | The cleanup drops a created scratch database once; run again it sends nothing |
| DrillLifecycle.Drill.SweepOrphans | scripts/restore-drill.js:1389-1404 | The sweep sends one drop for every leftover scratch-named database, and none for any other |
| DrillLifecycle.Drill.CreateScratch | scripts/restore-drill.js:1327-1348 | Creation touches no database but the scratch one, with its fallback |
| DrillLifecycle.Drill.Body | scripts/restore-drill.js:1096-1211 | Whatever fails, returns early, throws or is interrupted, the source survives, and a restored manifest means that the flag is up |
| DrillLifecycle.Drill.RunDrill | scripts/restore-drill.js:1213-1228 | For every plan of outcomes: only scratch-named databases are lost, the cleanup drops at most once, and exit code zero means that the scratch database is gone |
| DrillLifecycle.ExitZeroIff | scripts/restore-drill.js:1017-1228 | A run that is not interrupted exits with zero exactly when every step, from the tooling to the cleanup, gave what it should, nothing was injected, the scratch name is safe, and what was read shows no fault |
| DrillLifecycle.SourceFaults | scripts/restore-drill.js:1096-1128 | What a run shows when the tooling is missing, the source cannot be reached, or the route leads to another database |
| DrillLifecycle.DumpFaults | scripts/restore-drill.js:1131-1157 | What it shows when the ledger is missing or the dump fails |
| DrillLifecycle.RestoreFaults | scripts/restore-drill.js:1159-1186 | What it shows when the scratch database may not be dropped or is not empty, or the restore fails |
| DrillLifecycle.EndFaults | scripts/restore-drill.js:1213-1228 | A crash shows as such, and a scratch database that stays behind exactly where one was made and its drop failed |
| DrillLifecycle.WellRunGathers | scripts/restore-drill.js:1096-1211 | A run in which every step went well is judged by exactly what its steps returned |
| DrillLifecycle.Drill.SignalAgain | scripts/restore-drill.js:1077-1083 | A signal after the run sends nothing more |
| ComposeProfiles.CheckProfiles | scripts/compose-invocation-check.js:345-381 | The loops over services and dependencies report exactly the broken dependencies |
| ComposeProfiles.RuleIsExact | scripts/compose-invocation-check.js:351-380 | Nothing is reported for a dependency exactly when it is defined and every selection of profiles that starts the service starts it |
| ComposeProfiles.ProblemKinds | scripts/compose-invocation-check.js:351-380 | Which problem a dependency gives: no such service, a target that never always runs, or a profile that starts the service without it |
| ComposeProfiles.CleanIffValid | scripts/compose-invocation-check.js:345-381 | The rule reports nothing exactly when, for every set of selected profiles, all that an enabled service needs at any distance is defined and enabled |
| ComposeProfiles.SplitPortEntry | scripts/compose-invocation-check.js:144-182 | The character loop splits at colons outside interpolations only |
| ComposeProfiles.PortSpellsEntry | scripts/compose-invocation-check.js:144-182 | The parts of a port entry spell the entry again |
| ComposeProfiles.PartsOfWhole | scripts/compose-invocation-check.js:144-182 | An entry stays whole exactly when all its colons stand inside interpolations |
| ComposeProfiles.PartsOfJoined | scripts/compose-invocation-check.js:144-182 | Parts written with colons between them are read back as those parts: the split cuts at every colon outside interpolations and at no other |
| ComposeProfiles.InterpolationIsPart | scripts/compose-invocation-check.js:144-182 | An interpolation is one part, whatever colons stand in it |
| ComposeProfiles.PortReadBack | scripts/compose-invocation-check.js:144-182 | A container port, a host port in front of it, an address in front of that: each is read back as what it is |
| AuditSiteKeys.KeySites | scripts/audit-write-check.js:435-452 | Every site is keyed exactly once, its ordinal being its place by line and source order among the sites of its symbol |
| AuditSiteKeys.KeysAsWritten | scripts/audit-write-check.js:435-452 | A function that writes once is keyed by file and symbol; one that writes more often gets each site's place, by line and then source order, behind a second mark |
| AuditSiteKeys.PlaceIsRank | scripts/audit-write-check.js:443-450 | In a sorted group the place of a site is the number of sites of its symbol before it |
| AuditSiteKeys.CollideIff | scripts/audit-write-check.js:435-452 | Two sites share a key exactly when one stands alone and its plain key spells the numbered key of the other |
| AuditSiteKeys.KeysAreDistinct | scripts/audit-write-check.js:435-452 | Where symbols are identifiers no two sites share a key |
| AuditSiteKeys.NumberSymbolsCollide | scripts/audit-write-check.js:435-452 | A limit of the keying itself: given a symbol that is a number, which the extractor never yields, two sites share a key |
| AuditSiteKeys.ShiftKeepsKeys | scripts/audit-write-check.js:435-452 | Moving lines without reordering the writes of one symbol leaves every key unchanged |
| SourceColumns.Analyse | scripts/production-artefact-check.js:209-294 | The loop over the lines, with the mode carried from line to line |
| SourceColumns.SplitLine | scripts/production-artefact-check.js:219-284 | The character loop of one line fills the two columns |
| SourceColumns.LinesReadBack | scripts/production-artefact-check.js:209-218 | A line ends at a line feed, a carriage return in front of it belonging to neither line |
| SourceColumns.ColumnsShow | scripts/production-artefact-check.js:219-284 | Every column is the character of the line or a blank, and a string column that is not blank equals the code column |
| SourceColumns.QuotedTextShows | scripts/production-artefact-check.js:219-284 | A quoted text is whole in the code column and shown between its quotes in the string column |
| SourceColumns.EscapeShows | scripts/production-artefact-check.js:243-252 | An escape inside a quote is code and no string text |
| SourceColumns.CodeShows | scripts/production-artefact-check.js:219-284 | Code without quotes and slashes is code and no string text |
| SourceColumns.SlashShows | scripts/production-artefact-check.js:219-284 | So is a slash that opens no comment |
| SourceColumns.BlockCommentIsBlank | scripts/production-artefact-check.js:219-284 | A block comment is blank in both columns up to its first closing mark, and code goes on behind it |
| SourceColumns.OpenBlockGoesOn | scripts/production-artefact-check.js:219-294 | Without a closing mark the line is blank and the comment goes on in the next |
| SourceColumns.LineCommentIsBlank | scripts/production-artefact-check.js:219-284 | A line comment is blank in both columns to the end of the line |
| SourceColumns.ColumnLength | scripts/production-artefact-check.js:243-248 | The columns are as long as the line, and one longer exactly after a backslash that ends the line inside a quote |
| SourceColumns.TemplateIsCarried | scripts/production-artefact-check.js:286-288 | Companion of FileColumns: a quote outlives its line exactly when it is a backtick |
| SourceColumns.BlankedReadsTheSame | scripts/production-artefact-check.js:219-284 | Splitting the blanked code again gives the same columns: blanks never make or hide a comment |
| SourceColumns.FileColumns | scripts/production-artefact-check.js:209-294 | The two previous facts for every line of a file |

## Left out

- Spawns, probes, file walks, HTTP, Docker, psql, console output and exit handling: their results are inputs or outcomes of a plan.
- Message wording, the sorting and citation of reports for display, and the statistics that only count files.
- UTF-16 code units: text is a sequence of characters, and case folding covers ASCII only.
- The regex for quoted links on one line, and the regexes that find declared unions in a source: quoted links are references, unions are a map from expressions to their members.
- In template text outside an interpolation, backslash escapes stand for themselves, as they do in the expander; source text that itself contains the mask character is outside the exactness theorem.
- Several applications in one link gate run, and the refusal to update from a broken artefact.
- LexerMeaning.InterpolationCloses: asks that the interpolation holds no nested template and no slash; with those the scanner and the expander can disagree, and the scanner alone decides where a literal ends.
- MixedSegments.MixedExpandsAsItsFront: the text in front has whole-segment interpolations and no query or fragment; behind a `?` or `#` nothing of a template is a path.
- LinkScope.PathInScopeIff: paths with an empty segment inside are read by the model but not characterised word by word.
- LinkEndToEnd.GreenMeansEveryRunResolves: speaks of templates whose path holes are whole segments with declared unions, as the expander does; other templates are reported as shapes and covered by DeadShapes.DeadShapeIff.
- DeadShapes.DiesWithIff: assumes inventories without trailing optional catch-alls, because with one a dead shape says nothing (ShapeMatcher.ShapeExactIff exhibits the target).
- DeadShapes.DeadShapeNeverResolves: asks for values of one segment; DeadShapes.DeadShapeIff has all values.
- PromMeaning.ShieldIsSound: leaves out operators with vector matching clauses, `or`, `and` and `unless`, and subqueries; a pair matches on all labels. Functions of one series may do anything to values, and to labels above the shields; below a shield they leave replica labels alone, which PromRelabel.CopyShieldIff shows to be needed.
- PromExactness.SumIsExactIff: leaves out chains with a `min` above a sum or a count, where what was added can stay hidden (PromExactness.MinCanHide shows one), and expressions that pair metrics.
- PromQuantileShield.QuantileShieldIff: speaks of a bare `quantile` over one metric; the share is the same for all series, as the operator has it.
- PromRelabel.CopyShieldIff: speaks of one copied label below a `max by` shield; capture patterns of `label_replace` and `label_join` are left out.
- PromSound.WalkOfRender: expressions are written without operator and function parameters, scalars, `offset` and `@`, and no label of a selector is called like an aggregation (PromLabels.ReferenceIsReadIff); the walk itself is modelled on all texts, these included.
- PromSound.AcceptedTextIsSound: a reference stands for the series its selector picks, and a range for one value per series; selectors on replica labels, which pick replicas, are left out.
- PromGate.AcceptedExpressionIsSound: as PromSound.AcceptedTextIsSound.
- PromTypes.WhatIsReported: speaks of written expressions, as PromSound.WalkOfRender does; of any other text EvaluateGaugeAggregation says what is reported in terms of the walk.
- `evaluateQueueInstrumentation` and the other observability checks: set differences over names already extracted.
- The census models ordinary tables in one schema, with foreign keys by their leading column; partitioned tables and parents in other schemas are not part of this model.
- TenantCensus.Verdict.RunCensus: covers the assertions on structure, policies and grants by name and count; privilege strings, guard shapes and index checks are left out.
- RoleWrites.ProtectedRun: one row per statement and one tenant at a time; `user_role`, the permission table itself and concurrent transactions are not modelled, and a school is written under its tenant alone.
- DrillLifecycle.Drill.RunDrill: other processes do not create or drop databases meanwhile; a CREATE that fails after making its database leaks it, and such a run is never `ok`.
- DrillLifecycle.ExitZeroIff: the times a drill measures are not modelled, since they cannot change its exit code; DrillFaults.SloExceededIff has what is said about them. Messages of crashes are one text.
- The dump, the restore and the manifests are outcomes; how checksums are computed is left out.
- Rules C1 to C3 and C5 of the compose check apart from splitting a port entry, and service names that collide with properties of a plain object.
- AuditSiteKeys.KeysAreDistinct: asks that symbols are identifiers, `constructor` or `<module>`, as the extractor's are; AuditSiteKeys.CollideIff is the exact condition without that.
- AuditSiteKeys.KeySites: the final sort by key, and the rules that compare keys with the baseline.
- The pattern rules over the two columns of a source line, and the counts kept per rule.
- The other probes and gates of the repository: they would add set differences and single branches.
