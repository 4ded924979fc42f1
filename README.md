# XPath explainer and package statistics, modelled in Dafny

This project models two parts of the tutorons code base.

The first is the XPath explanation engine in `tutorons/xpath/explain.py`. It takes the
parse tree of an XPath expression and builds a SimpleNLG phrase that a realiser then
turns into English. The model covers these pieces:

- the interesting-node skip, `get_interesting_nodes`;
- the node classifier: the axis table of `explain_axis_specifier` and the tag table of
  `explain_node_test`;
- the step builder, `explain_step`, with `explain_predicate`;
- the operator dispatcher `explain_expr` and its or / and / equality / relational cases;
- the combinator left-fold `explain_xpath`;
- the entry points `explain_main`, `exitMain` and `explain`.

The second is two pieces of `tutorons/packages/explain.py`:

- the averaging and hours/minutes/seconds split of `get_response_time` and
  `get_resolution_time`;
- the retry loop `make_request`.

Modules, one per file:

| file | module | what it holds |
|---|---|---|
| failures.dfy | `Failures` | `Option`, the Python exceptions as `Error`, and a `Result` that works with `:-` |
| parse_tree.dfy | `ParseTree` | the parse tree: rule nodes (variant, children) and terminals (text, token kind) |
| phrases.dfy | `Phrases` | SimpleNLG phrases as a `Phrase` datatype, with size and containment |
| xpath_walk.dfy | `XPathWalk` | the interesting-node skip |
| xpath_classifier.dfy | `XPathClassifier` | `AXIS_NAMES`, `TYPE_NAMES`, the axis and node-test explainers |
| xpath_expr.dfy | `XPathExpr` | the operator dispatcher (as written and as intended), predicates and steps |
| xpath_sequence.dfy | `XPathSequence` | the combinator shapes and the left-fold, as a loop proved against a recursive fold |
| xpath_explain.dfy | `XPathExplain` | `explain_main`, `exitMain`, `explain` and the whole-call None policy |
| package_stats.dfy | `PackageStats` | valid-row averaging, the h/m/s split, the report string |
| package_request.dfy | `PackageRequest` | the bounded retry loop over a sequence of call outcomes |

Conventions of the model:

- A Python `None` phrase, for example the empty accumulator of `explain_xpath` or the
  result of `explain_predicate`, is the phrase `Absent`.
- A phrase whose number feature is never set is `Singular`.
- An exception is a `Failure` carrying the exception; `explain` catches every one of
  them and answers None for the whole call.
- Reading a parse-tree child that is not there (`children[i]` past the end, or a method
  called on the `None` that `getChild` returns) is `MissingChild(i)`. When only the
  missing attribute can be named, it is an `AttributeError`.

Where the code does something other than its names and comments suggest, the model
follows the code:

- "table" is in `TYPE_NAMES`, but it maps to itself, so the check `type_name != type_`
  sends it to the quoted-adjective fallback. It does not get a friendly head.
- The node type "node" becomes the adjective "all " with a trailing space, not "all".
- An axis keyword missing from `AXIS_NAMES` raises KeyError, which fails the whole call.
  It does not fall back to the literal token.
- And-expressions use the conjunction "or", exactly as or-expressions do.
- A failed explanation makes `explain` return None. It does not produce a
  "could not be explained" message, and it does not spare the other entries: the
  failure policy covers the whole call, whatever the comment at
  tutorons/xpath/explain.py:40-42 says.
- The two time functions add up `timedelta.seconds`
  (tutorons/packages/explain.py:108 and :135), which drops the whole days of a span;
  `total_seconds()` was probably meant. So every span adds less than a day, the mean is
  below a day, and the reported hours are always below 24 (`MeanBelowADay`,
  `SplitOfADay`).

Evident slips in the source are modelled twice: once as written, and once corrected.
The rest of the model uses the corrected version. "## Findings" lists each pair.

## Model

| member | source | states |
|---|---|---|
| `XPathWalk.Interesting` | tutorons/xpath/explain.py:23-26 | the skipped-to node branches (child count other than 1, or a terminal only child), is reached from the input by following child 0 through single rule children, and is no larger than the input |
| `XPathWalk.GetInterestingNodes` | tutorons/xpath/explain.py:23-26 | the while loop returns exactly the node `Interesting` describes |
| `XPathWalk.InterestingIdempotent` | tutorons/xpath/explain.py:23-26 | applying the skip twice gives the same node as applying it once |
| `XPathWalk.InterestingUnique` | tutorons/xpath/explain.py:23-26 | any branching node on the unary chain below n is the skip's result, so the two properties above characterise the skip |
| `XPathClassifier.ExplainAxisSpecifier` | tutorons/xpath/explain.py:80-101 | success exactly when the axis has no child or its first child's text is an `AXIS_NAMES` key; a childless axis gives "children of", and a known first child gives exactly its `AXIS_NAMES` entry; otherwise a KeyError on that text |
| `XPathClassifier.AxisDefaultIsChild` | tutorons/xpath/explain.py:82-90 | an axis with no children reads exactly like `child::` ("children of") |
| `XPathClassifier.AxisNamesCollisions` | tutorons/xpath/explain.py:85-100 | two distinct keywords share a phrase exactly when they are `@`/`attribute` or `following-sibling`/`preceding-sibling` |
| `XPathClassifier.AxisKeywords` | tutorons/xpath/explain.py:85-100 | the table has exactly the fourteen keywords of the source |
| `XPathClassifier.ExplainNodeTest` | tutorons/xpath/explain.py:103-149 | succeeds exactly when the test has a first child, otherwise a missing-child error; the phrase is plural, has a word as head, no modifiers or complements and at most one premodifier |
| `XPathClassifier.NodeTypeTest` | tutorons/xpath/explain.py:105-117 | a terminal first child gives head "node", plural, with the terminal text as the adjective premodifier, "node" itself becoming "all " |
| `XPathClassifier.FriendlyNamesInvert` | tutorons/xpath/explain.py:121-131 | every friendly noun that differs from its tag names exactly one tag |
| `XPathClassifier.LookupTypeName` | tutorons/xpath/explain.py:119-131 | `_lookup_type_name` over the `TYPE_NAMES` constant of :121-130; no contract of its own: `FriendlyNamesInvert` states that each friendly name other than the tag names exactly one tag, `NamedTestPhrase` what each outcome does to the phrase, and `TableTagFallsBack` that "table" looks up to itself |
| `XPathClassifier.NamedTestKeepsTag` | tutorons/xpath/explain.py:120-149 | a named test's tag can always be read back from its phrase, from the friendly head or from the quoted adjective |
| `XPathClassifier.NamedTestPhrase` | tutorons/xpath/explain.py:124-149 | a name test whose tag has a `TYPE_NAMES` entry other than itself gives the plural of that name; any other tag gives the plural "node" with the premodifier "'tag'" |
| `XPathClassifier.TableTagFallsBack` | tutorons/xpath/explain.py:128-144 | "table" gets head "node" with the premodifier "'table'", because it maps to itself |
| `XPathExpr.Conjunction` | tutorons/xpath/explain.py:175-211 | or and and give "or"; equality succeeds exactly when the operator exists and then gives "equals" for "=" and "does not equal" otherwise; relational succeeds exactly when the operator is a token and then gives that token's gloss |
| `XPathExpr.EqualityGloss` | tutorons/xpath/explain.py:191-194 | no contract of its own: `Conjunction` states that an equality reads "equals" for the operator text "=" and "does not equal" for any other |
| `XPathExpr.RelationalGloss` | tutorons/xpath/explain.py:201-208 | no contract of its own: `RelationalGlossValues` gives its four values and `RelationalGlossesDistinct` that no other token glosses and no two glosses coincide |
| `XPathExpr.RelationalGlossValues` | tutorons/xpath/explain.py:199-208 | `<` reads "less than", `>` "greater than", `<=` "less than or equal to", `>=` "greater than or equal to" |
| `XPathExpr.RelationalGlossesDistinct` | tutorons/xpath/explain.py:199-208 | exactly the four comparison tokens set a conjunction, and no two of them read alike |
| `XPathExpr.ExplainExpr` | tutorons/xpath/explain.py:157-211 | the corrected dispatcher gives either no phrase or a coordination of two phrases; a node whose skip target is not binary gives no phrase |
| `XPathExpr.ExplainExprAsWritten` | tutorons/xpath/explain.py:157-211 | the dispatcher as written raises on every input |
| `XPathExpr.ExplainSkipsUnaryChain` | tutorons/xpath/explain.py:159 | explaining a node is explaining its skip target |
| `XPathExpr.BinaryCoordinatesInOrder` | tutorons/xpath/explain.py:176-197 | a binary node succeeds exactly when both operands do; its coordinates are the explanations of child 0 and child 2, in that order, joined by the operator's conjunction |
| `XPathExpr.ExtraOperandsIgnored` | tutorons/xpath/explain.py:178-179 | children after index 2 do not change the explanation |
| `XPathExpr.WellFormedExplains` | tutorons/xpath/explain.py:157-211 | on a tree where every binary node has an operator token between two operands, the corrected dispatcher never raises |
| `XPathExpr.ExplainPredicate` | tutorons/xpath/explain.py:151-155 | succeeds exactly when child 1 exists and explains without raising, and then contributes no phrase |
| `XPathExpr.ExplanationsAreBareCoordinations` | tutorons/xpath/explain.py:157-211 | every phrase the corrected dispatcher gives is a tree of coordinations whose leaves are all no phrase |
| `XPathExpr.ExplainStep` | tutorons/xpath/explain.py:61-78 | succeeds exactly when the axis, the node test and (with three children) the predicate do; the axis phrase is the only premodifier, the node-test phrase is the noun, and with three children the only modifier is the predicate's explanation, with two there is none |
| `XPathExpr.OrOfEqualityExample` | tutorons/xpath/explain.py:161-197 | `a or b = c` raises NameError on `getChild` as written and nests the equality inside the or-coordination when corrected |
| `XPathExpr.AsWrittenUnboundNames` | tutorons/xpath/explain.py:167-173 | as written, relational expressions raise on `equality_expr`, multiplicative ones on `explain_multiplicativeExpr`, additive ones on `clause`; corrected, additive ones give no phrase |
| `Phrases.AddComplementEmbedsOnce` | tutorons/xpath/explain.py:235-236 | adding the accumulator as a complement puts it inside the phrase, which grows by exactly its size |
| `XPathSequence.CombineEmbedsOnce` | tutorons/xpath/explain.py:248-332 | each combinator shape holds the accumulator exactly once: it can be read back and the phrase grows by exactly its size; other tokens leave it unchanged |
| `XPathSequence.Combine` | tutorons/xpath/explain.py:245-332 | the combinator dispatch, over `FromPhrase` (:248-251), `ChildrenOfPhrase` (:255-272), `EventuallyAfterPhrase` (:277-301) and `RightAfterPhrase` (:307-332); no contract of its own: `CombineEmbedsOnce` states that each shape holds the accumulator once and gives it back, `SiblingCombinatorsDiffer` the two sibling shapes in full, and `FoldOtherStep` that it is what a combinator child does to the fold |
| `XPathSequence.FromPhrase` | tutorons/xpath/explain.py:248-251 | the "from" preposition around the accumulator; stated by `CombineEmbedsOnce` (its sole complement is the accumulator) |
| `XPathSequence.ChildrenOfPhrase` | tutorons/xpath/explain.py:255-272 | the plural clause "be" with object "children" whose "of" takes the accumulator; stated by `CombineEmbedsOnce` and `ChildChainOrder` |
| `XPathSequence.EventuallyAfterPhrase` | tutorons/xpath/explain.py:277-301 | the siblings clause (a constant, `SiblingsClause`, :282-290) coordinated with "eventually appear after" the accumulator; stated in full by `SiblingCombinatorsDiffer` |
| `XPathSequence.RightAfterPhrase` | tutorons/xpath/explain.py:307-332 | the siblings clause coordinated with "appear right after" the accumulator; stated in full by `SiblingCombinatorsDiffer` |
| `XPathSequence.AppearAfter` | tutorons/xpath/explain.py:292-299 | the appearance clause shared by `~` and `+` (also :323-330), with the adjacency word before the verb or before the preposition; `AppearAfterEmbeds` states that it holds the accumulator once |
| `XPathSequence.SiblingCombinatorsDiffer` | tutorons/xpath/explain.py:277-332 | `~` and `+` share the siblings clause and are each the coordination of the siblings clause with "appear after" the accumulated phrase, differing only in "eventually" before the verb versus "right" before the preposition |
| `XPathSequence.ExplainXPath` | tutorons/xpath/explain.py:222-334 | the for loop over the children computes the left-fold `Fold`, including where it stops on a failure |
| `XPathSequence.Step` | tutorons/xpath/explain.py:226-245 | one pass of the loop body; no contract of its own: `StepEmbeds` states that it keeps a non-empty accumulator inside the new one |
| `XPathSequence.Fold` | tutorons/xpath/explain.py:226-237 | the loop after k children, stopping at the first failure; no contract of its own: `FoldSequenceStep` and `FoldOtherStep` state each step at every position, `FoldNests`, `AbsentOnlyAtStart`, `FocusOnlyForLast` and `FoldOutcome` what holds over the whole fold |
| `XPathSequence.StepEmbeds` | tutorons/xpath/explain.py:231-332 | after a step, a non-empty accumulator lies inside the new one |
| `XPathSequence.FoldNests` | tutorons/xpath/explain.py:224-237 | every non-empty intermediate accumulator lies inside every later one, so the fold builds a single nested phrase |
| `XPathSequence.AbsentOnlyAtStart` | tutorons/xpath/explain.py:235-237 | once the accumulator holds a phrase it never goes back to None |
| `XPathSequence.FoldSequenceStep` | tutorons/xpath/explain.py:231-237 | for every position, a sequence child is explained in focus exactly when it is the last child; its phrase becomes the accumulator, keeping its head, number, premodifiers and modifiers, with the accumulator so far appended as last complement, or unchanged when there was none; an earlier failure stays |
| `XPathSequence.FoldOtherStep` | tutorons/xpath/explain.py:241-332 | for every position, a well-formed combinator child replaces the accumulator by its token's shape around it, and a child that is neither kind leaves it unchanged |
| `XPathSequence.FocusOnlyForLast` | tutorons/xpath/explain.py:232 | two sequence explainers that agree out of focus, and in focus on the last child, give the same fold: only the last child is in focus |
| `XPathSequence.FoldOutcome` | tutorons/xpath/explain.py:231-245 | with well-formed combinators the fold fails exactly when the sequence explainer is unbound and some child is a sequence |
| `XPathSequence.DescendantChainOrder` | tutorons/xpath/explain.py:231-251 | in "first second", the later sequence is the in-focus head and the earlier one, out of focus, is its "from" complement |
| `XPathSequence.ChildChainOrder` | tutorons/xpath/explain.py:231-272 | in "first > second", the later sequence's complement is the clause "are children of" the earlier one |
| `XPathExplain.ExplainMain` | tutorons/xpath/explain.py:337-339 | succeeds exactly when the main rule has a child and that child explains; the phrase is that child's explanation |
| `XPathExplain.ExplainMainAsWritten` | tutorons/xpath/explain.py:337-339 | over the dispatcher as written, `explain_main` always raises |
| `XPathExplain.SentenceReadBack` | tutorons/xpath/explain.py:35-37 | the realised phrase can be read back out of "The '<xpath>'xpath chooses <phrase>." |
| `XPathExplain.Sentence` | tutorons/xpath/explain.py:35-37 | the sentence of one explanation; no contract of its own: `SentenceReadBack` states that the realised phrase is read back out of it unchanged |
| `XPathExplain.Explanations` | tutorons/xpath/explain.py:30-38 | succeeds exactly when the root is the main rule and explains; the map then has the root's text as its only key, and its sentence holds the realised phrase |
| `XPathExplain.ExplanationsAsWritten` | tutorons/xpath/explain.py:30-38 | as written the try block always raises, with the main rule's own error when the root is the main rule |
| `XPathExplain.Caught` | tutorons/xpath/explain.py:39-44 | every exception becomes None; a value passes through |
| `XPathExplain.Explain` | tutorons/xpath/explain.py:28-44 | None exactly when parsing fails, the root is not the main rule, it has no child, or its expression raises; otherwise one sentence, keyed by `Text(root)`, the concatenated text of the tree's tokens (`getText()`) rather than the input string, holding the realised explanation |
| `XPathExplain.ExplanationsStoringPhrase` | tutorons/xpath/explain.py:30-38 | with `explain_expr` corrected but `exitMain` storing the bare phrase, every main rule the dispatcher explains fails on `.items()` |
| `XPathExplain.ItemsSlipExample` | tutorons/xpath/explain.py:28-44 | for `//p` the corrected dispatcher gives a phrase, storing it bare fails on `.items()`, and storing the mapping gives an explanation |
| `XPathExplain.ExplainAsWritten` | tutorons/xpath/explain.py:28-44 | as written `explain` returns None for every input |
| `XPathExplain.WellFormedMainExplained` | tutorons/xpath/explain.py:28-44 | a main rule over a well-formed expression is always explained |
| `PackageStats.DeltaSeconds` | tutorons/packages/explain.py:108 | `timedelta.seconds` lies in [0, 86400) and differs from the span by whole days |
| `PackageStats.TotalSeconds` | tutorons/packages/explain.py:104-109 | the running `total_seconds` over valid rows; no contract of its own: `TotalSecondsSnoc` states what each row adds, `OnlyValidRowsCount` that invalid rows add nothing, `TotalBelowDays` its bound |
| `PackageStats.ValidCount` | tutorons/packages/explain.py:104-109 | the running `num_valid`; no contract of its own: `TotalSecondsSnoc` states that each valid row adds one, `OnlyValidRowsCount` that it is the number of valid rows |
| `PackageStats.OnlyValidRowsCount` | tutorons/packages/explain.py:104-109 | rows missing a timestamp change neither total nor count; the count is the number of valid rows |
| `PackageStats.TotalBelowDays` | tutorons/packages/explain.py:106-109 | the total is at most 86399 seconds per valid row, and there are no more valid rows than rows |
| `PackageStats.Mean` | tutorons/packages/explain.py:111 | succeeds exactly when some row is valid; otherwise ZeroDivisionError |
| `PackageStats.MeanIsFloor` | tutorons/packages/explain.py:111 | the mean m satisfies m·count <= total < (m+1)·count |
| `PackageStats.MeanOfValidRows` | tutorons/packages/explain.py:104-111 | the mean over all rows equals the mean over the valid rows alone |
| `PackageStats.MeanBelowADay` | tutorons/packages/explain.py:104-111 | the mean is below 86400 seconds |
| `PackageStats.Split` | tutorons/packages/explain.py:113-118 | hours·3600 + minutes·60 + seconds is the mean, with minutes and seconds below 60 |
| `PackageStats.SplitUnique` | tutorons/packages/explain.py:113-118 | that split is the only one with minutes and seconds below 60 |
| `PackageStats.SplitOfADay` | tutorons/packages/explain.py:113 | a mean below a day has fewer than 24 hours |
| `PackageStats.DecimalRoundTrip` | tutorons/packages/explain.py:120 | `str` of a number is digits only, at least one, with no leading zero, and parses back to the number |
| `PackageStats.Report` | tutorons/packages/explain.py:120 | the format string with the three numbers; no contract of its own: `ReportReadBack` states that hours, minutes and seconds are read back out of it |
| `PackageStats.ReportReadBack` | tutorons/packages/explain.py:120 | the three numbers can be read back from "{0} hours, {1} minutes, {2} seconds" |
| `PackageStats.AverageDuration` | tutorons/packages/explain.py:104-120 | the loop, mean and split of `get_response_time`, and likewise of `get_resolution_time` (lines 131-147): ZeroDivisionError exactly when no row is valid, otherwise the report of the split mean |
| `PackageRequest.Retry` | tutorons/packages/explain.py:22-58 | the loop calls `method` at most MAX_ATTEMPTS = 5 times, and a reply is returned only after a call |
| `PackageRequest.Accepted` | tutorons/packages/explain.py:38-40 | the response kept in `res`; no contract of its own: `FirstReply` and `ReplyAfterTransients` state that a reply with a status other than 200 gives None and any other reply is kept |
| `PackageRequest.MakeRequest` | tutorons/packages/explain.py:22-58 | the while loop over `try_again` and `attempts` ends with exactly the result and the number of calls `Retry` gives |
| `PackageRequest.FirstReply` | tutorons/packages/explain.py:37-41 | a reply ends the loop after one call: None exactly when its status exists and is not 200, otherwise the reply itself |
| `PackageRequest.ClientAndServerErrorsStop` | tutorons/packages/explain.py:42-47 | not-found and server errors stop after one call with None; with `requests` bound, one after k < 5 transient failures stops with None after k + 1 calls |
| `PackageRequest.UncaughtEscapes` | tutorons/packages/explain.py:36-51 | with `requests` bound, an exception no handler names, after k < 5 transient failures, escapes as that exception after k + 1 calls |
| `PackageRequest.TransientsSkipped` | tutorons/packages/explain.py:48-56 | with `requests` bound, connection errors and read timeouts are retried: the run continues from the next call |
| `PackageRequest.FiveTransientsGiveNone` | tutorons/packages/explain.py:35-56 | five transient failures in a row use up the attempts and give None after five calls |
| `PackageRequest.ReplyAfterTransients` | tutorons/packages/explain.py:35-41 | k < 5 transient failures followed by a reply give that reply after k + 1 calls |
| `PackageRequest.AsWrittenNeverRetries` | tutorons/packages/explain.py:48-51 | as written, a transient failure or an unknown exception escapes as NameError on `requests` at the first call, and nothing is retried |

## Left out

- The ANTLR lexer, parser and tree walker (`parse_plaintext`, `walk_tree`): the parse
  tree is an input value, and a parse that raised is `None`.
- The SimpleNLG realiser and the Java gateway: `realiser.realise` is a function
  parameter, so no English morphology is modelled. What SimpleNLG does with a `None`
  complement, modifier or coordinate (`addCoordinate` of the `None` the stubs give) is
  not modelled either. `realiser.realise` and `str` are taken never to raise: `Explain`
  gives None exactly when the parse or the explanation fails only under that assumption.
- `explain_simple_selector_sequence` is never defined in the module. The fold takes it
  as a parameter, and `None` stands for the unbound name.
- Logging, `print` and `logging.basicConfig`: side effects only.
- `explain_location_path`, `explain_relative_location_path` and
  `explain_unaryExprNoRoot`: stubs that are never called. The stubs the corrected
  dispatcher reaches (`explain_additiveExpr`, `explain_multiplicative_expr`) give no phrase.
- Nothing reachable from `explain` calls `explain_step`, `explain_predicate` or
  `explain_xpath` (only `explain_step` calls `explain_predicate`). They are modelled for
  themselves, and even corrected every explanation is a tree of coordinations with no
  phrase at its leaves.
- Nested main rules: only the root's `exitMain` is modelled.
- The Django ORM queries (`get_documented_since`, `get_num_questions`, the query chains
  of the two time functions), `explain(package)` with its npm scraping and
  BeautifulSoup, `get_results_with_code` (the constant 100), the cached requests
  session, and `time.sleep(RETRY_DELAY)`: database, network and I/O code. The time
  functions take their rows as a sequence, and `make_request` takes its call outcomes
  as a function from call number to outcome.
- Timestamps are whole seconds: microseconds are dropped.
- `skim/skim/views.py` and `tutorons/tests/test_css_query.py`: the first only makes
  HTTP calls and renders templates, the second exercises, through the web client, a CSS
  explainer that is not part of this model.

## Findings

| source | as written | input that shows it | evidently intended | confidence | as-written member | corrected member |
|---|---|---|---|---|---|---|
| tutorons/xpath/explain.py:173 | `explain_expr` returns the unbound name `clause` | any expression, e.g. a bare `a` | initialise `modifier` to None and return it | not executed | `XPathExpr.ExplainExprAsWritten` | `XPathExpr.ExplainExpr` |
| tutorons/xpath/explain.py:178-179 | the operands are fetched with a bare `getChild(0)` / `getChild(2)`, also at 185-186, 195-196, 209-210 | `a or b = c` | `or_expr.getChild(0)` and `or_expr.getChild(2)` | not executed | `XPathExpr.OrOfEqualityExample` | `XPathExpr.BinaryCoordinatesInOrder` |
| tutorons/xpath/explain.py:201 | the relational case reads `equality_expr`, a name it does not have | `a < b` | `relational_expr.getChild(1)` | not executed | `XPathExpr.AsWrittenUnboundNames` | `XPathExpr.Conjunction` |
| tutorons/xpath/explain.py:172 | dispatch calls `explain_multiplicativeExpr`; the function is `explain_multiplicative_expr` (line 216) | `a * b` | call the defined stub, which gives no phrase | not executed | `XPathExpr.AsWrittenUnboundNames` | `XPathExpr.WellFormedExplains` |
| tutorons/xpath/explain.py:234 | `explain_simple_selector_sequence` is never defined | `div p` | a sequence explainer that returns a noun phrase | not executed | `XPathSequence.FoldOutcome` | `XPathSequence.DescendantChainOrder` |
| tutorons/xpath/explain.py:348 | `exitMain` stores a phrase, and `explain` calls `.items()` on it (line 34) | `//p` | store `{getText(): phrase}` | not executed | `XPathExplain.ExplanationsStoringPhrase` | `XPathExplain.Explain` |
| tutorons/packages/explain.py:48-51 | `requests` is never imported, so the handlers for ConnectionError and ReadTimeout raise NameError | a first call that raises ConnectionError | import `requests`, so the error is retried | not executed | `PackageRequest.AsWrittenNeverRetries` | `PackageRequest.FiveTransientsGiveNone` |
