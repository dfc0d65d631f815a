# self-review-checklist-action: checklist codec and comment locator

This project models the core of a GitHub Action. The Action keeps one generated status
comment on a pull request. That comment holds a checklist grouped by label.

- **Checklist codec** (`src/markdown.ts`). `renderCheckList` writes the checklist in a
  fixed line-oriented markdown format:
  - first the sentinel comment `prefixComment` and a blank line;
  - then, per label, a `#### ` heading, a blank line, one `- [x] ` or `- [ ] ` line per
    item, and a trailing blank line.

  `parseCheckList` splits markdown on line feeds and sorts each line by those three
  prefixes into a map from label to item name to checked state.
- **Comment locator and upserter** (`src/github-pr.ts`).
  - `getLabels` collects label names page by page.
  - `findPrevComment` returns the pull request body when it is generated. Otherwise it
    scans comment pages for the first generated comment.
  - `upsertComment` issues exactly one of three writes.

Modules:

- `Wrappers`: `Option` and `Result`.
- `Text`: JavaScript's `split('\n')` as `SplitLines`, proved against `Join`.
- `Markdown`: the codec.
- `GithubPr`: the locator and upserter, with
  - each query answer as one element of a finite sequence of pages;
  - each mutation as a returned `Write` value;
  - `hasGeneratedText` as a predicate parameter `generated`.

The two loops of the codec and the two pagination loops are imperative methods. Each one
is proved against a specification function.

`parseCheckList` is modelled as the code is written. A heading line only moves
`currentLabel`. No line ever creates a bucket in `resultMap`. So the first `- [x] ` or
`- [ ] ` line reads an undefined bucket and throws. The model returns
`Failure(NoBucket(label))` at that point. The obviously intended parser is a separate
function, `ParseCheckListCorrected`. In it, a heading creates its label's bucket when the
bucket is absent. An item line before any heading is still an explicit error there.

Where the design description and the code disagree, the model follows the code:

- The description says that `getLabels` stops at a page that has no label nodes. In the
  code (`src/github-pr.ts:50-55`), an empty array is truthy. So only an absent node list
  stops the loop. `EmptyLabelPageContinues` states the code's behaviour.
- The description promises that parsing a rendered checklist gives it back. The code as
  written breaks that promise (see Findings). The round trip is proved for the corrected
  parser.

## Model

| member | source | states |
|---|---|---|
| `Text.JoinSplit` | src/markdown.ts:16 | joining the pieces of `split('\n')` with line feeds gives back the input |
| `Text.SplitJoin` | src/markdown.ts:16 | splitting lines that hold no line feed, once joined, gives back those lines |
| `Text.SplitAtLineFeed` | src/markdown.ts:16 | splitting `a + "\n" + b` gives the pieces of `a` followed by the pieces of `b` |
| `Markdown.ItemLines` | src/markdown.ts:47-49 | one line per item, in input order; the k-th is the checked or unchecked prefix followed by the k-th name |
| `Markdown.ItemTextAppend` | src/markdown.ts:48 | each item adds exactly `"- [x] "` or `"- [ ] "`, then its name, then `"\n"` to the output |
| `Markdown.SectionText` | src/markdown.ts:46-50 | a section contributes `"#### " + label + "\n\n"`, then its item lines, then one `"\n"` |
| `Markdown.RenderAppend` | src/markdown.ts:45-51 | sections are rendered in input order; each comes after the render of those before it |
| `Markdown.RenderStartsWithSentinel` | src/markdown.ts:43-53 | the output starts with `prefixComment + "\n\n"`, so it starts with the sentinel; with no sections it is exactly that string |
| `Markdown.RenderCheckList` | src/markdown.ts:40-54 | the nested `+=` loops build exactly `Render(contents)`, a function of the input alone (so rendering is deterministic), and the result starts with the sentinel and a blank line |
| `Markdown.ReviewExampleRender` | src/markdown.ts:40-54 | the one-label, one-unchecked-item example renders to the sentinel, a blank line, `#### Review`, a blank line, `- [ ] Check style` and a blank line |
| `Markdown.Classify` | src/markdown.ts:21-34 | a line is a heading iff it starts with `"#### "`; it is ignored iff it has none of the three prefixes; the label or name is the text after the prefix |
| `Markdown.ClassifyItemLine` | src/markdown.ts:24-31 | a rendered item line is read back as the same name with the same checked state |
| `Markdown.HeadingOnlyMovesLabel` | src/markdown.ts:21-22 | as written, a heading line sets the current label to the text after `"#### "` and leaves the result map unchanged |
| `Markdown.ParseCheckList` | src/markdown.ts:15-38 | the loop returns `Parse(AsWritten, markdown)`; it succeeds iff no line is an item line, and then the map is empty |
| `Markdown.AsWrittenOutcome` | src/markdown.ts:20-37 | as written, from an empty map and any current label, the loop fails iff some line is an item line; when it succeeds the map is still empty |
| `Markdown.RenderedItemBreaksParse` | src/markdown.ts:21-31 | as written, parsing the render of any contents that hold at least one item fails, so the round trip does not hold |
| `Markdown.ReviewExampleAsWritten` | src/markdown.ts:15-38 | as written, the example's markdown fails at its item line, with no bucket for label `Review` |
| `Markdown.ParseCheckListCorrected` | src/markdown.ts:15-38 | with get-or-create at each heading, parsing fails iff some item line comes before every heading line |
| `Markdown.CorrectedFailure` | src/markdown.ts:20-35 | from any state, the corrected loop fails iff the current label has no bucket and an item line comes before every heading line |
| `Markdown.RoundTripCorrected` | src/markdown.ts:15-54 | for contents with distinct labels and no line feed in labels or names, the corrected parse of the render is that contents' label -> name -> checked map |
| `Markdown.ReviewExampleCorrected` | src/markdown.ts:15-54 | the corrected parse of the example's markdown is `{"Review" -> {"Check style" -> false}}` |
| `GithubPr.LabelStop` | src/github-pr.ts:20-58 | the last page requested is the first page whose node list is absent or whose `hasNextPage` is false or missing; every earlier page has both |
| `GithubPr.GetLabels` | src/github-pr.ts:9-62 | the loop issues `LabelStop + 1` queries and returns the concatenation of those pages' names, in page order |
| `GithubPr.LabelsUnfold` | src/github-pr.ts:50-58 | a page that continues adds its names and hands over to the next page; any other page adds its names (none when absent) and ends the result |
| `GithubPr.AbsentLabelPageStops` | src/github-pr.ts:50-55 | an absent node list stops the loop without adding anything |
| `GithubPr.EmptyLabelPageContinues` | src/github-pr.ts:50-58 | a present but empty node list adds nothing and does not stop the loop |
| `GithubPr.Find` | src/github-pr.ts:142-144 | `find` returns the index of the first node whose body is generated, or nothing when no node's body is |
| `GithubPr.ScanStop` | src/github-pr.ts:108-156 | the last comment page requested is the first page that holds a generated comment or has `hasNextPage` false or missing |
| `GithubPr.FindPrevComment` | src/github-pr.ts:70-159 | the loop returns `PrevComment`; it requests no comment page when the body is generated, and otherwise exactly the pages up to the stopping page |
| `GithubPr.FindAfterClean` | src/github-pr.ts:142-144 | after a run of non-generated comments, `find` returns the first match in what follows, shifted by the run's length |
| `GithubPr.FirstMatchWins` | src/github-pr.ts:142-152 | when the body is not generated, the result is the first generated comment in page-then-node order, with its id and body, or nothing when there is none |
| `GithubPr.NotFoundOnlyAtEnd` | src/github-pr.ts:142-158 | `undefined` comes only for a non-generated body, after a page with `hasNextPage` false or missing, with no generated comment on any page read |
| `GithubPr.ScanPassesOn` | src/github-pr.ts:142-156 | a page with no generated comment that announces more pages, including one whose node list is absent, hands the search to the next page |
| `GithubPr.ResultCarriesPullRequestId` | src/github-pr.ts:99-151 | every result carries the id from the first query, and it has no `commentId` iff the body was generated |
| `GithubPr.FirstMatchExample` | src/github-pr.ts:108-156 | with generated comments C1 then C2 over three pages, the result is C1 |
| `GithubPr.UpsertComment` | src/github-pr.ts:161-217 | exactly one write carrying the new body: a truthy `commentId` updates that comment; a found result without one updates the pull request body; no result creates a comment on owner/repo/number |
| `GithubPr.LocateThenUpsert` | src/github-pr.ts:99-216 | a generated body is rewritten in place; otherwise the first generated comment is updated (the pull request body instead when its id is empty); with none, a new comment is created |

## Findings

| source | as written | input that shows it | evidently intended | confidence | as-written member | corrected member |
|---|---|---|---|---|---|---|
| src/markdown.ts:21-31 | a heading only sets `currentLabel`; an item line calls `.set` on the missing bucket of `resultMap` and throws | the render of `[{label: "Review", list: [{name: "Check style", checked: false}]}]` | a heading creates its label's bucket, so parsing a render gives back its label -> item -> checked map | high; not executed | `Markdown.RenderedItemBreaksParse` | `Markdown.RoundTripCorrected` |

## Left out

- Network I/O is not modelled: the GraphQL and REST calls, the query texts and `async`/`await` (`src/github-pr.ts:22-47,81-97,109-138,171-215`). Each answer is a page in the input sequence. Each mutation is a `Write` value.
- Cursors (`after`, `endCursor`) are not modelled. They are opaque server tokens, and the page sequence fixes the order of the answers.
- `viewer { login }`, `author` and `isMinimized` are fetched but never used, so they are left out.
- `hasGeneratedText` is imported from `src/markdown.ts`, but that file does not define it, so its definition is not part of this model. The locator takes it as the parameter `generated`. `Markdown.StartsWithSentinel` ("starts with `prefixComment`") is an assumed reading, used only to state `RenderStartsWithSentinel`.
- GetLabels, FindPrevComment: a server that never reports a last page makes the source loop forever. The model requires the page sequence to contain a stopping page (`LabelsEnd`, `CommentsEnd`).
- The `!` crashes are not modelled: a missing pull request, a `null` comment node or a `null` label node. The pull request is always present and nodes are never `null`. Transport errors and their propagation are left out too.
- JavaScript `Map` keeps insertion order; a Dafny `map` does not. So the model states no idempotence of render after parse. Order is kept in `Contents`, which is a sequence.
- The caller's merge of old checked states into new contents is outside the two core files.
- Strings are `seq<char>`. UTF-16 details of JavaScript strings are not modelled.
