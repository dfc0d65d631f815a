/**
 * Locating and rewriting the generated checklist of a pull request.
 *
 * Every GraphQL or REST call is replaced by data: a query that returns one page becomes
 * an element of a finite sequence of pages handed in by the caller, and a mutation
 * becomes a returned `Write` value. `hasGeneratedText`, which decides whether a body is
 * generated, is a parameter `generated`.
 */
module GithubPr {
  import opened Wrappers

  // ---------------------------------------------------------------------------
  // getLabels

  /**
   * One answer to the labels query: the label names, absent when any link of
   * `pullRequest?.labels?.nodes` is missing, and `pageInfo.hasNextPage`.
   */
  datatype LabelPage = LabelPage(names: Option<seq<string>>, hasNextPage: Option<bool>)

  /** The loop goes on after this page: its name list is present (even when empty) and another page is announced. */
  predicate Continues(page: LabelPage) {
    page.names.Some? && page.hasNextPage.GetOr(false)
  }

  /** The server eventually answers with a page after which the loop stops. */
  predicate LabelsEnd(pages: seq<LabelPage>)
    decreases |pages|
  {
    |pages| > 0 && (!Continues(pages[0]) || LabelsEnd(pages[1..]))
  }

  /** The index of the last page the loop requests. */
  function LabelStop(pages: seq<LabelPage>): (k: nat)
    requires LabelsEnd(pages)
    ensures k < |pages| && !Continues(pages[k])
    ensures forall j :: 0 <= j < k ==> Continues(pages[j])
    decreases |pages|
  {
    if !Continues(pages[0]) then 0
    else
      var k := LabelStop(pages[1..]);
      assert forall j :: 1 <= j < k + 1 ==> pages[j] == pages[1..][j - 1];
      1 + k
  }

  /** The names a page contributes: none when its node list is absent. */
  function PageNames(page: LabelPage): seq<string> {
    page.names.GetOr([])
  }

  /** All names on the pages, in page order. */
  function ConcatNames(pages: seq<LabelPage>): seq<string>
    decreases |pages|
  {
    if pages == [] then [] else ConcatNames(pages[..|pages| - 1]) + PageNames(pages[|pages| - 1])
  }

  /** What `getLabels` returns: the names on every page up to and including the last one requested. */
  function Labels(pages: seq<LabelPage>): seq<string>
    requires LabelsEnd(pages)
  {
    ConcatNames(pages[..LabelStop(pages) + 1])
  }

  /** The labels loop; `fetched` counts the queries issued. */
  method GetLabels(pages: seq<LabelPage>) returns (labels: seq<string>, fetched: nat)
    requires LabelsEnd(pages)
    ensures fetched == LabelStop(pages) + 1
    ensures labels == ConcatNames(pages[..fetched]) == Labels(pages)
  {
    var hasNextPage := true;
    labels := [];
    fetched := 0;
    while hasNextPage
      invariant hasNextPage ==> fetched <= LabelStop(pages)
      invariant !hasNextPage ==> fetched == LabelStop(pages) + 1
      invariant labels == ConcatNames(pages[..fetched])
      decreases |pages| - fetched, hasNextPage
    {
      var page := pages[fetched];
      fetched := fetched + 1;
      assert pages[..fetched] == pages[..fetched - 1] + [page];
      if page.names.Some? {
        labels := labels + page.names.value;
      } else {
        break;
      }
      hasNextPage := page.hasNextPage.GetOr(false);
    }
  }

  lemma {:induction false} ConcatNamesCons(page: LabelPage, rest: seq<LabelPage>)
    ensures ConcatNames([page] + rest) == PageNames(page) + ConcatNames(rest)
    decreases |rest|
  {
    if rest == [] {
      assert ([page] + rest)[..0] == [];
    } else {
      var init := rest[..|rest| - 1];
      ConcatNamesCons(page, init);
      assert ([page] + rest)[..|rest|] == [page] + init;
    }
  }

  /**
   * The page-by-page reading of `getLabels`: a page that continues adds its names and
   * hands over to the next page; any other page adds its names (none when absent) and ends.
   */
  lemma LabelsUnfold(pages: seq<LabelPage>)
    requires LabelsEnd(pages)
    ensures Continues(pages[0]) ==> LabelsEnd(pages[1..]) && Labels(pages) == PageNames(pages[0]) + Labels(pages[1..])
    ensures !Continues(pages[0]) ==> Labels(pages) == PageNames(pages[0])
  {
    var k := LabelStop(pages);
    if Continues(pages[0]) {
      var rest := pages[1..];
      assert pages[..k + 1] == [pages[0]] + rest[..k];
      ConcatNamesCons(pages[0], rest[..k]);
    } else {
      assert pages[..1] == [pages[0]];
      ConcatNamesCons(pages[0], []);
    }
  }

  /** An absent node list ends the loop without adding anything. */
  lemma AbsentLabelPageStops(pages: seq<LabelPage>)
    requires LabelsEnd(pages) && pages[0].names.None?
    ensures Labels(pages) == []
  {
    LabelsUnfold(pages);
  }

  /** A present but empty node list adds nothing and does not stop the loop (an empty array is truthy). */
  lemma EmptyLabelPageContinues(pages: seq<LabelPage>)
    requires LabelsEnd(pages) && pages[0] == LabelPage(Some([]), Some(true))
    ensures LabelsEnd(pages[1..]) && Labels(pages) == Labels(pages[1..])
  {
    LabelsUnfold(pages);
  }

  // ---------------------------------------------------------------------------
  // findPrevComment

  datatype Comment = Comment(id: string, body: string)

  /** One answer to the comments query: the nodes, absent when any link of the optional chain is missing, and `hasNextPage`. */
  datatype CommentPage = CommentPage(nodes: Option<seq<Comment>>, hasNextPage: Option<bool>)

  /** The answer to the first query: the pull request's id and body. */
  datatype PullRequest = PullRequest(id: string, body: string)

  /** `findPrevCommentResult`: no `commentId` when the pull request body is the location. */
  datatype Found = Found(pullRequestId: string, commentId: Option<string>, body: string)

  /** `nodes.find(node => generated(node.body))`, as the index of the element found. */
  function Find(generated: string -> bool, nodes: seq<Comment>): (r: Option<nat>)
    ensures r.Some? ==> r.value < |nodes| && generated(nodes[r.value].body)
    ensures r.Some? ==> forall j :: 0 <= j < r.value ==> !generated(nodes[j].body)
    ensures r.None? ==> forall j :: 0 <= j < |nodes| ==> !generated(nodes[j].body)
    decreases |nodes|
  {
    if nodes == [] then None
    else if generated(nodes[0].body) then Some(0)
    else
      match Find(generated, nodes[1..])
      case Some(i) => Some(i + 1)
      case None => None
  }

  function PageComments(page: CommentPage): seq<Comment> {
    page.nodes.GetOr([])
  }

  predicate MoreComments(page: CommentPage) {
    page.hasNextPage.GetOr(false)
  }

  /** The scan stops at this page: it holds a generated comment, or no further page is announced. */
  predicate ScanStops(generated: string -> bool, page: CommentPage) {
    Find(generated, PageComments(page)).Some? || !MoreComments(page)
  }

  /** The server eventually answers with a page at which the scan stops. */
  predicate CommentsEnd(generated: string -> bool, pages: seq<CommentPage>)
    decreases |pages|
  {
    |pages| > 0 && (ScanStops(generated, pages[0]) || CommentsEnd(generated, pages[1..]))
  }

  /** The index of the last comment page the scan requests. */
  function ScanStop(generated: string -> bool, pages: seq<CommentPage>): (k: nat)
    requires CommentsEnd(generated, pages)
    ensures k < |pages| && ScanStops(generated, pages[k])
    ensures forall j :: 0 <= j < k ==> !ScanStops(generated, pages[j])
    decreases |pages|
  {
    if ScanStops(generated, pages[0]) then 0
    else
      var k := ScanStop(generated, pages[1..]);
      assert forall j :: 1 <= j < k + 1 ==> pages[j] == pages[1..][j - 1];
      1 + k
  }

  /** What the comment scan returns: the generated comment of the stopping page, if it has one. */
  function ScanResult(generated: string -> bool, pullRequestId: string, pages: seq<CommentPage>): Option<Found>
    requires CommentsEnd(generated, pages)
  {
    var comments := PageComments(pages[ScanStop(generated, pages)]);
    match Find(generated, comments)
    case Some(i) => Some(Found(pullRequestId, Some(comments[i].id), comments[i].body))
    case None => None
  }

  /** The search can finish: the body is generated, or the comment scan stops. */
  predicate Locatable(generated: string -> bool, pr: PullRequest, pages: seq<CommentPage>) {
    generated(pr.body) || CommentsEnd(generated, pages)
  }

  /** What `findPrevComment` returns. */
  function PrevComment(generated: string -> bool, pr: PullRequest, pages: seq<CommentPage>): Option<Found>
    requires Locatable(generated, pr, pages)
  {
    if generated(pr.body) then Some(Found(pr.id, None, pr.body))
    else ScanResult(generated, pr.id, pages)
  }

  /** The search loop; `fetched` counts the comment pages requested. */
  method FindPrevComment(generated: string -> bool, pr: PullRequest, pages: seq<CommentPage>)
    returns (found: Option<Found>, fetched: nat)
    requires Locatable(generated, pr, pages)
    ensures found == PrevComment(generated, pr, pages)
    ensures fetched == if generated(pr.body) then 0 else ScanStop(generated, pages) + 1
  {
    var pullRequestId := pr.id;
    fetched := 0;
    if generated(pr.body) {
      return Some(Found(pullRequestId, None, pr.body)), 0;
    }
    var hasNextPage := true;
    while hasNextPage
      invariant hasNextPage ==> fetched <= ScanStop(generated, pages)
      invariant !hasNextPage ==> fetched == ScanStop(generated, pages) + 1
      invariant !hasNextPage ==> Find(generated, PageComments(pages[fetched - 1])).None?
      decreases |pages| - fetched, hasNextPage
    {
      var page := pages[fetched];
      fetched := fetched + 1;
      var target := Find(generated, PageComments(page));
      if target.Some? {
        var node := PageComments(page)[target.value];
        return Some(Found(pullRequestId, Some(node.id), node.body)), fetched;
      }
      hasNextPage := page.hasNextPage.GetOr(false);
    }
    found := None;
  }

  /** Every comment on the pages, page by page and in node order within a page. */
  function AllComments(pages: seq<CommentPage>): seq<Comment>
    decreases |pages|
  {
    if pages == [] then [] else AllComments(pages[..|pages| - 1]) + PageComments(pages[|pages| - 1])
  }

  lemma {:induction false} NoGeneratedBeforeStop(generated: string -> bool, pages: seq<CommentPage>)
    requires forall k :: 0 <= k < |pages| ==> Find(generated, PageComments(pages[k])).None?
    ensures forall j :: 0 <= j < |AllComments(pages)| ==> !generated(AllComments(pages)[j].body)
    decreases |pages|
  {
    if pages != [] {
      var init, last := pages[..|pages| - 1], pages[|pages| - 1];
      NoGeneratedBeforeStop(generated, init);
      var a: seq<Comment>, b: seq<Comment> := AllComments(init), PageComments(last);
      forall j | 0 <= j < |a + b| ensures !generated((a + b)[j].body) {
        if j >= |a| { assert (a + b)[j] == b[j - |a|]; }
      }
    }
  }

  /** `find` returns the first match: any index that is the first match is the one returned. */
  lemma FindIsFirst(generated: string -> bool, nodes: seq<Comment>, i: nat)
    requires i < |nodes| && generated(nodes[i].body)
    requires forall j :: 0 <= j < i ==> !generated(nodes[j].body)
    ensures Find(generated, nodes) == Some(i)
  {
  }

  /** Behind a run of non-generated comments, `find` returns the match of what follows, shifted. */
  lemma FindAfterClean(generated: string -> bool, a: seq<Comment>, b: seq<Comment>)
    requires forall j :: 0 <= j < |a| ==> !generated(a[j].body)
    ensures Find(generated, a + b) == match Find(generated, b)
      case Some(i) => Some(|a| + i)
      case None => None
  {
    var all := a + b;
    match Find(generated, b)
    case Some(i) =>
      assert all[|a| + i] == b[i];
      forall j | 0 <= j < |a| + i ensures !generated(all[j].body) {
        if j >= |a| { assert all[j] == b[j - |a|]; }
      }
      FindIsFirst(generated, all, |a| + i);
    case None =>
      forall j | 0 <= j < |all| ensures !generated(all[j].body) {
        if j >= |a| { assert all[j] == b[j - |a|]; }
      }
  }

  /** The comments up to the stopping page: those of the earlier pages, none generated, then the stopping page's. */
  lemma CommentsUpToStop(generated: string -> bool, pages: seq<CommentPage>)
    requires CommentsEnd(generated, pages)
    ensures var k := ScanStop(generated, pages);
      && AllComments(pages[..k + 1]) == AllComments(pages[..k]) + PageComments(pages[k])
      && forall j :: 0 <= j < |AllComments(pages[..k])| ==> !generated(AllComments(pages[..k])[j].body)
  {
    var k := ScanStop(generated, pages);
    assert pages[..k + 1][..k] == pages[..k];
    NoGeneratedBeforeStop(generated, pages[..k]);
  }

  /**
   * When the body is not generated, the result is the first generated comment over all
   * pages up to the stopping page, in page-then-node order, or nothing when there is none.
   */
  lemma FirstMatchWins(generated: string -> bool, pr: PullRequest, pages: seq<CommentPage>)
    requires !generated(pr.body) && CommentsEnd(generated, pages)
    ensures var all := AllComments(pages[..ScanStop(generated, pages) + 1]);
      match Find(generated, all)
      case Some(i) => PrevComment(generated, pr, pages) == Some(Found(pr.id, Some(all[i].id), all[i].body))
      case None => PrevComment(generated, pr, pages) == None
  {
    var k := ScanStop(generated, pages);
    CommentsUpToStop(generated, pages);
    var a, b := AllComments(pages[..k]), PageComments(pages[k]);
    FindAfterClean(generated, a, b);
    match Find(generated, b)
    case Some(i) =>
      assert (a + b)[|a| + i] == b[i];
    case None =>
  }

  /** `undefined` only after a last page without a generated comment, and never with a generated body. */
  lemma NotFoundOnlyAtEnd(generated: string -> bool, pr: PullRequest, pages: seq<CommentPage>)
    requires Locatable(generated, pr, pages) && PrevComment(generated, pr, pages).None?
    ensures !generated(pr.body)
    ensures !MoreComments(pages[ScanStop(generated, pages)])
    ensures forall c :: c in AllComments(pages[..ScanStop(generated, pages) + 1]) ==> !generated(c.body)
  {
    FirstMatchWins(generated, pr, pages);
    var all := AllComments(pages[..ScanStop(generated, pages) + 1]);
    forall c | c in all ensures !generated(c.body) {
      var j :| 0 <= j < |all| && all[j] == c;
    }
  }

  /**
   * A page without a generated comment that announces more pages hands the scan to the
   * next page; this covers a page whose node list is absent.
   */
  lemma ScanPassesOn(generated: string -> bool, pr: PullRequest, pages: seq<CommentPage>)
    requires !generated(pr.body) && CommentsEnd(generated, pages)
    requires Find(generated, PageComments(pages[0])).None? && MoreComments(pages[0])
    ensures CommentsEnd(generated, pages[1..])
    ensures PrevComment(generated, pr, pages) == PrevComment(generated, pr, pages[1..])
  {
    assert ScanStop(generated, pages) == 1 + ScanStop(generated, pages[1..]);
  }

  /** Every result names the pull request of the first query. */
  lemma ResultCarriesPullRequestId(generated: string -> bool, pr: PullRequest, pages: seq<CommentPage>)
    requires Locatable(generated, pr, pages) && PrevComment(generated, pr, pages).Some?
    ensures PrevComment(generated, pr, pages).value.pullRequestId == pr.id
    ensures PrevComment(generated, pr, pages).value.commentId.None? <==> generated(pr.body)
  {
  }

  /** Two generated comments over three pages: the earlier one is found. */
  lemma FirstMatchExample(generated: string -> bool, pr: PullRequest, a: Comment, b: Comment, c1: Comment, c2: Comment)
    requires !generated(pr.body) && !generated(a.body) && !generated(b.body)
    requires generated(c1.body) && generated(c2.body)
    ensures var pages := [CommentPage(Some([a]), Some(true)), CommentPage(Some([b, c1]), Some(true)),
                          CommentPage(Some([c2]), Some(false))];
      CommentsEnd(generated, pages) && PrevComment(generated, pr, pages) == Some(Found(pr.id, Some(c1.id), c1.body))
  {
    var pages := [CommentPage(Some([a]), Some(true)), CommentPage(Some([b, c1]), Some(true)),
                  CommentPage(Some([c2]), Some(false))];
    assert [b, c1][1..] == [c1];
    assert Find(generated, [a]) == None by { assert [a][1..] == []; }
    assert Find(generated, [b, c1]) == Some(1);
    assert pages[1..][0] == pages[1];
    assert ScanStop(generated, pages) == 1;
  }

  // ---------------------------------------------------------------------------
  // upsertComment

  /** The one mutation `upsertComment` issues. */
  datatype Write =
    | UpdateIssueComment(commentId: string, body: string)
    | UpdatePullRequest(pullRequestId: string, body: string)
    | CreateComment(owner: string, repo: string, issueNumber: int, body: string)

  /** JavaScript truthiness of an optional string: present and not empty. */
  predicate Truthy(s: Option<string>) {
    s.Some? && s.value != ""
  }

  /** `upsertComment`: the write it routes to. */
  function UpsertComment(owner: string, repo: string, number: int, comment: string, found: Option<Found>): (w: Write)
    ensures w.body == comment
    ensures w.CreateComment? <==> found.None?
    ensures w.CreateComment? ==> w.owner == owner && w.repo == repo && w.issueNumber == number
    ensures w.UpdateIssueComment? <==> found.Some? && Truthy(found.value.commentId)
    ensures w.UpdateIssueComment? ==> found.value.commentId == Some(w.commentId)
    ensures w.UpdatePullRequest? ==> w.pullRequestId == found.value.pullRequestId
  {
    match found
    case Some(f) =>
      if Truthy(f.commentId) then UpdateIssueComment(f.commentId.value, comment)
      else UpdatePullRequest(f.pullRequestId, comment)
    case None => CreateComment(owner, repo, number, comment)
  }

  /**
   * Locating and then upserting: a generated body is rewritten in place, a generated
   * comment (with a non-empty id) is rewritten in place, and otherwise a new comment is made.
   */
  lemma LocateThenUpsert(generated: string -> bool, pr: PullRequest, pages: seq<CommentPage>,
                         owner: string, repo: string, number: int, comment: string)
    requires Locatable(generated, pr, pages)
    ensures var w := UpsertComment(owner, repo, number, comment, PrevComment(generated, pr, pages));
      && (generated(pr.body) ==> w == UpdatePullRequest(pr.id, comment))
      && (!generated(pr.body) ==>
            var all := AllComments(pages[..ScanStop(generated, pages) + 1]);
            match Find(generated, all)
            case Some(i) =>
              w == if all[i].id != "" then UpdateIssueComment(all[i].id, comment)
                   else UpdatePullRequest(pr.id, comment)
            case None => w == CreateComment(owner, repo, number, comment))
  {
    if !generated(pr.body) {
      FirstMatchWins(generated, pr, pages);
    }
  }
}
