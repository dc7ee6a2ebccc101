/** The comment upserter (src/comment-upserter.ts): finds the bot's earlier
    comment on a pull request by its sentinel and creates, updates or leaves
    it. The GitHub issue-comments API is modelled as a class holding every
    comment thread. */
module CommentUpserter {
  import opened Wrappers
  import opened Strings
  import opened GitHubTypes
  import opened TemplateTypes
  import opened CommentRenderer

  /** A comment as `listComments` returns it; its body may be undefined. */
  datatype Comment = Comment(id: int, body: Option<string>)

  /** The thread of comments of one pull request. */
  datatype Issue = Issue(repo: Repo, number: int)

  /** A write request received by the comments API. */
  datatype Write =
    | Created(issue: Issue, body: string)
    | Updated(repo: Repo, commentId: int, body: string)

  /** The comment is one the bot posted: its body starts with FOOTER (the
      layout of older versions) or ends with it. */
  predicate IsCodeMention(c: Comment)
  {
    c.body.Some? && (StartsWith(c.body.value, FOOTER) || EndsWith(c.body.value, FOOTER))
  }

  /** `listResponse.data.find(...)`, as the position of the comment found. */
  function FindExisting(comments: seq<Comment>): (r: Option<nat>)
    ensures r.Some? ==> r.value < |comments| && IsCodeMention(comments[r.value])
    ensures r.Some? ==> forall i :: 0 <= i < r.value ==> !IsCodeMention(comments[i])
    ensures r.None? <==> forall i :: 0 <= i < |comments| ==> !IsCodeMention(comments[i])
  {
    if |comments| == 0 then None
    else if IsCodeMention(comments[0]) then Some(0)
    else
      match FindExisting(comments[1..])
      case None => None
      case Some(k) => Some(k + 1)
  }

  /** The branch `upsert` takes; each one logs its own line. */
  datatype Action = CreateComment | UpdateComment(id: int) | SkipNoRules | SkipUnchanged

  /** The decision of `upsert` for the comments of the pull request, the
      number of matched rules and the rendered comment. */
  function Decide(comments: seq<Comment>, ruleCount: nat, comment: string): (a: Action)
    ensures a == CreateComment <==>
            ruleCount > 0 && forall i :: 0 <= i < |comments| ==> !IsCodeMention(comments[i])
    ensures a == SkipNoRules <==>
            ruleCount == 0 && forall i :: 0 <= i < |comments| ==> !IsCodeMention(comments[i])
    ensures a.UpdateComment? <==>
            FindExisting(comments).Some? && comments[FindExisting(comments).value].body != Some(comment)
    ensures a.UpdateComment? ==> a.id == comments[FindExisting(comments).value].id
    ensures a == SkipUnchanged <==>
            FindExisting(comments).Some? && comments[FindExisting(comments).value].body == Some(comment)
  {
    match FindExisting(comments)
    case None => if ruleCount > 0 then CreateComment else SkipNoRules
    case Some(i) => if comments[i].body != Some(comment) then UpdateComment(comments[i].id) else SkipUnchanged
  }

  /** `updateComment` on one thread: the comment with that id gets the body. */
  function SetBody(comments: seq<Comment>, id: int, body: string): (r: seq<Comment>)
    ensures |r| == |comments|
    ensures forall i :: 0 <= i < |r| ==> r[i].id == comments[i].id
    ensures forall i :: 0 <= i < |r| ==> r[i].body == if comments[i].id == id then Some(body) else comments[i].body
  {
    seq(|comments|, i requires 0 <= i < |comments| =>
      if comments[i].id == id then Comment(id, Some(body)) else comments[i])
  }

  /** The thread after `upsert` took action `a`; a created comment gets id `nextId`. */
  function AfterWrite(comments: seq<Comment>, a: Action, nextId: int, comment: string): (r: seq<Comment>)
    ensures |r| == |comments| + (if a == CreateComment then 1 else 0)
    ensures forall i :: 0 <= i < |comments| ==> r[i].id == comments[i].id
    ensures a == CreateComment ==> r[|comments|] == Comment(nextId, Some(comment))
  {
    match a
    case CreateComment => comments + [Comment(nextId, Some(comment))]
    case UpdateComment(id) => SetBody(comments, id, comment)
    case _ => comments
  }

  /** The write requests `upsert` sends for action `a`. */
  function WritesOf(issue: Issue, a: Action, comment: string): (w: seq<Write>)
    ensures |w| <= 1
  {
    match a
    case CreateComment => [Created(issue, comment)]
    case UpdateComment(id) => [Updated(issue.repo, id, comment)]
    case _ => []
  }

  ghost predicate DistinctIds(comments: seq<Comment>)
  {
    forall i, j :: 0 <= i < j < |comments| ==> comments[i].id != comments[j].id
  }

  ghost predicate IdsBelow(comments: seq<Comment>, nextId: int)
  {
    forall i :: 0 <= i < |comments| ==> comments[i].id < nextId
  }

  /** Every call of `upsert` sends at most one write, and never a create
      while a sentinel comment exists. */
  lemma AtMostOneWrite(issue: Issue, comments: seq<Comment>, ruleCount: nat, comment: string)
    ensures |WritesOf(issue, Decide(comments, ruleCount, comment), comment)| <= 1
    ensures FindExisting(comments).Some? ==>
            forall w :: w in WritesOf(issue, Decide(comments, ruleCount, comment), comment) ==> w.Updated?
  {
  }

  /** An update rewrites the sentinel comment found and no other comment. */
  lemma {:induction false} UpdateOnlyTouchesFound(comments: seq<Comment>, ruleCount: nat, comment: string)
    requires DistinctIds(comments)
    requires Decide(comments, ruleCount, comment).UpdateComment?
    ensures var k := FindExisting(comments).value;
            var after := AfterWrite(comments, Decide(comments, ruleCount, comment), 0, comment);
            && |after| == |comments|
            && after[k] == Comment(comments[k].id, Some(comment))
            && forall i :: 0 <= i < |comments| && i != k ==> after[i] == comments[i]
  {
    var k := FindExisting(comments).value;
    var after := SetBody(comments, comments[k].id, comment);
    forall i | 0 <= i < |comments| && i != k ensures after[i] == comments[i] {
      assert comments[i].id != comments[k].id;
    }
  }

  /** Running `upsert` again with the same rules and the same rendered
      comment (which ends with FOOTER) writes nothing. */
  lemma {:induction false} UpsertIdempotent(comments: seq<Comment>, ruleCount: nat, comment: string, nextId: int)
    requires EndsWith(comment, FOOTER)
    requires DistinctIds(comments) && IdsBelow(comments, nextId)
    ensures var a := Decide(comments, ruleCount, comment);
            var again := Decide(AfterWrite(comments, a, nextId, comment), ruleCount, comment);
            again == (if a == SkipNoRules then SkipNoRules else SkipUnchanged)
  {
    var a := Decide(comments, ruleCount, comment);
    var after := AfterWrite(comments, a, nextId, comment);
    match a
    case CreateComment =>
      assert IsCodeMention(after[|comments|]);
      forall i | 0 <= i < |comments| ensures !IsCodeMention(after[i]) {
        assert after[i] == comments[i];
      }
      FirstCodeMention(after, |comments|);
    case UpdateComment(id) =>
      var k := FindExisting(comments).value;
      UpdateOnlyTouchesFound(comments, ruleCount, comment);
      assert IsCodeMention(after[k]);
      forall i | 0 <= i < k ensures !IsCodeMention(after[i]) {
        assert after[i] == comments[i];
      }
      FirstCodeMention(after, k);
    case SkipNoRules =>
    case SkipUnchanged =>
  }

  /** The comment at position k is the one `find` returns when no earlier
      comment carries the sentinel. */
  lemma FirstCodeMention(comments: seq<Comment>, k: nat)
    requires k < |comments| && IsCodeMention(comments[k])
    requires forall i :: 0 <= i < k ==> !IsCodeMention(comments[i])
    ensures FindExisting(comments) == Some(k)
  {
  }

  /** Every comment thread, keyed by pull request. */
  ghost predicate UniqueIds(threads: map<Issue, seq<Comment>>)
  {
    forall k1, k2, i, j ::
      (k1 in threads && k2 in threads && 0 <= i < |threads[k1]| && 0 <= j < |threads[k2]| &&
       threads[k1][i].id == threads[k2][j].id) ==> k1 == k2 && i == j
  }

  ghost predicate AllIdsBelow(threads: map<Issue, seq<Comment>>, nextId: int)
  {
    forall k :: k in threads ==> IdsBelow(threads[k], nextId)
  }

  /** `updateComment(repo, id, body)`: ids are looked up within the repository. */
  function UpdateInRepo(threads: map<Issue, seq<Comment>>, repo: Repo, id: int, body: string): (r: map<Issue, seq<Comment>>)
    ensures r.Keys == threads.Keys
    ensures forall k :: k in threads && k.repo != repo ==> r[k] == threads[k]
    ensures forall k :: k in threads ==> |r[k]| == |threads[k]|
  {
    map k | k in threads :: if k.repo == repo then SetBody(threads[k], id, body) else threads[k]
  }

  /** The GitHub issue-comments API of the model: every thread, the id the
      next created comment receives, and the write requests received. */
  class IssuesApi {
    var threads: map<Issue, seq<Comment>>
    var nextId: int
    var writes: seq<Write>

    ghost predicate Valid()
      reads this
    {
      UniqueIds(threads) && AllIdsBelow(threads, nextId)
    }

    function Thread(issue: Issue): seq<Comment>
      reads this
    {
      ThreadOf(threads, issue)
    }

    constructor (threads: map<Issue, seq<Comment>>, nextId: int)
      requires UniqueIds(threads) && AllIdsBelow(threads, nextId)
      ensures Valid()
      ensures this.threads == threads && this.nextId == nextId && writes == []
    {
      this.threads := threads;
      this.nextId := nextId;
      writes := [];
    }

    /** `issues.listComments` as called, without `paginate`: GitHub answers
        with the first page of the thread only. */
    method ListComments(issue: Issue) returns (comments: seq<Comment>)
      requires Valid()
      ensures comments == FirstPage(Thread(issue))
    {
      comments := FirstPage(Thread(issue));
    }

    /** `issues.listComments` through `paginate`: every page, in order. */
    method ListAllComments(issue: Issue) returns (comments: seq<Comment>)
      requires Valid()
      ensures comments == Thread(issue)
      ensures DistinctIds(comments) && IdsBelow(comments, nextId)
    {
      comments := Thread(issue);
      ThreadIdsDistinct(threads, nextId, issue);
    }

    /** `issues.createComment`: appends a comment with a fresh id. */
    method CreateComment(issue: Issue, body: string)
      requires Valid()
      modifies this
      ensures Valid()
      ensures threads == old(threads)[issue := old(Thread(issue)) + [Comment(old(nextId), Some(body))]]
      ensures nextId == old(nextId) + 1
      ensures writes == old(writes) + [Created(issue, body)]
    {
      AppendKeepsIdsUnique(threads, nextId, issue, Some(body));
      threads := threads[issue := Thread(issue) + [Comment(nextId, Some(body))]];
      nextId := nextId + 1;
      writes := writes + [Created(issue, body)];
    }

    /** `issues.updateComment`: the comment with that id gets the new body. */
    method UpdateComment(repo: Repo, id: int, body: string)
      requires Valid()
      modifies this
      ensures Valid()
      ensures threads == UpdateInRepo(old(threads), repo, id, body)
      ensures nextId == old(nextId)
      ensures writes == old(writes) + [Updated(repo, id, body)]
    {
      threads := UpdateInRepo(threads, repo, id, body);
      writes := writes + [Updated(repo, id, body)];
    }
  }

  function ThreadOf(threads: map<Issue, seq<Comment>>, issue: Issue): seq<Comment>
  {
    if issue in threads then threads[issue] else []
  }

  /** The ids of one thread are distinct and below the next id. */
  lemma ThreadIdsDistinct(threads: map<Issue, seq<Comment>>, nextId: int, issue: Issue)
    requires UniqueIds(threads) && AllIdsBelow(threads, nextId)
    ensures DistinctIds(ThreadOf(threads, issue)) && IdsBelow(ThreadOf(threads, issue), nextId)
  {
    var comments := ThreadOf(threads, issue);
    if issue in threads {
      forall i, j | 0 <= i < j < |comments| ensures comments[i].id != comments[j].id {
        assert threads[issue][i].id != threads[issue][j].id;
      }
    }
  }

  /** GitHub's default page size for listing issue comments. */
  const PAGE_SIZE: nat := 30

  /** The first page of a thread. */
  function FirstPage(comments: seq<Comment>): (page: seq<Comment>)
    ensures |page| == if |comments| < PAGE_SIZE then |comments| else PAGE_SIZE
    ensures page == comments[..|page|]
  {
    if |comments| < PAGE_SIZE then comments else comments[..PAGE_SIZE]
  }

  /** Reading only the first page, a thread whose first page holds no
      sentinel comment gets a new comment on every run with rules: the one
      created lands past the first page and is never found. */
  lemma {:induction false} FirstPageRecreates(comments: seq<Comment>, ruleCount: nat, comment: string, nextId: int)
    requires |comments| >= PAGE_SIZE && ruleCount > 0
    requires forall i :: 0 <= i < PAGE_SIZE ==> !IsCodeMention(comments[i])
    ensures var a := Decide(FirstPage(comments), ruleCount, comment);
            && a == CreateComment
            && Decide(FirstPage(AfterWrite(comments, a, nextId, comment)), ruleCount, comment) == CreateComment
  {
    var page := FirstPage(comments);
    assert forall i :: 0 <= i < |page| ==> page[i] == comments[i];
    var after := comments + [Comment(nextId, Some(comment))];
    assert FirstPage(after) == page by {
      assert after[..PAGE_SIZE] == comments[..PAGE_SIZE];
    }
  }

  /** A comment with a fresh id keeps the ids unique. */
  lemma AppendKeepsIdsUnique(threads: map<Issue, seq<Comment>>, nextId: int, issue: Issue, body: Option<string>)
    requires UniqueIds(threads) && AllIdsBelow(threads, nextId)
    ensures var threads': map<Issue, seq<Comment>> := threads[issue := ThreadOf(threads, issue) + [Comment(nextId, body)]];
            UniqueIds(threads') && AllIdsBelow(threads', nextId + 1)
  {
    var prior: seq<Comment> := ThreadOf(threads, issue);
    var threads': map<Issue, seq<Comment>> := threads[issue := prior + [Comment(nextId, body)]];
    forall k: Issue, i: int | k in threads' && 0 <= i < |threads'[k]|
      ensures threads'[k][i].id < nextId + 1
      ensures (k == issue && i == |prior|) || (k in threads && i < |threads[k]| && threads'[k][i] == threads[k][i])
    {
      if k == issue && i < |prior| {
        assert threads'[k][i] == prior[i];
      }
    }
    forall k1: Issue, k2: Issue, i: int, j: int |
      k1 in threads' && k2 in threads' && 0 <= i < |threads'[k1]| && 0 <= j < |threads'[k2]| &&
      threads'[k1][i].id == threads'[k2][j].id
      ensures k1 == k2 && i == j
    {
    }
  }

  /** A thread with no comment of that id is left as it is by an update. */
  lemma SetBodyAbsent(comments: seq<Comment>, id: int, body: string)
    requires forall i :: 0 <= i < |comments| ==> comments[i].id != id
    ensures SetBody(comments, id, body) == comments
  {
  }

  /** `CommentUpserterImpl`, holding the API it writes through. */
  class Upserter {
    const api: IssuesApi

    constructor (api: IssuesApi)
      ensures this.api == api
    {
      this.api := api;
    }

    /** The branches of `upsert` on the comments listed for the pull
        request, which are the start of its thread. */
    method Carry(issue: Issue, comments: seq<Comment>, ruleCount: nat, comment: string) returns (action: Action)
      requires api.Valid()
      requires |comments| <= |api.Thread(issue)| && comments == api.Thread(issue)[..|comments|]
      modifies api
      ensures api.Valid()
      ensures action == Decide(comments, ruleCount, comment)
      ensures api.Thread(issue) == AfterWrite(old(api.Thread(issue)), action, old(api.nextId), comment)
      ensures api.writes == old(api.writes) + WritesOf(issue, action, comment)
      ensures api.nextId == old(api.nextId) + (if action == CreateComment then 1 else 0)
      ensures forall k :: k != issue ==> api.Thread(k) == old(api.Thread(k))
    {
      var existing := FindExisting(comments);
      if existing.None? {
        if ruleCount > 0 {
          api.CreateComment(issue, comment);
          action := CreateComment;
        } else {
          action := SkipNoRules;
        }
      } else if comments[existing.value].body != Some(comment) {
        var id := comments[existing.value].id;
        ghost var before := api.threads;
        assert issue in before && before[issue][existing.value] == comments[existing.value];
        api.UpdateComment(issue.repo, id, comment);
        action := UpdateComment(id);
        forall k | k != issue && k in before && k.repo == issue.repo
          ensures api.Thread(k) == before[k]
        {
          forall i | 0 <= i < |before[k]| ensures before[k][i].id != id {
          }
          SetBodyAbsent(before[k], id, comment);
        }
      } else {
        action := SkipUnchanged;
      }
    }

    /** `upsert(repo, pullNumber, rules, comment)` reading every page of
        comments: the decision of Decide on the whole thread, carried out
        through the API; no other thread changes. */
    method Upsert(repo: Repo, pullNumber: int, rules: seq<MatchedRule>, comment: string) returns (action: Action)
      requires api.Valid()
      modifies api
      ensures api.Valid()
      ensures var issue := Issue(repo, pullNumber);
              && action == Decide(old(api.Thread(issue)), |rules|, comment)
              && api.Thread(issue) == AfterWrite(old(api.Thread(issue)), action, old(api.nextId), comment)
              && api.writes == old(api.writes) + WritesOf(issue, action, comment)
              && api.nextId == old(api.nextId) + (if action == CreateComment then 1 else 0)
      ensures forall k :: k != Issue(repo, pullNumber) ==> api.Thread(k) == old(api.Thread(k))
    {
      var issue := Issue(repo, pullNumber);
      var comments := api.ListAllComments(issue);
      action := Carry(issue, comments, |rules|, comment);
    }

    /** `upsert` as written: it decides on the first page of comments only. */
    method UpsertAsWritten(repo: Repo, pullNumber: int, rules: seq<MatchedRule>, comment: string) returns (action: Action)
      requires api.Valid()
      modifies api
      ensures api.Valid()
      ensures var issue := Issue(repo, pullNumber);
              && action == Decide(FirstPage(old(api.Thread(issue))), |rules|, comment)
              && api.Thread(issue) == AfterWrite(old(api.Thread(issue)), action, old(api.nextId), comment)
              && api.writes == old(api.writes) + WritesOf(issue, action, comment)
              && api.nextId == old(api.nextId) + (if action == CreateComment then 1 else 0)
      ensures forall k :: k != Issue(repo, pullNumber) ==> api.Thread(k) == old(api.Thread(k))
    {
      var issue := Issue(repo, pullNumber);
      var comments := api.ListComments(issue);
      action := Carry(issue, comments, |rules|, comment);
    }

    /** Two upserts in a row with the rendered comment: the second writes
        nothing, so the store holds only the first one's write. */
    method RepeatUpsert(repo: Repo, pullNumber: int, rules: seq<MatchedRule>, comment: string)
      returns (first: Action, second: Action)
      requires api.Valid() && EndsWith(comment, FOOTER)
      modifies api
      ensures api.Valid()
      ensures second == (if first == SkipNoRules then SkipNoRules else SkipUnchanged)
      ensures api.writes == old(api.writes) + WritesOf(Issue(repo, pullNumber), first, comment)
      ensures api.Thread(Issue(repo, pullNumber)) ==
              AfterWrite(old(api.Thread(Issue(repo, pullNumber))), first, old(api.nextId), comment)
    {
      ghost var issue := Issue(repo, pullNumber);
      ThreadIdsDistinct(api.threads, api.nextId, issue);
      UpsertIdempotent(api.Thread(issue), |rules|, comment, api.nextId);
      first := Upsert(repo, pullNumber, rules, comment);
      second := Upsert(repo, pullNumber, rules, comment);
    }

    /** Two upserts as written on a thread whose first page holds no sentinel
        comment: both create a comment. */
    method RepeatUpsertAsWritten(repo: Repo, pullNumber: int, rules: seq<MatchedRule>, comment: string)
      returns (first: Action, second: Action)
      requires api.Valid() && |rules| > 0
      requires |api.Thread(Issue(repo, pullNumber))| >= PAGE_SIZE
      requires forall i :: 0 <= i < PAGE_SIZE ==> !IsCodeMention(api.Thread(Issue(repo, pullNumber))[i])
      modifies api
      ensures api.Valid()
      ensures first == CreateComment && second == CreateComment
      ensures api.writes == old(api.writes) + [Created(Issue(repo, pullNumber), comment), Created(Issue(repo, pullNumber), comment)]
    {
      ghost var issue := Issue(repo, pullNumber);
      FirstPageRecreates(api.Thread(issue), |rules|, comment, api.nextId);
      first := UpsertAsWritten(repo, pullNumber, rules, comment);
      second := UpsertAsWritten(repo, pullNumber, rules, comment);
    }
  }
}
