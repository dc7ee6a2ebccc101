/** The orchestration of one run of the action (src/runner.ts): skip drafts,
    read the configuration and the changed files, evaluate the rules, render
    the comment and upsert it. */
module Runner {
  import opened Wrappers
  import opened GitHubTypes
  import opened Configuration
  import opened TemplateTypes
  import opened CommentRenderer
  import opened CommentUpserter

  // ---------------------------------------------------------------------
  // Rule evaluation
  // ---------------------------------------------------------------------

  /** `micromatch(files, patterns, {dot: true})`: the changed files matching
      the glob patterns, as the library computes them. */
  type Glob = (seq<string>, seq<string>) -> seq<string>

  /** What the rule evaluation assumes of the glob library: it returns
      changed files only, each one matching some pattern by `matches`. */
  ghost predicate GlobSound(glob: Glob, matches: (string, string) -> bool)
  {
    forall files, patterns, f :: f in glob(files, patterns) ==>
      f in files && exists p :: p in patterns && matches(f, p)
  }

  /** `xs.filter(p)` */
  function Filter<T>(xs: seq<T>, p: T -> bool): (r: seq<T>)
    ensures |r| <= |xs|
    ensures forall k :: 0 <= k < |r| ==> p(r[k])
    ensures forall x :: x in r ==> x in xs
  {
    if |xs| == 0 then []
    else if p(xs[0]) then [xs[0]] + Filter(xs[1..], p)
    else Filter(xs[1..], p)
  }

  /** The positions from `i` on of `xs` that `Filter(xs[i..], p)` keeps, in
      increasing order. */
  function KeptFrom<T>(xs: seq<T>, p: T -> bool, i: nat): (idx: seq<nat>)
    requires i <= |xs|
    decreases |xs| - i
    ensures |idx| == |Filter(xs[i..], p)|
    ensures forall k :: 0 <= k < |idx| ==> i <= idx[k] < |xs| && Filter(xs[i..], p)[k] == xs[idx[k]]
    ensures forall k1, k2 :: 0 <= k1 < k2 < |idx| ==> idx[k1] < idx[k2]
  {
    if i == |xs| then []
    else
      var rest := KeptFrom(xs, p, i + 1);
      assert xs[i..][1..] == xs[i + 1..];
      assert xs[i..][0] == xs[i];
      if p(xs[i]) then
        var idx := [i] + rest;
        assert Filter(xs[i..], p) == [xs[i]] + Filter(xs[i + 1..], p);
        assert forall k :: 1 <= k < |idx| ==> idx[k] == rest[k - 1];
        idx
      else
        assert Filter(xs[i..], p) == Filter(xs[i + 1..], p);
        rest
  }

  /** A position is kept if and only if its element satisfies `p`. */
  lemma {:induction false} KeptFromComplete<T>(xs: seq<T>, p: T -> bool, i: nat)
    requires i <= |xs|
    decreases |xs| - i
    ensures forall j :: i <= j < |xs| ==> (p(xs[j]) <==> j in KeptFrom(xs, p, i))
  {
    if i < |xs| {
      KeptFromComplete(xs, p, i + 1);
      var rest := KeptFrom(xs, p, i + 1);
      assert forall j :: j in rest ==> i < j;
      if p(xs[i]) {
        assert KeptFrom(xs, p, i) == [i] + rest;
      } else {
        assert KeptFrom(xs, p, i) == rest;
      }
    }
  }

  /** The positions of `xs` that `Filter(xs, p)` keeps. */
  function KeptIndices<T>(xs: seq<T>, p: T -> bool): (idx: seq<nat>)
    ensures |idx| == |Filter(xs, p)|
    ensures forall k :: 0 <= k < |idx| ==> idx[k] < |xs| && Filter(xs, p)[k] == xs[idx[k]]
    ensures forall k1, k2 :: 0 <= k1 < k2 < |idx| ==> idx[k1] < idx[k2]
    ensures forall i :: 0 <= i < |xs| ==> (p(xs[i]) <==> i in idx)
  {
    assert xs[0..] == xs;
    KeptFromComplete(xs, p, 0);
    KeptFrom(xs, p, 0)
  }

  /** Filtering keeps every occurrence of a satisfying element and no other. */
  lemma {:induction false} FilterMultiset<T>(xs: seq<T>, p: T -> bool, x: T)
    ensures multiset(Filter(xs, p))[x] == if p(x) then multiset(xs)[x] else 0
  {
    if |xs| != 0 {
      FilterMultiset(xs[1..], p, x);
      assert xs == [xs[0]] + xs[1..];
    }
  }

  /** `rule.mentions.filter(mention => mention !== pullRequest.user.login)` */
  function WithoutAuthor(mentions: seq<string>, author: string): (r: seq<string>)
    ensures author !in r && |r| <= |mentions|
    ensures forall m :: m in r ==> m in mentions
  {
    Filter(mentions, m => m != author)
  }

  /** The author is gone; every other mention stays, as often as it was
      listed, in its original order. */
  lemma WithoutAuthorSpec(mentions: seq<string>, author: string)
    ensures author !in WithoutAuthor(mentions, author)
    ensures forall m :: m != author ==> multiset(WithoutAuthor(mentions, author))[m] == multiset(mentions)[m]
    ensures var idx := KeptIndices(mentions, m => m != author);
            && (forall k :: 0 <= k < |idx| ==> WithoutAuthor(mentions, author)[k] == mentions[idx[k]])
            && (forall k1, k2 :: 0 <= k1 < k2 < |idx| ==> idx[k1] < idx[k2])
            && (forall i :: 0 <= i < |mentions| ==> (mentions[i] != author <==> i in idx))
  {
    forall m | m != author
      ensures multiset(WithoutAuthor(mentions, author))[m] == multiset(mentions)[m]
    {
      FilterMultiset(mentions, m => m != author, m);
    }
  }

  /** The `map` step: one configured rule narrowed to this pull request. */
  function EvaluateRule(rule: MentionRule, files: seq<string>, author: string, glob: Glob): (r: MatchedRule)
    ensures r.patterns == rule.patterns && r.matchedFiles == glob(files, rule.patterns)
    ensures author !in r.mentions && forall m :: m in r.mentions ==> m in rule.mentions
  {
    MatchedRule(rule.patterns, WithoutAuthor(rule.mentions, author), glob(files, rule.patterns))
  }

  /** The `filter` step: a rule with files and someone left to mention. */
  predicate Applies(r: MatchedRule)
  {
    |r.matchedFiles| > 0 && |r.mentions| > 0
  }

  /** The `map` over the configured rules. */
  function EvaluateAll(rules: seq<MentionRule>, files: seq<string>, author: string, glob: Glob): (r: seq<MatchedRule>)
    ensures |r| == |rules|
    ensures forall i :: 0 <= i < |r| ==> r[i].patterns == rules[i].patterns && author !in r[i].mentions
  {
    seq(|rules|, i requires 0 <= i < |rules| => EvaluateRule(rules[i], files, author, glob))
  }

  /** The matched rules of src/runner.ts:47-56. */
  function EvaluateRules(rules: seq<MentionRule>, files: seq<string>, author: string, glob: Glob): (r: seq<MatchedRule>)
    ensures |r| <= |rules|
    ensures forall k :: 0 <= k < |r| ==> Applies(r[k]) && author !in r[k].mentions
  {
    var all := EvaluateAll(rules, files, author, glob);
    assert forall m :: m in all ==> author !in m.mentions;
    Filter(all, Applies)
  }

  /** The matched rules are the configured rules, in their order, that still
      have files and mentions once the author is removed; each keeps its
      patterns, drops the author and holds the glob's files. */
  lemma EvaluateRulesSpec(rules: seq<MentionRule>, files: seq<string>, author: string, glob: Glob)
    ensures var out := EvaluateRules(rules, files, author, glob);
            var idx := KeptIndices(EvaluateAll(rules, files, author, glob), Applies);
            && |out| == |idx| <= |rules|
            && (forall k1, k2 :: 0 <= k1 < k2 < |idx| ==> idx[k1] < idx[k2])
            && (forall i :: 0 <= i < |rules| ==>
                  (i in idx <==> |glob(files, rules[i].patterns)| > 0 && |WithoutAuthor(rules[i].mentions, author)| > 0))
            && (forall k :: 0 <= k < |out| ==>
                  && idx[k] < |rules|
                  && out[k].patterns == rules[idx[k]].patterns
                  && out[k].mentions == WithoutAuthor(rules[idx[k]].mentions, author)
                  && out[k].matchedFiles == glob(files, rules[idx[k]].patterns))
  {
  }

  /** When the glob library returns changed files matching the patterns,
      every matched file is a changed file matching one of its rule's patterns. */
  lemma MatchedFilesAreChanged(rules: seq<MentionRule>, files: seq<string>, author: string, glob: Glob,
                               matches: (string, string) -> bool)
    requires GlobSound(glob, matches)
    ensures forall r, f :: r in EvaluateRules(rules, files, author, glob) && f in r.matchedFiles ==>
              f in files && exists p :: p in r.patterns && matches(f, p)
  {
    forall r, f | r in EvaluateRules(rules, files, author, glob) && f in r.matchedFiles
      ensures f in files && exists p :: p in r.patterns && matches(f, p)
    {
      var all := EvaluateAll(rules, files, author, glob);
      var k :| 0 <= k < |EvaluateRules(rules, files, author, glob)| && EvaluateRules(rules, files, author, glob)[k] == r;
      var i := KeptIndices(all, Applies)[k];
      assert all[i] == r;
      assert f in glob(files, rules[i].patterns);
    }
  }

  // ---------------------------------------------------------------------
  // The collaborators and the run
  // ---------------------------------------------------------------------

  const NO_CONTENT: string := "No content for .github/codemention.yml"

  /** Reads `.github/codemention.yml` of a repository at a ref. */
  class ConfigurationReader {
    /** The parsed file at each repository and ref; None when the
        repository-content response has no `content` field. */
    const stored: (Repo, string) -> Option<Configuration>
    /** The reads requested so far. */
    var calls: seq<(Repo, string)>

    constructor (stored: (Repo, string) -> Option<Configuration>)
      ensures this.stored == stored && calls == []
    {
      this.stored := stored;
      calls := [];
    }

    method Read(repo: Repo, ref: string) returns (r: Result<Configuration, string>)
      modifies this`calls
      ensures calls == old(calls) + [(repo, ref)]
      ensures r == if stored(repo, ref).Some? then Ok(stored(repo, ref).value) else Err(NO_CONTENT)
    {
      calls := calls + [(repo, ref)];
      var content := stored(repo, ref);
      if content.Some? {
        r := Ok(content.value);
      } else {
        r := Err(NO_CONTENT);
      }
    }
  }

  /** Lists the files changed in a pull request. */
  class FilesChangedReader {
    const changed: (Repo, int) -> seq<string>
    var calls: seq<(Repo, int)>

    constructor (changed: (Repo, int) -> seq<string>)
      ensures this.changed == changed && calls == []
    {
      this.changed := changed;
      calls := [];
    }

    method Read(repo: Repo, pullNumber: int) returns (files: seq<string>)
      modifies this`calls
      ensures calls == old(calls) + [(repo, pullNumber)]
      ensures files == changed(repo, pullNumber)
    {
      calls := calls + [(repo, pullNumber)];
      files := changed(repo, pullNumber);
    }
  }

  /** The parts of the pull-request event the run uses. */
  datatype PullRequest = PullRequest(number: int, draft: bool, baseSha: string, userLogin: string)

  datatype Context = Context(repo: Repo, pullRequest: PullRequest)

  datatype RunOutcome =
    | SkippedDraft
    | Failed(error: string)
    | Upserted(matchedRules: seq<MatchedRule>, comment: string, action: Action)

  class Runner {
    const configurationReader: ConfigurationReader
    const filesChangedReader: FilesChangedReader
    /** The renderer's engine for custom templates. */
    const handlebars: Handlebars
    const upserter: Upserter
    const glob: Glob

    constructor (configurationReader: ConfigurationReader, filesChangedReader: FilesChangedReader,
                 handlebars: Handlebars, upserter: Upserter, glob: Glob)
      ensures this.configurationReader == configurationReader && this.filesChangedReader == filesChangedReader
      ensures this.handlebars == handlebars && this.upserter == upserter && this.glob == glob
    {
      this.configurationReader := configurationReader;
      this.filesChangedReader := filesChangedReader;
      this.handlebars := handlebars;
      this.upserter := upserter;
      this.glob := glob;
    }

    /** `run(context)`. A draft is skipped with no call at all. Otherwise both
        reads are issued; a missing configuration fails the run before any
        write; else the matched rules are rendered, and the same rules and the
        rendered comment go to `upsert`. */
    method Run(context: Context) returns (outcome: RunOutcome)
      requires upserter.api.Valid()
      modifies configurationReader`calls, filesChangedReader`calls, upserter.api
      ensures upserter.api.Valid()
      ensures context.pullRequest.draft ==>
                && outcome == SkippedDraft
                && configurationReader.calls == old(configurationReader.calls)
                && filesChangedReader.calls == old(filesChangedReader.calls)
                && unchanged(upserter.api)
      ensures !context.pullRequest.draft ==>
                && configurationReader.calls == old(configurationReader.calls) + [(context.repo, context.pullRequest.baseSha)]
                && filesChangedReader.calls == old(filesChangedReader.calls) + [(context.repo, context.pullRequest.number)]
      ensures var pr := context.pullRequest;
              !pr.draft && configurationReader.stored(context.repo, pr.baseSha).None? ==>
                outcome == Failed(NO_CONTENT) && unchanged(upserter.api)
      ensures var pr := context.pullRequest;
              var stored := configurationReader.stored(context.repo, pr.baseSha);
              var issue := Issue(context.repo, pr.number);
              !pr.draft && stored.Some? ==>
                var rules := EvaluateRules(stored.value.rules, filesChangedReader.changed(context.repo, pr.number),
                                           pr.userLogin, glob);
                var comment := RenderSpec(rules, stored.value.commentConfiguration, handlebars);
                var action := Decide(old(upserter.api.Thread(issue)), |rules|, comment);
                && outcome == Upserted(rules, comment, action)
                && upserter.api.Thread(issue) == AfterWrite(old(upserter.api.Thread(issue)), action, old(upserter.api.nextId), comment)
                && upserter.api.writes == old(upserter.api.writes) + WritesOf(issue, action, comment)
                && upserter.api.nextId == old(upserter.api.nextId) + (if action == CreateComment then 1 else 0)
                && (forall k :: k != issue ==> upserter.api.Thread(k) == old(upserter.api.Thread(k)))
    {
      var pullRequest := context.pullRequest;
      if pullRequest.draft {
        return SkippedDraft;
      }
      var configuration := configurationReader.Read(context.repo, pullRequest.baseSha);
      var filesChanged := filesChangedReader.Read(context.repo, pullRequest.number);
      if configuration.Err? {
        return Failed(configuration.error);
      }
      var config := configuration.value;
      var matchedRules := EvaluateRules(config.rules, filesChanged, pullRequest.userLogin, glob);
      var comment := Render(matchedRules, config.commentConfiguration, handlebars);
      var action := upserter.Upsert(context.repo, pullRequest.number, matchedRules, comment);
      outcome := Upserted(matchedRules, comment, action);
    }
  }
}
