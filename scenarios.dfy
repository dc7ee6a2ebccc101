/** The renderer's and the upserter's documented examples, stated on the model
    (__tests__/comment-renderer.test.ts, __tests__/comment-upserter.test.ts).
    The concrete inputs are passed in as parameters equal to them, and long
    literals are taken apart by general lemmas (EscapeAfterPlain, JoinPair,
    TwoRows) rather than by unfolding the recursive functions on them: a
    recursive function applied to a literal in a caller's context is unfolded
    again and again by the verifier. */
module Scenarios {
  import opened Wrappers
  import opened Strings
  import opened Sorting
  import opened GitHubTypes
  import opened Configuration
  import opened TemplateTypes
  import opened CommentRenderer
  import opened CommentUpserter

  /** Two matched rules: migrations for `cto` and `dba`, CI files for `ci`. */
  function ExampleRules(): seq<MatchedRule>
  {
    [ MatchedRule(["db/migrate/**"], ["cto", "dba"], ["db/migrate/20250913000000_test.rb"]),
      MatchedRule([".github/**", "spec/*.rb"], ["ci"], [".github/codemention.yml", "spec/spec_helper.rb"]) ]
  }

  /** The lines of the default comment for ExampleRules. */
  const EXPECTED_DEFAULT_LINES: seq<string> :=
    [ "[CodeMention](https://github.com/tobyhs/codemention):",
      "| File Patterns | Mentions |",
      "| - | - |",
      "| db/migrate/\\*\\* | @cto, @dba |",
      "| .github/\\*\\*<br>spec/\\*.rb | @ci |",
      "",
      "<!-- codemention header -->" ]

  const EXPECTED_DEFAULT: string := Join(EXPECTED_DEFAULT_LINES, "\n")

  /** The expected comment carries the sentinel at its end. */
  lemma ExpectedIsCodeMention()
    ensures EndsWith(EXPECTED_DEFAULT, FOOTER)
  {
    var init := EXPECTED_DEFAULT_LINES[..6];
    assert EXPECTED_DEFAULT_LINES == init + [FOOTER];
    JoinAppend(init, [FOOTER], "\n");
    var s := Join(init, "\n") + "\n";
    assert EXPECTED_DEFAULT == s + FOOTER;
    assert (s + FOOTER)[|s + FOOTER| - |FOOTER|..] == FOOTER;
  }

  /** Escaping a text that starts with a part free of special characters. */
  lemma EscapeAfterPlain(plain: string, rest: string, x: string)
    requires x == plain + rest
    requires forall i :: 0 <= i < |plain| ==> !IsSpecial(plain[i])
    ensures MarkdownEscape(x) == plain + MarkdownEscape(rest)
  {
    MarkdownEscapePlain(plain);
    MarkdownEscapeConcat(plain, rest);
  }

  /** A plain directory followed by `**` escapes only the two stars. */
  lemma EscapeDoubleStar(dir: string, x: string)
    requires x == dir + "**"
    requires forall i :: 0 <= i < |dir| ==> !IsSpecial(dir[i])
    ensures MarkdownEscape(x) == dir + "\\*\\*"
  {
    EscapeAfterPlain(dir, "**", x);
    assert MarkdownEscape("**") == "\\*\\*";
  }

  // The example patterns reach the lemmas below as parameters, so their
  // callers never unfold MarkdownEscape on a literal themselves.

  /** The two example patterns that end in a double star. */
  lemma EscapeDirPatterns(x: string)
    requires x == "db/migrate/**" || x == ".github/**"
    ensures x == "db/migrate/**" ==> MarkdownEscape(x) == "db/migrate/\\*\\*"
    ensures x == ".github/**" ==> MarkdownEscape(x) == ".github/\\*\\*"
  {
    if x == "db/migrate/**" {
      EscapeDoubleStar("db/migrate/", x);
    } else {
      EscapeDoubleStar(".github/", x);
    }
  }

  lemma EscapeSpecs(x: string)
    requires x == "spec/*.rb"
    ensures MarkdownEscape(x) == "spec/\\*.rb"
  {
    EscapeAfterPlain("spec/", "*.rb", x);
    EscapeStarTail("*.rb", ".rb");
  }

  /** A star followed by plain text escapes the star only. */
  lemma EscapeStarTail(x: string, plain: string)
    requires x == "*" + plain
    requires forall i :: 0 <= i < |plain| ==> !IsSpecial(plain[i])
    ensures MarkdownEscape(x) == "\\*" + plain
  {
    assert x[1..] == plain;
    MarkdownEscapePlain(plain);
  }

  lemma JoinPair(a: string, b: string, sep: string)
    ensures Join([a, b], sep) == a + sep + b
  {
    assert [a, b][1..] == [b];
  }

  /** The mentions column of a rule with two mentions. */
  lemma TwoMentions(mentions: seq<string>)
    requires |mentions| == 2
    ensures Join(AtMentions(mentions), ", ") == "@" + mentions[0] + ", " + "@" + mentions[1]
  {
    assert AtMentions(mentions) == ["@" + mentions[0], "@" + mentions[1]];
    JoinPair("@" + mentions[0], "@" + mentions[1], ", ");
  }

  lemma TwoEscaped(patterns: seq<string>)
    requires |patterns| == 2
    ensures EscapedPatterns(patterns) == [MarkdownEscape(patterns[0]), MarkdownEscape(patterns[1])]
  {
  }

  lemma TwoRows(rules: seq<MatchedRule>)
    requires |rules| == 2
    ensures RowLines(rules) == [RowLine(rules[0]), RowLine(rules[1])]
  {
  }

  /** The patterns column of the migrations rule. */
  lemma MigrationsPatterns(patterns: seq<string>)
    requires patterns == ["db/migrate/**"]
    ensures Join(EscapedPatterns(patterns), "<br>") == "db/migrate/\\*\\*"
  {
    assert EscapedPatterns(patterns) == [MarkdownEscape(patterns[0])];
    EscapeDirPatterns(patterns[0]);
  }

  /** The patterns column of the CI rule. */
  lemma WorkflowsPatterns(patterns: seq<string>)
    requires patterns == [".github/**", "spec/*.rb"]
    ensures Join(EscapedPatterns(patterns), "<br>") == ".github/\\*\\*" + "<br>" + "spec/\\*.rb"
  {
    TwoEscaped(patterns);
    EscapeDirPatterns(patterns[0]);
    EscapeSpecs(patterns[1]);
    JoinPair(MarkdownEscape(patterns[0]), MarkdownEscape(patterns[1]), "<br>");
  }

  /** The mentions column of a rule with one mention. */
  lemma OneMention(mentions: seq<string>)
    requires |mentions| == 1
    ensures Join(AtMentions(mentions), ", ") == "@" + mentions[0]
  {
    assert AtMentions(mentions) == ["@" + mentions[0]];
  }

  /** A row from its two cells. */
  lemma RowOf(r: MatchedRule, patternsCell: string, mentionsCell: string)
    requires Join(EscapedPatterns(r.patterns), "<br>") == patternsCell
    requires Join(AtMentions(r.mentions), ", ") == mentionsCell
    ensures RowLine(r) == "| " + patternsCell + " | " + mentionsCell + " |"
  {
  }

  /** The row of the migrations rule: its mentions are joined with a comma. */
  lemma MigrationsRow(r: MatchedRule)
    requires r.patterns == ["db/migrate/**"] && r.mentions == ["cto", "dba"]
    ensures RowLine(r) == "| db/migrate/\\*\\* | @cto, @dba |"
  {
    MigrationsPatterns(r.patterns);
    TwoMentions(r.mentions);
    RowOf(r, "db/migrate/\\*\\*", "@" + "cto" + ", " + "@" + "dba");
    MigrationsRowText();
  }

  /** The row of the CI rule: its two patterns are joined with `<br>`. */
  lemma WorkflowsRow(r: MatchedRule)
    requires r.patterns == [".github/**", "spec/*.rb"] && r.mentions == ["ci"]
    ensures RowLine(r) == "| .github/\\*\\*<br>spec/\\*.rb | @ci |"
  {
    WorkflowsPatterns(r.patterns);
    OneMention(r.mentions);
    RowOf(r, ".github/\\*\\*" + "<br>" + "spec/\\*.rb", "@" + "ci");
    WorkflowsRowText();
  }

  lemma MigrationsRowText()
    ensures "| " + "db/migrate/\\*\\*" + " | " + ("@" + "cto" + ", " + "@" + "dba") + " |" == "| db/migrate/\\*\\* | @cto, @dba |"
  {
  }

  lemma WorkflowsRowText()
    ensures "| " + (".github/\\*\\*" + "<br>" + "spec/\\*.rb") + " | " + ("@" + "ci") + " |" == "| .github/\\*\\*<br>spec/\\*.rb | @ci |"
  {
  }

  /** The table rows of ExampleRules. */
  lemma ExampleRowLines(rules: seq<MatchedRule>)
    requires rules == ExampleRules()
    ensures RowLines(rules) ==
            ["| db/migrate/\\*\\* | @cto, @dba |", "| .github/\\*\\*<br>spec/\\*.rb | @ci |"]
  {
    assert rules[0].patterns == ["db/migrate/**"] && rules[0].mentions == ["cto", "dba"];
    assert rules[1].patterns == [".github/**", "spec/*.rb"] && rules[1].mentions == ["ci"];
    MigrationsRow(rules[0]);
    WorkflowsRow(rules[1]);
    TwoRows(rules);
  }

  /** The lines of a default comment with two rows and no epilogue. */
  lemma LayoutLines(preamble: string, rows: seq<string>, epilogue: seq<string>)
    requires |rows| == 2 && epilogue == []
    ensures [preamble, HEADER_ROW, SEPARATOR_ROW] + rows + [""] + epilogue + [FOOTER] ==
            [preamble, HEADER_ROW, SEPARATOR_ROW, rows[0], rows[1], "", FOOTER]
  {
  }

  /** The lines of a default comment with two rows and an epilogue line. */
  lemma LayoutLinesWithEpilogue(preamble: string, rows: seq<string>, epilogue: seq<string>)
    requires |rows| == 2 && |epilogue| == 1
    ensures [preamble, HEADER_ROW, SEPARATOR_ROW] + rows + [""] + epilogue + [FOOTER] ==
            [preamble, HEADER_ROW, SEPARATOR_ROW, rows[0], rows[1], "", epilogue[0], FOOTER]
  {
  }

  /** With no comment configuration the default template renders the
      default preamble, the table and the footer. */
  lemma DefaultCommentExample(rules: seq<MatchedRule>, handlebars: Handlebars)
    requires rules == ExampleRules()
    ensures RenderSpec(rules, None, handlebars) == EXPECTED_DEFAULT
  {
    ExampleRowLines(rules);
    DefaultRenderLayout(rules, None, handlebars);
    LayoutLines(PreambleOf(None), RowLines(rules), EpilogueLines(EpilogueOf(None)));
    assert PreambleOf(None) == EXPECTED_DEFAULT_LINES[0];
  }

  /** A preamble replaces the default one and a truthy epilogue gets its own
      line before the footer. */
  lemma PreambleEpilogueExample(rules: seq<MatchedRule>, config: Option<CommentConfiguration>, handlebars: Handlebars)
    requires rules == ExampleRules()
    requires config == Some(CommentConfiguration(None, Some("Added you as a subscriber."),
                                                 Some("> [CodeMention](https://github.com/tobyhs/codemention)")))
    ensures RenderSpec(rules, config, handlebars) ==
            Join([ "Added you as a subscriber.",
                   "| File Patterns | Mentions |",
                   "| - | - |",
                   "| db/migrate/\\*\\* | @cto, @dba |",
                   "| .github/\\*\\*<br>spec/\\*.rb | @ci |",
                   "",
                   "> [CodeMention](https://github.com/tobyhs/codemention)",
                   "<!-- codemention header -->" ], "\n")
  {
    ExampleRowLines(rules);
    DefaultRenderLayout(rules, config, handlebars);
    assert PreambleOf(config) == "Added you as a subscriber.";
    assert EpilogueLines(EpilogueOf(config)) == ["> [CodeMention](https://github.com/tobyhs/codemention)"];
    LayoutLinesWithEpilogue(PreambleOf(config), RowLines(rules), EpilogueLines(EpilogueOf(config)));
  }

  /** Three rules where `cto` is mentioned twice. */
  function MentionRules(): seq<MatchedRule>
  {
    ExampleRules() + [MatchedRule(["config/environments/*.rb"], ["infra", "cto"], ["config/environments/production.rb"])]
  }

  /** The mentions list expected for MentionRules. */
  function ExpectedMentions(): seq<Mention>
  {
    [ Mention("ci", [".github/codemention.yml", "spec/spec_helper.rb"]),
      Mention("cto", ["config/environments/production.rb", "db/migrate/20250913000000_test.rb"]),
      Mention("dba", ["db/migrate/20250913000000_test.rb"]),
      Mention("infra", ["config/environments/production.rb"]) ]
  }

  lemma MentionRulesNames(rules: seq<MatchedRule>)
    requires rules == MentionRules()
    ensures Names(rules) == {"ci", "cto", "dba", "infra"}
  {
    assert rules[..0] == [] && rules[..3] == rules;
    NamesStep(rules, 0);
    NamesStep(rules, 1);
    NamesStep(rules, 2);
  }

  /** The files of each name, merged over the three rules that may mention it. */
  lemma FilesForThree(rules: seq<MatchedRule>, name: string)
    requires |rules| == 3
    ensures FilesFor(rules, name) ==
            (if name in rules[0].mentions then Elements(rules[0].matchedFiles) else {}) +
            (if name in rules[1].mentions then Elements(rules[1].matchedFiles) else {}) +
            (if name in rules[2].mentions then Elements(rules[2].matchedFiles) else {})
  {
    assert rules[..0] == [] && rules[..3] == rules;
    FilesForStep(rules, 0, name);
    FilesForStep(rules, 1, name);
    FilesForStep(rules, 2, name);
  }

  /** Each entry of the expected list holds the files of its name. */
  lemma ExpectedMentionFiles(rules: seq<MatchedRule>, ms: seq<Mention>, k: nat)
    requires rules == MentionRules() && ms == ExpectedMentions() && k < |ms|
    ensures Elements(ms[k].matchedFiles) == FilesFor(rules, ms[k].name)
  {
    FilesForThree(rules, ms[k].name);
  }

  /** Two strings that differ at their first character, in ascending order. */
  lemma FirstCharBelow(a: string, b: string)
    requires |a| != 0 && |b| != 0 && a[0] < b[0]
    ensures LexLe(a, b) && a != b
  {
  }

  /** The names of the expected list ascend strictly. */
  lemma ExpectedNamesSorted(ms: seq<Mention>)
    requires ms == ExpectedMentions()
    ensures StrictlySortedBy(ms, NameOf)
  {
    assert LexLe("ci", "cto") && LexLe("cto", "dba") && LexLe("dba", "infra");
    StrictlySortedByAdjacent(ms, NameOf);
  }

  /** A file list of at most two files whose first characters ascend is
      strictly ascending. */
  lemma ShortFilesSorted(files: seq<string>)
    requires |files| <= 2
    requires |files| == 2 ==> |files[0]| != 0 && |files[1]| != 0 && files[0][0] < files[1][0]
    ensures StrictlySortedBy(files, Id)
  {
    if |files| == 2 {
      FirstCharBelow(files[0], files[1]);
    }
    StrictlySortedByAdjacent(files, Id);
  }

  /** Each name's files in the expected list ascend strictly. */
  lemma ExpectedFilesSorted(ms: seq<Mention>)
    requires ms == ExpectedMentions()
    ensures forall k :: 0 <= k < |ms| ==> StrictlySortedBy(ms[k].matchedFiles, Id)
  {
    ShortFilesSorted(ms[0].matchedFiles);
    ShortFilesSorted(ms[1].matchedFiles);
    ShortFilesSorted(ms[2].matchedFiles);
    ShortFilesSorted(ms[3].matchedFiles);
  }

  lemma ExpectedMentionNames(ms: seq<Mention>)
    requires ms == ExpectedMentions()
    ensures KeySet(ms, NameOf) == {"ci", "cto", "dba", "infra"}
  {
    assert NameOf(ms[0]) == "ci" && NameOf(ms[1]) == "cto" && NameOf(ms[2]) == "dba" && NameOf(ms[3]) == "infra";
    assert forall x :: x in ms ==> x == ms[0] || x == ms[1] || x == ms[2] || x == ms[3];
  }

  /** The mentions handed to a custom template: one entry per name in name
      order, each with its files merged across rules and sorted. */
  lemma MentionsExample(rules: seq<MatchedRule>)
    requires rules == MentionRules()
    ensures MentionsOf(rules) == ExpectedMentions()
  {
    var ms := ExpectedMentions();
    MentionRulesNames(rules);
    ExpectedNamesSorted(ms);
    ExpectedFilesSorted(ms);
    ExpectedMentionNames(ms);
    forall k | 0 <= k < |ms| ensures Elements(ms[k].matchedFiles) == FilesFor(rules, ms[k].name) {
      ExpectedMentionFiles(rules, ms, k);
    }
    MentionsListUnique(rules, ms, MentionsOf(rules));
  }

  /** `stubListComments`: the listed bodies get the ids 1, 2, ... */
  function Listed(bodies: seq<string>): (comments: seq<Comment>)
    ensures |comments| == |bodies|
    ensures forall i :: 0 <= i < |bodies| ==> comments[i] == Comment(i + 1, Some(bodies[i]))
  {
    seq(|bodies|, i requires 0 <= i < |bodies| => Comment(i + 1, Some(bodies[i])))
  }

  const EXAMPLE_ISSUE: Issue := Issue(Repo("tobyhs", "codemention"), 17)

  /** Neither listed comment of the first examples carries the sentinel. */
  lemma NoSentinel(comments: seq<Comment>)
    requires comments == Listed(["First", "Second"])
    ensures forall i :: 0 <= i < |comments| ==> !IsCodeMention(comments[i])
  {
    assert !IsCodeMention(comments[0]);
    assert !IsCodeMention(comments[1]);
  }

  /** Comments without the sentinel and no matched rule: nothing is written. */
  lemma NoRulesExample(comments: seq<Comment>, comment: string)
    requires comments == Listed(["First", "Second"])
    ensures Decide(comments, 0, comment) == SkipNoRules
    ensures WritesOf(EXAMPLE_ISSUE, Decide(comments, 0, comment), comment) == []
  {
    NoSentinel(comments);
  }

  /** Comments without the sentinel and matched rules: the rendered default
      comment is created. */
  lemma CreateExample(comments: seq<Comment>, rules: seq<MatchedRule>, handlebars: Handlebars)
    requires comments == Listed(["First", "Second"])
    requires rules == ExampleRules()
    ensures var comment := RenderSpec(rules, None, handlebars);
            var a := Decide(comments, |rules|, comment);
            a == CreateComment && WritesOf(EXAMPLE_ISSUE, a, comment) == [Created(EXAMPLE_ISSUE, EXPECTED_DEFAULT)]
  {
    NoSentinel(comments);
    DefaultCommentExample(rules, handlebars);
  }

  /** A comment of an older version, sentinel first, is updated. */
  lemma LeadingSentinelExample()
    ensures var comments := Listed(["First", FOOTER + "| config/brakeman.yml | @security |"]);
            var a := Decide(comments, 2, EXPECTED_DEFAULT);
            a == UpdateComment(2) && WritesOf(EXAMPLE_ISSUE, a, EXPECTED_DEFAULT) == [Updated(EXAMPLE_ISSUE.repo, 2, EXPECTED_DEFAULT)]
  {
    var comments := Listed(["First", FOOTER + "| config/brakeman.yml | @security |"]);
    assert !IsCodeMention(comments[0]);
    assert (FOOTER + "| config/brakeman.yml | @security |")[..|FOOTER|] == FOOTER;
    assert IsCodeMention(comments[1]);
    FirstCodeMention(comments, 1);
  }

  /** A comment with the sentinel last and a different body is updated. */
  lemma TrailingSentinelExample()
    ensures var comments := Listed(["First", "| config/brakeman.yml | @security |" + FOOTER]);
            var a := Decide(comments, 2, EXPECTED_DEFAULT);
            a == UpdateComment(2) && WritesOf(EXAMPLE_ISSUE, a, EXPECTED_DEFAULT) == [Updated(EXAMPLE_ISSUE.repo, 2, EXPECTED_DEFAULT)]
  {
    var body := "| config/brakeman.yml | @security |" + FOOTER;
    var comments := Listed(["First", body]);
    assert !IsCodeMention(comments[0]);
    assert body[|body| - |FOOTER|..] == FOOTER;
    assert IsCodeMention(comments[1]);
    FirstCodeMention(comments, 1);
  }

  /** A sentinel comment that already has the rendered body is left alone. */
  lemma UnchangedExample()
    ensures var comments := Listed(["First", EXPECTED_DEFAULT]);
            var a := Decide(comments, 2, EXPECTED_DEFAULT);
            a == SkipUnchanged && WritesOf(EXAMPLE_ISSUE, a, EXPECTED_DEFAULT) == []
  {
    var comments := Listed(["First", EXPECTED_DEFAULT]);
    assert !IsCodeMention(comments[0]);
    ExpectedIsCodeMention();
    assert IsCodeMention(comments[1]);
    FirstCodeMention(comments, 1);
  }
}
