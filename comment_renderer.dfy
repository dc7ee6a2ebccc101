/** The comment renderer (src/comment-renderer.ts): builds the list of
    mentioned names, fills in the template context, applies the default or
    the custom template and appends the sentinel FOOTER. */
module CommentRenderer {
  import opened Wrappers
  import opened Strings
  import opened Sorting
  import opened Configuration
  import opened TemplateTypes

  /** The sentinel that identifies the bot's own comment. */
  const FOOTER: string := "<!-- codemention header -->"

  const DEFAULT_COMMENT_PREAMBLE: string := "[CodeMention](https://github.com/tobyhs/codemention):"

  // ---------------------------------------------------------------------
  // markdownEscape(text, ['slashes']): every replacement of the
  // markdown-escape package except the skipped one for slashes.
  // ---------------------------------------------------------------------

  /** The characters the escaping helper rewrites. */
  predicate IsSpecial(c: char)
  {
    || c == '*' || c == '#' || c == '(' || c == ')' || c == '['
    || c == ']' || c == '<' || c == '>' || c == '_' || c == '`'
  }

  function EscapeChar(c: char): (r: string)
    ensures !IsSpecial(c) ==> r == [c]
    ensures 1 <= |r| <= 4
  {
    if c == '<' then "&lt;"
    else if c == '>' then "&gt;"
    else if IsSpecial(c) then ['\\', c]
    else [c]
  }

  function MarkdownEscape(text: string): (r: string)
    ensures |text| <= |r| <= 4 * |text|
  {
    if |text| == 0 then "" else EscapeChar(text[0]) + MarkdownEscape(text[1..])
  }

  /** Escaping works character by character. */
  lemma {:induction false} MarkdownEscapeConcat(a: string, b: string)
    ensures MarkdownEscape(a + b) == MarkdownEscape(a) + MarkdownEscape(b)
  {
    if |a| == 0 {
      assert a + b == b;
    } else {
      assert (a + b)[0] == a[0] && (a + b)[1..] == a[1..] + b;
      MarkdownEscapeConcat(a[1..], b);
    }
  }

  /** Text without special characters (slashes and dots included) is left alone. */
  lemma {:induction false} MarkdownEscapePlain(text: string)
    requires forall i :: 0 <= i < |text| ==> !IsSpecial(text[i])
    ensures MarkdownEscape(text) == text
  {
    if |text| != 0 {
      MarkdownEscapePlain(text[1..]);
      assert text == [text[0]] + text[1..];
    }
  }

  /** `*` and `_` are backslash-escaped; `/` and `.` are not. */
  lemma MarkdownEscapeCharacters()
    ensures MarkdownEscape("*") == "\\*" && MarkdownEscape("_") == "\\_"
    ensures MarkdownEscape("/") == "/" && MarkdownEscape(".") == "."
  {
  }

  // ---------------------------------------------------------------------
  // DEFAULT_TEMPLATE, as the string Handlebars produces from it: the block
  // tags stand alone on their lines, so those lines vanish entirely.
  // ---------------------------------------------------------------------

  const HEADER_ROW: string := "| File Patterns | Mentions |"
  const SEPARATOR_ROW: string := "| - | - |"

  /** `{{#each patterns}}{{markdownEscape this}}...` */
  function EscapedPatterns(patterns: seq<string>): (r: seq<string>)
    ensures |r| == |patterns|
    ensures forall i :: 0 <= i < |r| ==> |patterns[i]| <= |r[i]|
  {
    seq(|patterns|, i requires 0 <= i < |patterns| => MarkdownEscape(patterns[i]))
  }

  /** `{{#each mentions}}@{{this}}...` */
  function AtMentions(mentions: seq<string>): (r: seq<string>)
    ensures |r| == |mentions|
    ensures forall i :: 0 <= i < |r| ==> StartsWith(r[i], "@") && r[i][1..] == mentions[i]
  {
    seq(|mentions|, i requires 0 <= i < |mentions| => "@" + mentions[i])
  }

  /** One table row, without its line break. */
  function RowLine(rule: MatchedRule): (r: string)
    ensures StartsWith(r, "| ") && EndsWith(r, " |")
  {
    "| " + Join(EscapedPatterns(rule.patterns), "<br>") + " | " + Join(AtMentions(rule.mentions), ", ") + " |"
  }

  function RowLines(rules: seq<MatchedRule>): (r: seq<string>)
    ensures |r| == |rules|
    ensures forall i :: 0 <= i < |r| ==> StartsWith(r[i], "| ") && EndsWith(r[i], " |")
  {
    seq(|rules|, i requires 0 <= i < |rules| => RowLine(rules[i]))
  }

  /** Every line followed by a line break. */
  function Terminated(lines: seq<string>): (r: string)
    ensures r == "" <==> |lines| == 0
    ensures |lines| != 0 ==> EndsWith(r, "\n")
  {
    if |lines| == 0 then "" else lines[0] + "\n" + Terminated(lines[1..])
  }

  /** The `{{#each matchedRules}}` block: every row followed by a line break. */
  function Rows(rules: seq<MatchedRule>): (r: string)
    ensures r == "" <==> |rules| == 0
    ensures |rules| != 0 ==> EndsWith(r, "\n")
  {
    Terminated(RowLines(rules))
  }

  /** `{{#if v}}`: defined and not the empty string. */
  predicate Truthy(v: Option<string>)
  {
    v.Some? && v.value != ""
  }

  /** `{{v}}`: an undefined variable renders as nothing. */
  function TextOf(v: Option<string>): string
  {
    if v.Some? then v.value else ""
  }

  function DefaultTemplate(ctx: TemplateContext): (r: string)
    ensures StartsWith(r, TextOf(ctx.preamble) + "\n" + HEADER_ROW + "\n")
    ensures EndsWith(r, "\n")
  {
    TextOf(ctx.preamble) + "\n" + HEADER_ROW + "\n" + SEPARATOR_ROW + "\n"
    + Rows(ctx.matchedRules) + "\n"
    + (if Truthy(ctx.epilogue) then ctx.epilogue.value + "\n" else "")
  }

  /** Terminated lines before joined ones read as all of them joined. */
  lemma {:induction false} TerminatedJoin(lines: seq<string>, rest: seq<string>)
    requires |rest| != 0
    ensures Terminated(lines) + Join(rest, "\n") == Join(lines + rest, "\n")
  {
    if |lines| != 0 {
      var first, later := lines[0], lines[1..];
      TerminatedJoin(later, rest);
      JoinAppend([first], later + rest, "\n");
      calc {
        Terminated(lines) + Join(rest, "\n");
        (first + "\n" + Terminated(later)) + Join(rest, "\n");
        first + "\n" + (Terminated(later) + Join(rest, "\n"));
        first + "\n" + Join(later + rest, "\n");
        Join([first] + (later + rest), "\n");
        { assert [first] + (later + rest) == lines + rest; }
        Join(lines + rest, "\n");
      }
    } else {
      assert lines + rest == rest;
    }
  }

  /** The lines of a comment rendered from the default template. */
  function EpilogueLines(epilogue: Option<string>): seq<string>
  {
    if Truthy(epilogue) then [epilogue.value] else []
  }

  function DefaultLines(ctx: TemplateContext): seq<string>
  {
    [TextOf(ctx.preamble), HEADER_ROW, SEPARATOR_ROW] + RowLines(ctx.matchedRules)
    + [""] + EpilogueLines(ctx.epilogue) + [FOOTER]
  }

  /** The default template followed by FOOTER is, line by line: the preamble,
      the header row, the separator row, one row per rule in order, a blank
      line, the epilogue when it is truthy, and FOOTER. */
  lemma DefaultTemplateLayout(ctx: TemplateContext)
    ensures DefaultTemplate(ctx) + FOOTER == Join(DefaultLines(ctx), "\n")
  {
    LinesLayout(TextOf(ctx.preamble), HEADER_ROW, SEPARATOR_ROW, RowLines(ctx.matchedRules),
                EpilogueLines(ctx.epilogue), FOOTER);
  }

  /** The layout of the default template over arbitrary lines: three head
      lines, terminated rows, a blank line, at most one epilogue line and a
      last line. */
  lemma LinesLayout(pre: string, header: string, separator: string, rows: seq<string>,
                    epilogue: seq<string>, last: string)
    requires |epilogue| <= 1
    ensures pre + "\n" + header + "\n" + separator + "\n" + Terminated(rows) + "\n"
            + (if |epilogue| == 1 then epilogue[0] + "\n" else "") + last
            == Join([pre, header, separator] + rows + [""] + epilogue + [last], "\n")
  {
    var head := pre + "\n" + header + "\n" + separator;
    var tail := [""] + epilogue + [last];
    var eTail := if |epilogue| == 1 then epilogue[0] + "\n" else "";
    assert [pre, header, separator] + rows + [""] + epilogue + [last] == [pre, header, separator] + (rows + tail);
    calc {
      Join([pre, header, separator] + (rows + tail), "\n");
      { HeadJoin(pre, header, separator, rows + tail); }
      head + "\n" + Join(rows + tail, "\n");
      { TerminatedJoin(rows, tail); }
      head + "\n" + (Terminated(rows) + Join(tail, "\n"));
      { TailJoin(epilogue, last); }
      head + "\n" + (Terminated(rows) + ("\n" + eTail + last));
      { ConcatLayout(head, Terminated(rows), eTail, last); }
      head + "\n" + Terminated(rows) + "\n" + eTail + last;
    }
  }

  lemma HeadJoin(a: string, b: string, c: string, rest: seq<string>)
    requires |rest| != 0
    ensures Join([a, b, c] + rest, "\n") == a + "\n" + b + "\n" + c + "\n" + Join(rest, "\n")
  {
    JoinThree(a, b, c, "\n");
    JoinAppend([a, b, c], rest, "\n");
  }

  lemma TailJoin(epilogue: seq<string>, last: string)
    requires |epilogue| <= 1
    ensures Join([""] + epilogue + [last], "\n") == "\n" + (if |epilogue| == 1 then epilogue[0] + "\n" else "") + last
  {
    if |epilogue| == 1 {
      assert [""] + epilogue + [last] == ["", epilogue[0], last];
      JoinThree("", epilogue[0], last, "\n");
    } else {
      assert [""] + epilogue + [last] == ["", last];
      assert ["", last][1..] == [last];
    }
  }

  lemma JoinThree(a: string, b: string, c: string, sep: string)
    ensures Join([a, b, c], sep) == a + sep + b + sep + c
  {
    assert [a, b, c][1..] == [b, c] && [b, c][1..] == [c];
    assert Join([b, c], sep) == b + sep + Join([c], sep);
    assert Join([a, b, c], sep) == a + sep + Join([b, c], sep);
  }

  lemma ConcatLayout(head: string, rows: string, eTail: string, footer: string)
    ensures head + "\n" + (rows + ("\n" + eTail + footer)) == head + "\n" + rows + "\n" + eTail + footer
  {
  }

  // ---------------------------------------------------------------------
  // The mentions list
  // ---------------------------------------------------------------------

  /** Every name some rule mentions. */
  ghost function Names(rules: seq<MatchedRule>): set<string>
  {
    set r, m | r in rules && m in r.mentions :: m
  }

  /** The files of every rule that mentions `name`. */
  ghost function FilesFor(rules: seq<MatchedRule>, name: string): set<string>
  {
    set r, f | r in rules && name in r.mentions && f in r.matchedFiles :: f
  }

  /** What `createMentionsList` promises: one entry per mentioned name, in
      ascending order of name, each holding the ascending, duplicate-free
      union of the files of the rules that mention it. */
  ghost predicate IsMentionsList(rules: seq<MatchedRule>, ms: seq<Mention>)
  {
    && StrictlySortedBy(ms, NameOf)
    && KeySet(ms, NameOf) == Names(rules)
    && forall k :: 0 <= k < |ms| ==>
         StrictlySortedBy(ms[k].matchedFiles, Id) && Elements(ms[k].matchedFiles) == FilesFor(rules, ms[k].name)
  }

  lemma {:induction false} MinExists(s: set<string>)
    requires s != {}
    ensures exists m :: m in s && forall x :: x in s ==> LexLe(m, x)
    decreases |s|
  {
    var y :| y in s;
    if s == {y} {
      LexLeRefl(y);
    } else {
      MinExists(s - {y});
      var m :| m in s - {y} && forall x :: x in s - {y} ==> LexLe(m, x);
      LexLeTotal(m, y);
      if LexLe(m, y) {
        assert forall x :: x in s ==> LexLe(m, x);
      } else {
        forall x | x in s ensures LexLe(y, x) {
          if x == y {
            LexLeRefl(y);
          } else {
            LexLeTrans(y, m, x);
          }
        }
      }
    }
  }

  lemma PrependMinimum(m: string, rest: seq<string>, s: set<string>)
    requires m in s && forall x :: x in s ==> LexLe(m, x)
    requires StrictlySortedBy(rest, Id) && Elements(rest) == s - {m}
    ensures StrictlySortedBy([m] + rest, Id) && Elements([m] + rest) == s
  {
    var r := [m] + rest;
    forall i, j | 0 <= i < j < |r| ensures Id(r[i]) != Id(r[j]) && LexLe(Id(r[i]), Id(r[j])) {
      if i == 0 {
        assert r[j] == rest[j - 1] && rest[j - 1] in Elements(rest);
      } else {
        assert r[i] == rest[i - 1] && r[j] == rest[j - 1];
      }
    }
    assert Elements(r) == {m} + Elements(rest);
  }

  /** The elements of a set in ascending order. */
  ghost function SortedElements(s: set<string>): (r: seq<string>)
    ensures StrictlySortedBy(r, Id) && Elements(r) == s
    decreases |s|
  {
    if s == {} then []
    else
      MinExists(s);
      var m :| m in s && forall x :: x in s ==> LexLe(m, x);
      var rest := SortedElements(s - {m});
      PrependMinimum(m, rest, s);
      [m] + rest
  }

  /** The mentions list, built from its specification. */
  ghost function MentionsOf(rules: seq<MatchedRule>): (ms: seq<Mention>)
    ensures IsMentionsList(rules, ms)
  {
    var names := SortedElements(Names(rules));
    var ms := seq(|names|, k requires 0 <= k < |names| => Mention(names[k], SortedElements(FilesFor(rules, names[k]))));
    assert forall k :: 0 <= k < |ms| ==> NameOf(ms[k]) == names[k];
    assert KeySet(ms, NameOf) == Elements(names) by {
      forall n | n in Elements(names) ensures n in KeySet(ms, NameOf) {
        var k :| 0 <= k < |names| && names[k] == n;
        assert ms[k] in ms;
      }
    }
    ms
  }

  /** There is only one list that meets the specification. */
  lemma MentionsListUnique(rules: seq<MatchedRule>, a: seq<Mention>, b: seq<Mention>)
    requires IsMentionsList(rules, a) && IsMentionsList(rules, b)
    ensures a == b
  {
    StrictlySortedUnique(a, b, NameOf);
    forall k | 0 <= k < |a| ensures a[k] == b[k] {
      IdKeys(a[k].matchedFiles);
      IdKeys(b[k].matchedFiles);
      StrictlySortedUnique(a[k].matchedFiles, b[k].matchedFiles, Id);
    }
  }

  lemma NamesStep(rules: seq<MatchedRule>, i: nat)
    requires i < |rules|
    ensures Names(rules[..i + 1]) == Names(rules[..i]) + Elements(rules[i].mentions)
  {
    assert rules[..i + 1] == rules[..i] + [rules[i]];
  }

  lemma FilesForStep(rules: seq<MatchedRule>, i: nat, name: string)
    requires i < |rules|
    ensures FilesFor(rules[..i + 1], name) ==
            FilesFor(rules[..i], name) + (if name in rules[i].mentions then Elements(rules[i].matchedFiles) else {})
  {
    assert rules[..i + 1] == rules[..i] + [rules[i]];
  }

  lemma FilesForUnmentioned(rules: seq<MatchedRule>, name: string)
    requires name !in Names(rules)
    ensures FilesFor(rules, name) == {}
  {
  }

  /** The state of `namesToFiles` after some rules: its keys, listed without
      repetition in `names`, are the names those rules mention, and each name's
      file set (a JavaScript Set: a duplicate-free list in insertion order)
      holds the files of the rules that mention it. */
  ghost predicate Grouped(rules: seq<MatchedRule>, namesToFiles: map<string, seq<string>>, names: seq<string>)
  {
    && KeysListed(Names(rules), namesToFiles, names)
    && forall n | n in namesToFiles ::
         NoDuplicates(namesToFiles[n]) && Elements(namesToFiles[n]) == FilesFor(rules, n)
  }

  /** `names` lists the keys of `namesToFiles`, which are `keys`, once each. */
  ghost predicate KeysListed(keys: set<string>, namesToFiles: map<string, seq<string>>, names: seq<string>)
  {
    Elements(names) == namesToFiles.Keys == keys && NoDuplicates(names)
  }

  /** Adding a key to the map, and to the list when it is new, keeps the two in step. */
  lemma KeysListedAdd(keys: set<string>, namesToFiles: map<string, seq<string>>, names: seq<string>,
                      name: string, fileSet: seq<string>)
    requires KeysListed(keys, namesToFiles, names)
    ensures KeysListed(keys + {name}, namesToFiles[name := fileSet],
                       if name in namesToFiles then names else names + [name])
  {
    if name !in namesToFiles {
      var longer := names + [name];
      assert Elements(longer) == Elements(names) + {name};
      forall a, b | 0 <= a < b < |longer| ensures longer[a] != longer[b] {
        assert longer[a] == names[a];
      }
    }
  }

  /** Each file set of `namesToFiles` holds the files of the rules in `prior`
      that mention its name, plus `files` when `mentioned` holds the name. */
  ghost predicate FilesGrouped(prior: seq<MatchedRule>, mentioned: seq<string>, files: seq<string>,
                               namesToFiles: map<string, seq<string>>)
  {
    forall n | n in namesToFiles ::
      && NoDuplicates(namesToFiles[n])
      && Elements(namesToFiles[n]) == FilesFor(prior, n) + (if n in mentioned then Elements(files) else {})
  }

  /** Giving one more name the files keeps the file sets grouped. */
  lemma FilesGroupedAdd(prior: seq<MatchedRule>, mentioned: seq<string>, files: seq<string>,
                        namesToFiles: map<string, seq<string>>, name: string, fileSet: seq<string>)
    requires FilesGrouped(prior, mentioned, files, namesToFiles)
    requires name in namesToFiles || (FilesFor(prior, name) == {} && name !in mentioned)
    requires NoDuplicates(fileSet)
    requires Elements(fileSet) == (if name in namesToFiles then Elements(namesToFiles[name]) else {}) + Elements(files)
    ensures FilesGrouped(prior, mentioned + [name], files, namesToFiles[name := fileSet])
  {
    var updated := namesToFiles[name := fileSet];
    forall n | n in updated
      ensures NoDuplicates(updated[n])
      ensures Elements(updated[n]) == FilesFor(prior, n) + (if n in mentioned + [name] then Elements(files) else {})
    {
      if n != name {
        assert (n in mentioned + [name]) == (n in mentioned);
      }
    }
  }

  /** `for (const file of files) fileSet.add(file)` */
  method AddAll(fileSet: seq<string>, files: seq<string>) returns (r: seq<string>)
    requires NoDuplicates(fileSet)
    ensures NoDuplicates(r)
    ensures Elements(r) == Elements(fileSet) + Elements(files)
    ensures |fileSet| <= |r| && r[..|fileSet|] == fileSet
  {
    r := fileSet;
    for k := 0 to |files|
      invariant NoDuplicates(r)
      invariant Elements(r) == Elements(fileSet) + Elements(files[..k])
      invariant |fileSet| <= |r| && r[..|fileSet|] == fileSet
    {
      assert files[..k + 1] == files[..k] + [files[k]];
      if files[k] !in r {
        assert Elements(r + [files[k]]) == Elements(r) + {files[k]};
        r := r + [files[k]];
      }
    }
    assert files[..|files|] == files;
  }

  /** The state of `namesToFiles` part way through one rule: the rules
      before it are grouped, and so are its first `j` mentions. */
  ghost predicate PartlyGrouped(prior: seq<MatchedRule>, rule: MatchedRule, j: nat,
                                namesToFiles: map<string, seq<string>>, names: seq<string>)
    requires j <= |rule.mentions|
  {
    && KeysListed(Names(prior) + Elements(rule.mentions[..j]), namesToFiles, names)
    && FilesGrouped(prior, rule.mentions[..j], rule.matchedFiles, namesToFiles)
  }

  /** One pass of the middle loop: the file set of the rule's `j`-th mention,
      created when the name is new, receives the rule's files. */
  method AddMention(prior: seq<MatchedRule>, rule: MatchedRule, j: nat,
                    namesToFiles0: map<string, seq<string>>, names0: seq<string>)
    returns (namesToFiles: map<string, seq<string>>, names: seq<string>)
    requires j < |rule.mentions| && PartlyGrouped(prior, rule, j, namesToFiles0, names0)
    ensures PartlyGrouped(prior, rule, j + 1, namesToFiles, names)
  {
    var name := rule.mentions[j];
    ghost var before := rule.mentions[..j];
    assert rule.mentions[..j + 1] == before + [name];
    assert Elements(before + [name]) == Elements(before) + {name};
    var fileSet: seq<string>;
    if name in namesToFiles0 {
      fileSet := namesToFiles0[name];
      names := names0;
    } else {
      FilesForUnmentioned(prior, name);
      fileSet := [];
      names := names0 + [name];
    }
    fileSet := AddAll(fileSet, rule.matchedFiles);
    KeysListedAdd(Names(prior) + Elements(before), namesToFiles0, names0, name, fileSet);
    FilesGroupedAdd(prior, before, rule.matchedFiles, namesToFiles0, name, fileSet);
    namesToFiles := namesToFiles0[name := fileSet];
  }

  /** One pass of the outer loop of `createMentionsList`: the rule's files
      go into the file set of each name the rule mentions. */
  method AddRule(rules: seq<MatchedRule>, i: nat, namesToFiles0: map<string, seq<string>>, names0: seq<string>)
    returns (namesToFiles: map<string, seq<string>>, names: seq<string>)
    requires i < |rules| && Grouped(rules[..i], namesToFiles0, names0)
    ensures Grouped(rules[..i + 1], namesToFiles, names)
  {
    namesToFiles, names := namesToFiles0, names0;
    var rule := rules[i];
    assert rule.mentions[..0] == [];
    for j := 0 to |rule.mentions|
      invariant PartlyGrouped(rules[..i], rule, j, namesToFiles, names)
    {
      namesToFiles, names := AddMention(rules[..i], rule, j, namesToFiles, names);
    }
    assert rule.mentions[..|rule.mentions|] == rule.mentions;
    NamesStep(rules, i);
    forall n | n in namesToFiles
      ensures Elements(namesToFiles[n]) == FilesFor(rules[..i + 1], n)
    {
      FilesForStep(rules, i, n);
    }
  }

  /** The nested loops of `createMentionsList` that fill `namesToFiles`. */
  method GroupFilesByName(rules: seq<MatchedRule>) returns (namesToFiles: map<string, seq<string>>, names: seq<string>)
    ensures Grouped(rules, namesToFiles, names)
  {
    namesToFiles := map[];
    names := [];  // the Map's keys in insertion order
    for i := 0 to |rules|
      invariant Grouped(rules[..i], namesToFiles, names)
    {
      namesToFiles, names := AddRule(rules, i, namesToFiles, names);
    }
    assert rules[..|rules|] == rules;
  }

  /** `mentions.push({name, matchedFiles: [...fileSet].sort()})` for every
      entry of `namesToFiles`. */
  method SortedEntries(rules: seq<MatchedRule>, namesToFiles: map<string, seq<string>>, names: seq<string>)
    returns (unsorted: seq<Mention>)
    requires Grouped(rules, namesToFiles, names)
    ensures |unsorted| == |names|
    ensures forall k :: 0 <= k < |names| ==>
              && unsorted[k].name == names[k]
              && StrictlySortedBy(unsorted[k].matchedFiles, Id)
              && Elements(unsorted[k].matchedFiles) == FilesFor(rules, names[k])
  {
    unsorted := [];
    for i := 0 to |names|
      invariant |unsorted| == i
      invariant forall k :: 0 <= k < i ==>
                  && unsorted[k].name == names[k]
                  && StrictlySortedBy(unsorted[k].matchedFiles, Id)
                  && Elements(unsorted[k].matchedFiles) == FilesFor(rules, names[k])
    {
      assert names[i] in Elements(names);
      var files := namesToFiles[names[i]];
      IdKeys(files);
      var sortedFiles := SortBy(files, Id);
      assert Elements(sortedFiles) == Elements(files) by {
        assert forall x :: x in sortedFiles <==> x in multiset(sortedFiles);
        assert forall x :: x in files <==> x in multiset(files);
      }
      unsorted := unsorted + [Mention(names[i], sortedFiles)];
    }
  }

  /** `createMentionsList` */
  method CreateMentionsList(rules: seq<MatchedRule>) returns (mentions: seq<Mention>)
    ensures IsMentionsList(rules, mentions)
    ensures mentions == MentionsOf(rules)
  {
    var namesToFiles, names := GroupFilesByName(rules);
    var unsorted := SortedEntries(rules, namesToFiles, names);
    assert DistinctKeys(unsorted, NameOf);
    mentions := SortBy(unsorted, NameOf);
    assert forall m :: m in mentions <==> m in unsorted by {
      assert forall m :: m in mentions <==> m in multiset(mentions);
      assert forall m :: m in unsorted <==> m in multiset(unsorted);
    }
    assert KeySet(mentions, NameOf) == Names(rules) by {
      forall n | n in Names(rules) ensures n in KeySet(mentions, NameOf) {
        var k :| 0 <= k < |names| && names[k] == n;
        assert unsorted[k] in unsorted;
      }
    }
    forall k | 0 <= k < |mentions|
      ensures StrictlySortedBy(mentions[k].matchedFiles, Id)
      ensures Elements(mentions[k].matchedFiles) == FilesFor(rules, mentions[k].name)
    {
      assert mentions[k] in unsorted;
      var p :| 0 <= p < |unsorted| && unsorted[p] == mentions[k];
    }
    MentionsListUnique(rules, mentions, MentionsOf(rules));
  }

  // ---------------------------------------------------------------------
  // render
  // ---------------------------------------------------------------------

  /** The template `render` uses: the configured one or DEFAULT_TEMPLATE. */
  datatype Template = DefaultTemplateSource | Custom(source: string)

  /** Evaluation of a custom Handlebars template against a context, with the
      markdownEscape helper registered and HTML escaping off. */
  type Handlebars = (string, TemplateContext) -> string

  function SelectTemplate(config: Option<CommentConfiguration>): (t: Template)
    ensures t.Custom? <==> config.Some? && config.value.template.Some?
  {
    if config.Some? && config.value.template.Some? then Custom(config.value.template.value)
    else DefaultTemplateSource
  }

  /** `commentConfiguration?.preamble ?? DEFAULT_COMMENT_PREAMBLE` */
  function PreambleOf(config: Option<CommentConfiguration>): string
  {
    if config.Some? && config.value.preamble.Some? then config.value.preamble.value
    else DEFAULT_COMMENT_PREAMBLE
  }

  /** `commentConfiguration?.epilogue` */
  function EpilogueOf(config: Option<CommentConfiguration>): Option<string>
  {
    if config.Some? then config.value.epilogue else None
  }

  function Evaluate(template: Template, ctx: TemplateContext, handlebars: Handlebars): (r: string)
    ensures template.DefaultTemplateSource? ==> StartsWith(r, TextOf(ctx.preamble) + "\n" + HEADER_ROW + "\n")
  {
    match template
    case DefaultTemplateSource => DefaultTemplate(ctx)
    case Custom(source) => handlebars(source, ctx)
  }

  ghost function RenderContext(rules: seq<MatchedRule>, config: Option<CommentConfiguration>): (ctx: TemplateContext)
    ensures ctx.matchedRules == rules && IsMentionsList(rules, ctx.mentions)
    ensures ctx.preamble.Some? && ctx.epilogue == EpilogueOf(config)
  {
    TemplateContext(rules, MentionsOf(rules), Some(PreambleOf(config)), EpilogueOf(config))
  }

  /** What `render` returns. */
  ghost function RenderSpec(rules: seq<MatchedRule>, config: Option<CommentConfiguration>, handlebars: Handlebars): (r: string)
    ensures EndsWith(r, FOOTER)
  {
    Evaluate(SelectTemplate(config), RenderContext(rules, config), handlebars) + FOOTER
  }

  method Render(rules: seq<MatchedRule>, config: Option<CommentConfiguration>, handlebars: Handlebars)
    returns (comment: string)
    ensures comment == RenderSpec(rules, config, handlebars)
    ensures EndsWith(comment, FOOTER)
  {
    var template := SelectTemplate(config);
    var mentions := CreateMentionsList(rules);
    var context := TemplateContext(rules, mentions, Some(PreambleOf(config)), EpilogueOf(config));
    var body := Evaluate(template, context, handlebars);
    comment := body + FOOTER;
  }

  /** `render` applies the custom template when one is configured, and the
      default one otherwise, to a context whose preamble is the configured
      one or DEFAULT_COMMENT_PREAMBLE and whose epilogue is passed through. */
  lemma RenderTemplateChoice(rules: seq<MatchedRule>, config: Option<CommentConfiguration>, handlebars: Handlebars)
    ensures var ctx := RenderContext(rules, config);
            && ctx.matchedRules == rules
            && IsMentionsList(rules, ctx.mentions)
            && ctx.preamble == Some(if config.Some? && config.value.preamble.Some? then config.value.preamble.value
                                    else DEFAULT_COMMENT_PREAMBLE)
            && ctx.epilogue == (if config.Some? then config.value.epilogue else None)
            && RenderSpec(rules, config, handlebars) ==
               (if config.Some? && config.value.template.Some? then handlebars(config.value.template.value, ctx)
                else DefaultTemplate(ctx)) + FOOTER
  {
  }

  /** With no custom template the comment is, line by line, the preamble, the
      table header, one row per matched rule in order, a blank line, the
      epilogue when it is truthy, and FOOTER. */
  lemma DefaultRenderLayout(rules: seq<MatchedRule>, config: Option<CommentConfiguration>, handlebars: Handlebars)
    requires SelectTemplate(config) == DefaultTemplateSource
    ensures RenderSpec(rules, config, handlebars) ==
            Join([PreambleOf(config), HEADER_ROW, SEPARATOR_ROW] + RowLines(rules)
                 + [""] + EpilogueLines(EpilogueOf(config)) + [FOOTER], "\n")
  {
    DefaultTemplateLayout(RenderContext(rules, config));
  }
}
