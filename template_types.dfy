/** The values a comment template can see. */
module TemplateTypes {
  import opened Wrappers

  /** A mention rule narrowed to the changed files that matched it. */
  datatype MatchedRule = MatchedRule(
    patterns: seq<string>,
    mentions: seq<string>,
    matchedFiles: seq<string>)

  /** One mentioned user or team and every file that brought them in. */
  datatype Mention = Mention(name: string, matchedFiles: seq<string>)

  function NameOf(m: Mention): string { m.name }

  /** The variables of a comment template, including the `mentions` list the
      renderer builds. */
  datatype TemplateContext = TemplateContext(
    matchedRules: seq<MatchedRule>,
    mentions: seq<Mention>,
    preamble: Option<string>,
    epilogue: Option<string>)
}
