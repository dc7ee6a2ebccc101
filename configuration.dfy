/** The configuration read from a repository's `.github/codemention.yml`. */
module Configuration {
  import opened Wrappers

  /** A rule that determines who to mention when files match. `mentions` are
      names of users or teams without the at sign, in configured order. */
  datatype MentionRule = MentionRule(patterns: seq<string>, mentions: seq<string>)

  /** Options for the posted comment; each may be absent (`undefined`). */
  datatype CommentConfiguration = CommentConfiguration(
    template: Option<string>,
    preamble: Option<string>,
    epilogue: Option<string>)

  datatype Configuration = Configuration(
    rules: seq<MentionRule>,
    commentConfiguration: Option<CommentConfiguration>)
}
