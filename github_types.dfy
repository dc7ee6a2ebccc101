/** Identifiers for a GitHub repository (src/github-types.ts). */
module GitHubTypes {
  datatype Repo = Repo(owner: string, repo: string)
}
