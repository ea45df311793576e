/** The importer's configuration: the three values `GitLabToGitHub` keeps for its whole life.
    None of them is changed after construction, so the importer is an immutable value. */
module Config {
  import opened Wrappers
  import Strings

  datatype Importer = Importer(
    githubToken: string,
    gitlabBaseUrl: string,           // with trailing slashes removed
    organization: Option<string>)    // None: import into the authenticated user's account

  /** Builds the importer; only the configured source base loses its trailing slashes. */
  function NewImporter(githubToken: string, gitlabBaseUrl: string, organization: Option<string>): (imp: Importer)
    ensures imp.githubToken == githubToken && imp.organization == organization
    ensures |imp.gitlabBaseUrl| <= |gitlabBaseUrl|
    ensures imp.gitlabBaseUrl == gitlabBaseUrl[..|imp.gitlabBaseUrl|]
    ensures imp.gitlabBaseUrl == [] || imp.gitlabBaseUrl[|imp.gitlabBaseUrl| - 1] != '/'
    ensures forall i :: |imp.gitlabBaseUrl| <= i < |gitlabBaseUrl| ==> gitlabBaseUrl[i] == '/'
  {
    Importer(githubToken, Strings.RStrip(gitlabBaseUrl, '/'), organization)
  }

  /** The organization as Python's `if self.organization:` sees it: an empty name is false. */
  function ActiveOrganization(imp: Importer): (org: Option<string>)
    ensures org.Some? <==> imp.organization.Some? && imp.organization.value != ""
    ensures org.Some? ==> org == imp.organization
  {
    match imp.organization
    case Some(o) => if o != "" then Some(o) else None
    case None => None
  }
}
