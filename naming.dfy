/** Destination repository names: `extract_repo_name` and the naming expression that both the
    preview listing and the import loop of `process_manifest` use. */
module Naming {
  import opened Wrappers
  import opened Strings

  /** `extract_repo_name`: the last `/`-separated piece of the project name. The fallback to the
      whole name is never taken, because a split always has at least one piece. */
  function ExtractRepoName(projectName: string): string {
    var parts := Split(projectName, '/');
    if |parts| > 0 then parts[|parts| - 1] else projectName
  }

  /** The repository name is the longest suffix of the project name without a `/`. */
  lemma ExtractRepoNameSpec(projectName: string)
    ensures var r := ExtractRepoName(projectName);
      && '/' !in r
      && |r| <= |projectName| && r == projectName[|projectName| - |r|..]
      && (|r| < |projectName| ==> projectName[|projectName| - |r| - 1] == '/')
      && ('/' !in projectName ==> r == projectName)
  {
    SplitLastPiece(projectName, '/');
  }

  /** A position inside a suffix holds a character of that suffix. */
  lemma InSuffix(s: string, n: int, k: int)
    ensures 0 <= n <= |s| && |s| - n <= k < |s| ==> s[k] in s[|s| - n..]
  {
    if 0 <= n <= |s| && |s| - n <= k < |s| {
      assert s[|s| - n..][k - (|s| - n)] == s[k];
    }
  }

  /** When the last `/` of a name sits at position k, the repository name is what follows it. */
  lemma {:induction false} ExtractAfterLastSlash(s: string, k: nat)
    requires k < |s| && s[k] == '/' && '/' !in s[k + 1..]
    ensures ExtractRepoName(s) == s[k + 1..]
  {
    var r := ExtractRepoName(s);
    ExtractRepoNameSpec(s);
    InSuffix(s, |r|, k);
    InSuffix(s, |s| - k - 1, |s| - |r| - 1);
    assert |r| == |s| - k - 1;
  }

  /** The two examples of a nested and of a plain project name. */
  lemma ExtractRepoNameExamples()
    ensures ExtractRepoName("group/subgroup/repo") == "repo"
    ensures ExtractRepoName("repo") == "repo"
  {
    var s := "group/subgroup/repo";
    assert s[15..] == "repo";
    ExtractAfterLastSlash(s, 14);
    ExtractRepoNameSpec("repo");
  }

  /** The destination name of a project: the custom name if the map has one for it, otherwise
      the last piece of the project name, with the prefix in front. None stands for the
      exception `extract_repo_name` raises on a project without a name. */
  function DestinationName(prefix: string, customNames: Option<map<string, string>>, name: Option<string>): (r: Option<string>)
    ensures r.Some? <==> name.Some?
    ensures name.Some? && customNames.Some? && name.value in customNames.value ==>
      r.value == prefix + customNames.value[name.value]
    ensures name.Some? && (customNames.None? || name.value !in customNames.value) ==>
      r.value == prefix + ExtractRepoName(name.value)
  {
    match name
    case None => None
    case Some(n) =>
      var repoName :=
        if customNames.Some? && customNames.value != map[] then
          (if n in customNames.value then customNames.value[n] else ExtractRepoName(n))
        else ExtractRepoName(n);
      Some(if prefix != "" then prefix + repoName else repoName)
  }

  /** Without a custom name, the destination is the prefix followed by a name free of `/`
      that ends the project name. */
  lemma DerivedNameShape(prefix: string, customNames: Option<map<string, string>>, name: string)
    requires customNames.None? || name !in customNames.value
    ensures var r := DestinationName(prefix, customNames, Some(name)).value;
      && |prefix| <= |r| && r[..|prefix|] == prefix
      && '/' !in r[|prefix|..]
      && |r| - |prefix| <= |name|
      && r[|prefix|..] == name[|name| - (|r| - |prefix|)..]
  {
    var r := DestinationName(prefix, customNames, Some(name)).value;
    ExtractRepoNameSpec(name);
    assert r[|prefix|..] == ExtractRepoName(name);
  }
}
