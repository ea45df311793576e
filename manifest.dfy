/** `parse_manifest`: turning the manifest's remote and project elements into project records. */
module Manifest {
  import opened Wrappers
  import opened Strings
  import opened Config

  /** A `<remote>` element; an absent attribute is None. */
  datatype RemoteElement = RemoteElement(name: Option<string>, fetch: Option<string>)

  /** A `<project>` element; an absent attribute is None. */
  datatype ProjectElement = ProjectElement(
    path: Option<string>, name: Option<string>, remote: Option<string>, revision: Option<string>)

  /** The parsed document: its `remote` and its `project` children, each in document order. */
  datatype Document = Document(remotes: seq<RemoteElement>, projects: seq<ProjectElement>)

  /** One entry of the list `parse_manifest` returns. */
  datatype ProjectRecord = ProjectRecord(
    path: Option<string>, name: Option<string>, remote: string, revision: string, gitlabUrl: string)

  /** Remote name to fetch value; both sides may be None, as in the source's dict. */
  type RemoteTable = map<Option<string>, Option<string>>

  const DEFAULT_REMOTE := "origin"
  const DEFAULT_REVISION := "main"

  /** How an f-string renders an optional attribute: None becomes the text `None`. */
  function Render(attr: Option<string>): string {
    match attr
    case Some(s) => s
    case None => "None"
  }

  /** The remote table, filled element by element: a later element with the same name overwrites. */
  function CollectRemotes(remotes: seq<RemoteElement>): RemoteTable
    decreases |remotes|
  {
    if remotes == [] then map[]
    else
      var last := remotes[|remotes| - 1];
      CollectRemotes(remotes[..|remotes| - 1])[last.name := last.fetch]
  }

  /** A name is in the table exactly when some element declares it, and it maps to the fetch
      value of the LAST element that declares it. */
  lemma {:induction false} CollectRemotesLastWins(remotes: seq<RemoteElement>, key: Option<string>)
    ensures key in CollectRemotes(remotes) <==> exists i :: 0 <= i < |remotes| && remotes[i].name == key
    ensures forall j :: 0 <= j < |remotes| && remotes[j].name == key &&
                        (forall l :: j < l < |remotes| ==> remotes[l].name != key)
                        ==> CollectRemotes(remotes)[key] == remotes[j].fetch
    decreases |remotes|
  {
    if remotes != [] {
      var init := remotes[..|remotes| - 1];
      CollectRemotesLastWins(init, key);
      assert forall i :: 0 <= i < |init| ==> init[i] == remotes[i];
    }
  }

  /** One project element resolved against the remote table; None when the source raises,
      that is when the referenced remote is declared without a `fetch` attribute. */
  function ResolveProject(gitlabBaseUrl: string, remotes: RemoteTable, p: ProjectElement): (r: Option<ProjectRecord>)
    ensures r.None? <==> Some(p.remote.GetOr(DEFAULT_REMOTE)) in remotes && remotes[Some(p.remote.GetOr(DEFAULT_REMOTE))].None?
    ensures r.Some? ==>
      && r.value.path == p.path && r.value.name == p.name
      && r.value.remote == p.remote.GetOr(DEFAULT_REMOTE)
      && r.value.revision == p.revision.GetOr(DEFAULT_REVISION)
  {
    var remote := p.remote.GetOr(DEFAULT_REMOTE);
    var revision := p.revision.GetOr(DEFAULT_REVISION);
    if Some(remote) in remotes then
      match remotes[Some(remote)]
      case None => None
      case Some(fetch) =>
        var baseUrl := if StartsWith(fetch, "http") then fetch else gitlabBaseUrl;
        Some(ProjectRecord(p.path, p.name, remote, revision, baseUrl + "/" + Render(p.name) + ".git"))
    else
      Some(ProjectRecord(p.path, p.name, remote, revision, gitlabBaseUrl + "/" + Render(p.name) + ".git"))
  }

  /** The source clone URL of a resolved project follows the fallback rule: the remote's fetch
      value verbatim when the remote is declared and its fetch starts with `http`, otherwise the
      configured base. */
  lemma SourceUrlRule(gitlabBaseUrl: string, remotes: RemoteTable, p: ProjectElement)
    requires ResolveProject(gitlabBaseUrl, remotes, p).Some?
    ensures var key := Some(p.remote.GetOr(DEFAULT_REMOTE));
      var url := ResolveProject(gitlabBaseUrl, remotes, p).value.gitlabUrl;
      && (key !in remotes ==> url == gitlabBaseUrl + "/" + Render(p.name) + ".git")
      && (key in remotes && !StartsWith(remotes[key].value, "http") ==> url == gitlabBaseUrl + "/" + Render(p.name) + ".git")
      && (key in remotes && StartsWith(remotes[key].value, "http") ==> url == remotes[key].value + "/" + Render(p.name) + ".git")
  {
  }

  /** All project elements resolved in order, as the loop appends them; None as soon as one raises. */
  function ResolveAll(gitlabBaseUrl: string, remotes: RemoteTable, projects: seq<ProjectElement>): Option<seq<ProjectRecord>>
    decreases |projects|
  {
    if projects == [] then Some([])
    else
      match ResolveAll(gitlabBaseUrl, remotes, projects[..|projects| - 1])
      case None => None
      case Some(done) =>
        match ResolveProject(gitlabBaseUrl, remotes, projects[|projects| - 1])
        case None => None
        case Some(rec) => Some(done + [rec])
  }

  /** Once a prefix of the project elements raises, the whole list raises. */
  lemma {:induction false} ResolveAllFailurePersists(gitlabBaseUrl: string, remotes: RemoteTable, projects: seq<ProjectElement>, n: nat)
    requires n <= |projects|
    requires ResolveAll(gitlabBaseUrl, remotes, projects[..n]).None?
    ensures ResolveAll(gitlabBaseUrl, remotes, projects).None?
    decreases |projects| - n
  {
    if n < |projects| {
      var init := projects[..|projects| - 1];
      assert init[..n] == projects[..n];
      ResolveAllFailurePersists(gitlabBaseUrl, remotes, init, n);
    } else {
      assert projects[..n] == projects;
    }
  }

  /** Resolution of the whole list succeeds exactly when every element resolves, and then gives
      one record per element, in document order. */
  lemma {:induction false} ResolveAllPointwise(gitlabBaseUrl: string, remotes: RemoteTable, projects: seq<ProjectElement>)
    ensures ResolveAll(gitlabBaseUrl, remotes, projects).Some? <==>
      forall i :: 0 <= i < |projects| ==> ResolveProject(gitlabBaseUrl, remotes, projects[i]).Some?
    ensures ResolveAll(gitlabBaseUrl, remotes, projects).Some? ==>
      var records := ResolveAll(gitlabBaseUrl, remotes, projects).value;
      && |records| == |projects|
      && forall i :: 0 <= i < |projects| ==> Some(records[i]) == ResolveProject(gitlabBaseUrl, remotes, projects[i])
    decreases |projects|
  {
    if projects != [] {
      var init := projects[..|projects| - 1];
      ResolveAllPointwise(gitlabBaseUrl, remotes, init);
      assert forall i :: 0 <= i < |init| ==> init[i] == projects[i];
    }
  }

  /** What `parse_manifest` returns: None stands for a document `ET.parse` could not read. */
  function ParsedProjects(imp: Importer, doc: Option<Document>): seq<ProjectRecord> {
    match doc
    case None => []
    case Some(d) => ResolveAll(imp.gitlabBaseUrl, CollectRemotes(d.remotes), d.projects).GetOr([])
  }

  /** All or nothing: if any project element raises the result is empty; otherwise it holds
      exactly one record per project element, in document order, with defaults filled in. */
  lemma ParsedProjectsShape(imp: Importer, d: Document)
    ensures var remotes := CollectRemotes(d.remotes);
      (exists i :: 0 <= i < |d.projects| && ResolveProject(imp.gitlabBaseUrl, remotes, d.projects[i]).None?) ==>
        ParsedProjects(imp, Some(d)) == []
    ensures var remotes := CollectRemotes(d.remotes);
      (forall i :: 0 <= i < |d.projects| ==> ResolveProject(imp.gitlabBaseUrl, remotes, d.projects[i]).Some?) ==>
        && |ParsedProjects(imp, Some(d))| == |d.projects|
        && forall i :: 0 <= i < |d.projects| ==>
             Some(ParsedProjects(imp, Some(d))[i]) == ResolveProject(imp.gitlabBaseUrl, remotes, d.projects[i])
  {
    ResolveAllPointwise(imp.gitlabBaseUrl, CollectRemotes(d.remotes), d.projects);
  }

  /** A declared remote whose fetch value ends in a slash is used verbatim: the clone URL gets
      two slashes in a row. */
  lemma VerbatimFetchExample(gitlabBaseUrl: string, remotes: RemoteTable, p: ProjectElement)
    requires gitlabBaseUrl == "https://gitlab.com"
    requires remotes == map[Some("origin") := Some("https://gitlab.com/")]
    requires p == ProjectElement(Some("libfoo"), Some("teamA/libfoo"), Some("origin"), Some("main"))
    ensures ResolveProject(gitlabBaseUrl, remotes, p) ==
      Some(ProjectRecord(Some("libfoo"), Some("teamA/libfoo"), "origin", "main", "https://gitlab.com//teamA/libfoo.git"))
  {
    assert StartsWith("https://gitlab.com/", "http");
    assert "https://gitlab.com/" + "/" + "teamA/libfoo" + ".git" == "https://gitlab.com//teamA/libfoo.git";
  }

  /** A project naming an undeclared remote falls back to the configured base. */
  lemma UndeclaredRemoteExample(gitlabBaseUrl: string, remotes: RemoteTable, p: ProjectElement)
    requires gitlabBaseUrl == "https://gitlab.com"
    requires remotes == map[Some("origin") := Some("https://gitlab.com/")]
    requires p == ProjectElement(Some("libbar"), Some("teamA/libbar"), Some("upstream"), Some("develop"))
    ensures ResolveProject(gitlabBaseUrl, remotes, p) ==
      Some(ProjectRecord(Some("libbar"), Some("teamA/libbar"), "upstream", "develop", "https://gitlab.com/teamA/libbar.git"))
  {
    assert Some("upstream") !in remotes;
    assert "https://gitlab.com" + "/" + "teamA/libbar" + ".git" == "https://gitlab.com/teamA/libbar.git";
  }

  /** The first loop of `parse_manifest`: every remote element, in order, sets its name's entry. */
  method CollectRemoteTable(elements: seq<RemoteElement>) returns (remotes: RemoteTable)
    ensures remotes == CollectRemotes(elements)
  {
    remotes := map[];
    var i := 0;
    while i < |elements|
      invariant 0 <= i <= |elements|
      invariant remotes == CollectRemotes(elements[..i])
    {
      assert elements[..i + 1][..i] == elements[..i];
      remotes := remotes[elements[i].name := elements[i].fetch];
      i := i + 1;
    }
    assert elements[..i] == elements;
  }

  /** The second loop of `parse_manifest`: each project element in turn is resolved and appended;
      None when one raises, which ends the whole parse. */
  method ResolveProjects(gitlabBaseUrl: string, remotes: RemoteTable, elements: seq<ProjectElement>)
    returns (projects: Option<seq<ProjectRecord>>)
    ensures projects == ResolveAll(gitlabBaseUrl, remotes, elements)
  {
    var done := [];
    var j := 0;
    while j < |elements|
      invariant 0 <= j <= |elements|
      invariant ResolveAll(gitlabBaseUrl, remotes, elements[..j]) == Some(done)
    {
      var p := elements[j];
      var remote := if p.remote.Some? then p.remote.value else DEFAULT_REMOTE;
      var revision := if p.revision.Some? then p.revision.value else DEFAULT_REVISION;
      var gitlabUrl;
      assert elements[..j + 1][..j] == elements[..j];
      if Some(remote) in remotes {
        var baseUrl := remotes[Some(remote)];
        if baseUrl.None? {
          // `None.startswith` raises
          ResolveAllFailurePersists(gitlabBaseUrl, remotes, elements, j + 1);
          return None;
        }
        var base := baseUrl.value;
        if !StartsWith(base, "http") {
          base := gitlabBaseUrl;
        }
        gitlabUrl := base + "/" + Render(p.name) + ".git";
      } else {
        gitlabUrl := gitlabBaseUrl + "/" + Render(p.name) + ".git";
      }
      done := done + [ProjectRecord(p.path, p.name, remote, revision, gitlabUrl)];
      j := j + 1;
    }
    assert elements[..j] == elements;
    return Some(done);
  }

  /** `parse_manifest`: collect the remotes, then resolve and append each project in turn;
      any exception makes the result the empty list. */
  method ParseManifest(imp: Importer, doc: Option<Document>) returns (projects: seq<ProjectRecord>)
    ensures projects == ParsedProjects(imp, doc)
  {
    if doc.None? {
      return [];   // ET.parse raised
    }
    var remotes := CollectRemoteTable(doc.value.remotes);
    var resolved := ResolveProjects(imp.gitlabBaseUrl, remotes, doc.value.projects);
    if resolved.None? {
      return [];   // the handler returns the empty list
    }
    projects := resolved.value;
  }
}
