/** `process_manifest`: parse, list the planned names, ask for confirmation, then import every
    project in order and tally the results. */
module Batch {
  import opened Wrappers
  import opened Config
  import opened Manifest
  import opened Naming
  import opened Hosting

  /** How a run of `process_manifest` ends. */
  datatype RunOutcome =
    | NoProjects                                         // "No projects found in manifest"
    | Crashed                                            // a project without a name: extract_repo_name raises
    | Cancelled                                          // the confirmation was not "y"
    | Summary(successful: nat, failed: nat, total: nat)  // the import summary

  /** Every project record carries a name (otherwise the naming expression raises). */
  predicate AllNamed(projects: seq<ProjectRecord>) {
    forall i :: 0 <= i < |projects| ==> projects[i].name.Some?
  }

  /** How many of the calls made so far ended in a successful import, the k-th call being
      answered by `replies(k)`. */
  function CountImported(imp: Importer, calls: seq<ImportCall>, replies: nat -> HostReplies): (n: nat)
    ensures n <= |calls|
    decreases |calls|
  {
    if calls == [] then 0
    else
      var k := |calls| - 1;
      CountImported(imp, calls[..k], replies) + (if ImportRepository(imp, calls[k], replies(k)).Succeeded() then 1 else 0)
  }

  /** The tally counts each success and nothing else: all calls succeeding gives the full count,
      none succeeding gives zero. */
  lemma {:induction false} CountImportedExtremes(imp: Importer, calls: seq<ImportCall>, replies: nat -> HostReplies)
    ensures (forall k :: 0 <= k < |calls| ==> ImportRepository(imp, calls[k], replies(k)).Succeeded()) ==>
      CountImported(imp, calls, replies) == |calls|
    ensures (forall k :: 0 <= k < |calls| ==> !ImportRepository(imp, calls[k], replies(k)).Succeeded()) ==>
      CountImported(imp, calls, replies) == 0
    decreases |calls|
  {
    if calls != [] {
      var init := calls[..|calls| - 1];
      CountImportedExtremes(imp, init, replies);
      assert forall k :: 0 <= k < |init| ==> init[k] == calls[k];
    }
  }

  /** Appending one call adds one to the tally exactly when that call succeeds. */
  lemma CountImportedStep(imp: Importer, calls: seq<ImportCall>, call: ImportCall, replies: nat -> HostReplies)
    ensures CountImported(imp, calls + [call], replies) ==
      CountImported(imp, calls, replies) + (if ImportRepository(imp, call, replies(|calls|)).Succeeded() then 1 else 0)
  {
  }

  /** The preview loop of `process_manifest`: the destination name of every project, in order;
      None when a project without a name makes the naming expression raise. */
  method PreviewNames(prefix: string, customNames: Option<map<string, string>>, projects: seq<ProjectRecord>)
    returns (listing: Option<seq<string>>)
    ensures listing.Some? <==> AllNamed(projects)
    ensures listing.Some? ==>
      && |listing.value| == |projects|
      && forall i :: 0 <= i < |projects| ==> Some(listing.value[i]) == DestinationName(prefix, customNames, projects[i].name)
  {
    var names := [];
    var i := 0;
    while i < |projects|
      invariant 0 <= i <= |projects| && |names| == i
      invariant forall k :: 0 <= k < i ==> projects[k].name.Some?
      invariant forall k :: 0 <= k < i ==> Some(names[k]) == DestinationName(prefix, customNames, projects[k].name)
    {
      var repoName := DestinationName(prefix, customNames, projects[i].name);
      if repoName.None? {
        return None;
      }
      names := names + [repoName.value];
      i := i + 1;
    }
    return Some(names);
  }

  /** The `import_repository` call made for a named project. */
  function PlannedCall(prefix: string, customNames: Option<map<string, string>>, project: ProjectRecord): (call: ImportCall)
    requires project.name.Some?
  {
    ImportCall(project.gitlabUrl, DestinationName(prefix, customNames, project.name).value, project.revision)
  }

  /** One call of `import_repository`: True exactly when an owner is found, the create request
      gives a usable repository record and the mirror step succeeds. */
  method ImportOne(imp: Importer, call: ImportCall, reply: HostReplies) returns (imported: bool)
    ensures imported <==> ImportOwner(imp, reply.username).Some?
                          && Usable(CreateGithubRepo(imp, call.repoName, reply.createStatus, reply.createdBody))
                          && reply.mirrorOk
  {
    imported := ImportRepository(imp, call, reply).Succeeded();
  }

  /** The import loop of `process_manifest`: every project is imported once, in order, whatever
      the earlier imports gave, and each result is counted as a success or a failure. */
  method ImportAll(imp: Importer, prefix: string, customNames: Option<map<string, string>>,
                   projects: seq<ProjectRecord>, replies: nat -> HostReplies)
    returns (successCount: nat, failedCount: nat, attempts: seq<ImportCall>)
    requires AllNamed(projects)
    ensures |attempts| == |projects|
    ensures forall i :: 0 <= i < |projects| ==> attempts[i] == PlannedCall(prefix, customNames, projects[i])
    ensures successCount == CountImported(imp, attempts, replies)
    ensures successCount + failedCount == |projects|
  {
    successCount, failedCount := 0, 0;
    attempts := [];
    var j := 0;
    while j < |projects|
      invariant 0 <= j <= |projects| && |attempts| == j
      invariant forall k :: 0 <= k < j ==> attempts[k] == PlannedCall(prefix, customNames, projects[k])
      invariant successCount == CountImported(imp, attempts, replies)
      invariant successCount + failedCount == j
    {
      var call := PlannedCall(prefix, customNames, projects[j]);
      var imported := ImportOne(imp, call, replies(j));
      CountImportedStep(imp, attempts, call, replies);
      if imported {
        successCount := successCount + 1;
      } else {
        failedCount := failedCount + 1;
      }
      attempts := attempts + [call];
      j := j + 1;
    }
  }

  /** `process_manifest`. `confirmed` is the user's answer to the confirmation prompt and
      `replies(k)` what the hosting service and the mirror step answer during the k-th import. */
  method ProcessManifest(imp: Importer, doc: Option<Document>, prefix: string,
                         customNames: Option<map<string, string>>, confirmed: bool,
                         replies: nat -> HostReplies)
    returns (outcome: RunOutcome, listing: seq<string>, attempts: seq<ImportCall>)
    ensures ParsedProjects(imp, doc) == [] ==> outcome == NoProjects && listing == [] && attempts == []
    ensures ParsedProjects(imp, doc) != [] && !AllNamed(ParsedProjects(imp, doc)) ==>
      outcome == Crashed && attempts == []
    ensures ParsedProjects(imp, doc) != [] && AllNamed(ParsedProjects(imp, doc)) ==>
      && |listing| == |ParsedProjects(imp, doc)|
      && forall i :: 0 <= i < |listing| ==>
           Some(listing[i]) == DestinationName(prefix, customNames, ParsedProjects(imp, doc)[i].name)
    ensures ParsedProjects(imp, doc) != [] && AllNamed(ParsedProjects(imp, doc)) && !confirmed ==>
      outcome == Cancelled && attempts == []
    ensures ParsedProjects(imp, doc) != [] && AllNamed(ParsedProjects(imp, doc)) && confirmed ==>
      && |attempts| == |ParsedProjects(imp, doc)|
      && (forall i :: 0 <= i < |attempts| ==>
            attempts[i] == ImportCall(ParsedProjects(imp, doc)[i].gitlabUrl, listing[i], ParsedProjects(imp, doc)[i].revision))
      && outcome == Summary(CountImported(imp, attempts, replies),
                            |attempts| - CountImported(imp, attempts, replies), |attempts|)
    ensures outcome.Summary? ==> outcome.successful + outcome.failed == outcome.total
  {
    listing, attempts := [], [];
    var projects := ParseManifest(imp, doc);
    if projects == [] {
      return NoProjects, listing, attempts;
    }
    var preview := PreviewNames(prefix, customNames, projects);
    if preview.None? {
      return Crashed, listing, attempts;
    }
    listing := preview.value;
    if !confirmed {
      return Cancelled, listing, attempts;
    }
    var successCount, failedCount;
    successCount, failedCount, attempts := ImportAll(imp, prefix, customNames, projects, replies);
    outcome := Summary(successCount, failedCount, |projects|);
  }
}

/** A client of the model: two projects, the second naming an undeclared remote; the first
    repository already exists on the destination and the second is created. */
module BatchScenario {
  import opened Wrappers
  import opened Config
  import opened Naming
  import opened Hosting
  import opened Batch

  /** The destination names of the two projects with the prefix `acme-`. */
  lemma PrefixedNames(prefix: string, foo: string, bar: string)
    requires prefix == "acme-" && foo == "teamA/libfoo" && bar == "teamA/libbar"
    ensures DestinationName(prefix, None, Some(foo)) == Some("acme-libfoo")
    ensures DestinationName(prefix, None, Some(bar)) == Some("acme-libbar")
  {
    assert foo[6..] == "libfoo" && bar[6..] == "libbar";
    ExtractAfterLastSlash(foo, 5);
    ExtractAfterLastSlash(bar, 5);
    assert prefix + "libfoo" == "acme-libfoo" && prefix + "libbar" == "acme-libbar";
  }

  /** One repository that already exists and one that is created, both mirrored: two
      successes and no failure. */
  lemma ConflictThenCreatedTally(imp: Importer, calls: seq<ImportCall>, replies: nat -> HostReplies)
    requires |calls| == 2
    requires replies(0).createStatus == STATUS_UNPROCESSABLE
    requires replies(1).createStatus == STATUS_CREATED && replies(1).createdBody != map[]
    requires ImportOwner(imp, replies(0).username).Some? && ImportOwner(imp, replies(1).username).Some?
    requires replies(0).mirrorOk && replies(1).mirrorOk
    ensures CountImported(imp, calls, replies) == 2
  {
  }
}
