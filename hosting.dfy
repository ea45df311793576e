/** The decisions `create_github_repo` and `import_repository` take on the replies of the
    hosting service and of the mirror step. The replies themselves are inputs. */
module Hosting {
  import opened Wrappers
  import opened Config

  /** A decoded JSON object from the hosting service, reduced to its string fields. */
  type Response = map<string, string>

  const STATUS_CREATED := 201
  const STATUS_UNPROCESSABLE := 422
  const UNKNOWN_OWNER := "<username>"

  /** The owner named in the record made up for an existing repository. */
  function ConflictOwner(imp: Importer): (owner: string)
    ensures ActiveOrganization(imp).Some? ==> owner == ActiveOrganization(imp).value
    ensures ActiveOrganization(imp).None? ==> owner == UNKNOWN_OWNER
  {
    match ActiveOrganization(imp)
    case Some(org) => org
    case None => UNKNOWN_OWNER
  }

  /** `create_github_repo` after the POST: 201 gives the body, 422 (already exists) a record
      naming `owner/repo`, any other status None. */
  function CreateGithubRepo(imp: Importer, repoName: string, status: int, body: Response): (info: Option<Response>)
    ensures status == STATUS_CREATED ==> info == Some(body)
    ensures status == STATUS_UNPROCESSABLE ==>
      info.Some? && "full_name" in info.value && info.value["full_name"] == ConflictOwner(imp) + "/" + repoName
    ensures status != STATUS_CREATED && status != STATUS_UNPROCESSABLE ==> info.None?
  {
    if status == STATUS_CREATED then Some(body)
    else if status == STATUS_UNPROCESSABLE then Some(map["full_name" := ConflictOwner(imp) + "/" + repoName])
    else None
  }

  /** Python truth of the repository record: None and the empty dict are false. */
  predicate Usable(info: Option<Response>) {
    info.Some? && info.value != map[]
  }

  /** An "already exists" reply is never a failure: the record is usable whatever the owner. */
  lemma ConflictIsUsable(imp: Importer, repoName: string, body: Response)
    ensures Usable(CreateGithubRepo(imp, repoName, STATUS_UNPROCESSABLE, body))
  {
  }

  /** The arguments of one `import_repository` call. */
  datatype ImportCall = ImportCall(gitlabUrl: string, repoName: string, branch: string)

  /** What the hosting service and the mirror step answer during one import:
      the result of the username lookup, the status and body of the create request, and whether
      the whole mirror step succeeded: removing a stale work directory, the clone, the push and
      the final removal of the work directory, all without an exception. The revision passed
      as `branch` is never read, so it has no effect on the outcome. */
  datatype HostReplies = HostReplies(
    username: Option<string>, createStatus: int, createdBody: Response, mirrorOk: bool)

  /** Where one import stopped. Only Imported makes `import_repository` return True. */
  datatype ImportOutcome = NoOwner | CreateFailed | MirrorFailed | Imported {
    predicate Succeeded() { Imported? }
    predicate MirrorAttempted() { MirrorFailed? || Imported? }
  }

  /** The owner of the destination: the organization if one is set, otherwise the looked-up
      username; None (an empty name counts as none) stops the import. */
  function ImportOwner(imp: Importer, username: Option<string>): (owner: Option<string>)
    ensures owner.Some? ==> owner.value != ""
    ensures ActiveOrganization(imp).Some? ==> owner == ActiveOrganization(imp)
    ensures ActiveOrganization(imp).None? ==> (owner.Some? <==> username.Some? && username.value != "")
    ensures ActiveOrganization(imp).None? && owner.Some? ==> owner == username
  {
    if ActiveOrganization(imp).Some? then ActiveOrganization(imp)
    else if username.Some? && username.value != "" then username
    else None
  }

  /** `import_repository`: stop without mirroring when no owner can be found or the repository
      record is not usable; otherwise the result is that of the mirror step. */
  function ImportRepository(imp: Importer, call: ImportCall, replies: HostReplies): (o: ImportOutcome)
    ensures o == NoOwner <==> ImportOwner(imp, replies.username).None?
    ensures o == CreateFailed <==>
      ImportOwner(imp, replies.username).Some? &&
      !Usable(CreateGithubRepo(imp, call.repoName, replies.createStatus, replies.createdBody))
    ensures o.MirrorAttempted() ==>
      ImportOwner(imp, replies.username).Some? &&
      Usable(CreateGithubRepo(imp, call.repoName, replies.createStatus, replies.createdBody))
    ensures o.Succeeded() ==> o.MirrorAttempted() && replies.mirrorOk
    ensures o.MirrorAttempted() && replies.mirrorOk ==> o.Succeeded()
  {
    var owner := ImportOwner(imp, replies.username);
    if owner.None? then NoOwner
    else
      var info := CreateGithubRepo(imp, call.repoName, replies.createStatus, replies.createdBody);
      if !Usable(info) then CreateFailed
      else if replies.mirrorOk then Imported
      else MirrorFailed
  }

  /** Only 201 and 422 can lead to a mirror; every other status fails the project before it. */
  lemma OnlyCreatedOrConflictMirrors(imp: Importer, call: ImportCall, replies: HostReplies)
    requires replies.createStatus != STATUS_CREATED && replies.createStatus != STATUS_UNPROCESSABLE
    ensures !ImportRepository(imp, call, replies).MirrorAttempted()
    ensures !ImportRepository(imp, call, replies).Succeeded()
  {
  }

  /** With an owner at hand, a 422 reply goes on to the mirror, whose result decides. */
  lemma ConflictProceedsToMirror(imp: Importer, call: ImportCall, replies: HostReplies)
    requires replies.createStatus == STATUS_UNPROCESSABLE
    requires ImportOwner(imp, replies.username).Some?
    ensures ImportRepository(imp, call, replies).MirrorAttempted()
    ensures ImportRepository(imp, call, replies).Succeeded() <==> replies.mirrorOk
  {
  }
}
