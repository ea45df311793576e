# GitLab-to-GitHub importer: a Dafny model of its decision logic

The importer reads a repository manifest (`<remote>` and `<project>` elements), turns every
project into a record with a source clone URL, derives a destination repository name for it,
and then, project by project, creates the destination repository and mirrors the source into it,
counting successes and failures. All of it lives in the class `GitLabToGitHub` of
`gitlab_to_github_importer.py`. This project models the deterministic part of that class:

- `wrappers.dfy`: `Option`, standing for Python's `None`.
- `strings.dfy`: the Python string operations the importer relies on: `startswith`, `rstrip('/')`, and `split('/')` with its inverse `join`.
- `config.dfy`: the importer's configuration. The fields of `GitLabToGitHub` are never changed after `__init__`, so the object is modelled as an immutable value `Importer`. `NewImporter` models `__init__` and strips trailing slashes from the configured GitLab base; the datatype constructor `Importer` itself does not, so the stripped-base property of the fallback URL holds for importers built with `NewImporter`.
- `manifest.dfy`: `parse_manifest`. Its two loops are kept as loops: the remote dictionary is filled first (`CollectRemoteTable`), then project records are appended (`ResolveProjects`). Each loop is proved equal to a function that states its result. Its properties are lemmas: later remotes overwrite earlier ones, there is one record per project element in document order, defaults are filled in, the clone URL follows the fallback rule, and any exception makes the result empty.
- `naming.dfy`: `extract_repo_name` and the naming expression `prefix + (custom name or last path piece)`.
- `hosting.dfy`: how `create_github_repo` classifies the reply to the create request (201, 422, anything else), and the gates of `import_repository`. The import stops when there is no owner or no usable repository record; otherwise the mirror step decides.
- `batch.dfy`: `process_manifest`. This method parses the manifest, builds the preview listing and asks for confirmation. It then runs the import loop, which attempts every project exactly once and in order and tallies the results. The preview listing and the names used by the imports are proved to be the same. The file also holds two worked scenarios.

Inputs the program obtains from outside are parameters of the model:

- the parsed manifest (`None` when the XML cannot be parsed);
- the answer to the confirmation prompt;
- for each import, the username lookup result, the create request's status code and body, and whether the whole mirror step succeeded (removing a stale work directory, the clone, the push and the final removal of the work directory).

Details of the code that the model keeps exactly:

- Each import call carries the project's revision as `branch`, but `import_repository` never reads that parameter: the mirror copies every ref, so the revision has no effect on the import (`Hosting.ImportRepository` ignores `call.branch`).
- A declared remote's `fetch` value is used verbatim. With `fetch="https://gitlab.com/"` the clone URL is `https://gitlab.com//teamA/libfoo.git` (two slashes), not `https://gitlab.com/teamA/libfoo.git`. Only the configured base is stripped of trailing slashes (`Manifest.VerbatimFetchExample`).
- `parse_manifest` returns the empty list not only for unreadable XML. It does so also when a project refers to a declared remote that has no `fetch` attribute, because `None.startswith` raises.
- A project without a `name` attribute still gets a record; its URL contains the text `None`. `process_manifest` then raises inside `extract_repo_name` while it builds the preview listing. That exception is not caught per project (outcome `Crashed`).
- A 201 reply whose body is the empty JSON object counts as a failed creation, because `if not repo_info` treats `{}` as false.
- The organization and the username are used as Python truth values: an empty string counts as absent.

## Model

| member | source | states |
|---|---|---|
| Strings.RStrip | gitlab_to_github_importer.py:14 | the result is a prefix of the input, does not end in the stripped character, and everything removed is that character |
| Config.NewImporter | gitlab_to_github_importer.py:12-16 | token and organization are kept; the GitLab base loses exactly its trailing slashes and nothing else |
| Config.ActiveOrganization | gitlab_to_github_importer.py:102-103 | an organization counts only when set and non-empty, as `if self.organization:` decides |
| Strings.Split | gitlab_to_github_importer.py:165 | `split('/')` never yields an empty list, so the fallback branch of `extract_repo_name` is dead |
| Strings.SplitJoin | gitlab_to_github_importer.py:165 | joining the pieces of a split with the same separator gives back the original string |
| Strings.SplitPiecesFree | gitlab_to_github_importer.py:165 | no piece of a split contains the separator |
| Strings.SplitLastPiece | gitlab_to_github_importer.py:165-166 | the last piece is the longest separator-free suffix: it ends the string and, unless it is the whole string, a separator precedes it |
| Naming.ExtractRepoNameSpec | gitlab_to_github_importer.py:164-166 | for `ExtractRepoName` (the model of `extract_repo_name`): the repository name has no '/', is a suffix of the project name preceded by '/' when shorter, and is the whole name when the name has no '/' |
| Naming.ExtractAfterLastSlash | gitlab_to_github_importer.py:164-166 | when the last '/' is at position k, the repository name is exactly the text after k |
| Naming.ExtractRepoNameExamples | gitlab_to_github_importer.py:164-166 | "group/subgroup/repo" gives "repo" and "repo" gives "repo" |
| Naming.DestinationName | gitlab_to_github_importer.py:190-192 | prefix followed by the custom name when the map has the project, else by the last path piece; no name means the expression raises |
| Naming.DerivedNameShape | gitlab_to_github_importer.py:190-192 | without a custom name the destination starts with the prefix and the rest is a '/'-free suffix of the project name |
| Manifest.CollectRemotesLastWins | gitlab_to_github_importer.py:27-31 | for `CollectRemotes` (the remote table the first loop builds): a remote name is in the table iff some element declares it, and it maps to the fetch value of the last such element |
| Manifest.ResolveProject | gitlab_to_github_importer.py:35-48 | a project raises iff its remote is declared without fetch; otherwise path and name are carried over, remote defaults to "origin", revision to "main" |
| Manifest.SourceUrlRule | gitlab_to_github_importer.py:42-48 | for `ResolveProject`, with `Render` giving the f-string text of a possibly missing attribute: URL is base/name.git when the remote is undeclared or its fetch does not start with "http", otherwise fetch/name.git with fetch verbatim |
| Manifest.ResolveAllFailurePersists | gitlab_to_github_importer.py:33-55 | once a project raises, the whole project list fails: no partial list is ever returned |
| Manifest.ResolveAllPointwise | gitlab_to_github_importer.py:33-52 | for `ResolveAll` (the records the second loop appends): the list resolves iff every element does, and then has one record per element, the i-th resolving the i-th element |
| Manifest.ParsedProjectsShape | gitlab_to_github_importer.py:22-55 | for `ParsedProjects` (the value `parse_manifest` returns): any raising project makes the result empty; otherwise one record per project element in document order |
| Manifest.VerbatimFetchExample | gitlab_to_github_importer.py:42-46 | fetch "https://gitlab.com/" for project "teamA/libfoo" gives "https://gitlab.com//teamA/libfoo.git": the fetch value is not trimmed |
| Manifest.UndeclaredRemoteExample | gitlab_to_github_importer.py:47-48 | a project naming the undeclared remote "upstream" gets "https://gitlab.com/teamA/libbar.git" from the configured base, with revision "develop" kept |
| Manifest.CollectRemoteTable | gitlab_to_github_importer.py:27-31 | the loop over remote elements builds exactly the last-wins remote table |
| Manifest.ResolveProjects | gitlab_to_github_importer.py:33-52 | the loop over project elements appends exactly the resolved records in order, and gives None as soon as one element raises |
| Manifest.ParseManifest | gitlab_to_github_importer.py:22-55 | an unreadable document or a raising project gives the empty list; otherwise the result is exactly `ParsedProjects`, one resolved record per project element |
| Hosting.ConflictOwner | gitlab_to_github_importer.py:75 | the owner in a made-up record is the organization if set, else the literal "<username>" |
| Hosting.CreateGithubRepo | gitlab_to_github_importer.py:72-80 | 201 returns the response body, 422 a record whose full_name is owner/repo, every other status None |
| Hosting.ConflictIsUsable | gitlab_to_github_importer.py:74-77 | for `Usable` (the truthiness of `repo_info`): the "already exists" record always passes the `if not repo_info` gate |
| Hosting.ImportOwner | gitlab_to_github_importer.py:102-110 | the owner is the organization when set; otherwise the looked-up username, and a missing or empty username gives no owner |
| Hosting.ImportRepository | gitlab_to_github_importer.py:98-162 | stops with no owner iff none is found, stops before mirroring iff the repository record is not usable, and succeeds iff the mirror is attempted and succeeds |
| Hosting.OnlyCreatedOrConflictMirrors | gitlab_to_github_importer.py:72-114 | a create status other than 201 or 422 ends the import before the mirror and as a failure |
| Hosting.ConflictProceedsToMirror | gitlab_to_github_importer.py:72-114 | with an owner, a 422 reply proceeds to the mirror, whose result alone decides the import |
| Batch.CountImported | gitlab_to_github_importer.py:202-215 | the success tally never exceeds the number of imports attempted |
| Batch.CountImportedExtremes | gitlab_to_github_importer.py:202-215 | all imports succeeding gives a full tally; none succeeding gives zero |
| Batch.CountImportedStep | gitlab_to_github_importer.py:212-215 | each further import adds one to the tally exactly when it succeeds |
| Batch.PreviewNames | gitlab_to_github_importer.py:188-193 | the listing holds one destination name per project, in order, and exists iff every project has a name |
| Batch.ImportOne | gitlab_to_github_importer.py:102-162 | the call reports True exactly when an owner is found (organization or truthy username), the create reply yields a usable repository record, and the mirror step succeeds |
| Batch.ImportAll | gitlab_to_github_importer.py:202-218 | every project is imported exactly once, in order, with its planned name, URL and revision; successes are counted by the tally and successes plus failures equal the number of projects |
| Batch.ProcessManifest | gitlab_to_github_importer.py:168-224 | no projects stops the run; a nameless project raises before the prompt; the listing equals the destination names; once confirmed, every project is imported once, in order, with its URL, listed name and revision; successes plus failures equal the total |
| BatchScenario.PrefixedNames | gitlab_to_github_importer.py:208-210 | with prefix "acme-", "teamA/libfoo" and "teamA/libbar" become "acme-libfoo" and "acme-libbar" |
| BatchScenario.ConflictThenCreatedTally | gitlab_to_github_importer.py:202-215 | a 422 for the first project and a 201 for the second, both mirrored, tally two successes |

## Left out

- The API base URL and the request headers built in `__init__` (gitlab_to_github_importer.py:15, 17-20); they only feed the HTTP requests.
- The HTTP requests of `create_github_repo`, `get_github_username` and `get_user_organizations` (gitlab_to_github_importer.py:70, 84, 92). Their results are inputs: a status code and body for creation, an optional username for the lookup.
- `get_user_organizations` and the organization access check in `main`. Their only use is a warning prompt in the interactive shell.
- The choice of the create endpoint (organization or user) and the request payload (gitlab_to_github_importer.py:58-68). They only shape the network request.
- The mirror step of `import_repository` (gitlab_to_github_importer.py:116-162): the token-embedded push URL, the temporary directory, `rm -rf`, `git clone --mirror`, `git push --mirror` and `os.chdir`. Their combined result is the input `mirrorOk`. Workspace cleanup and the working-directory change are not modelled.
- Hosting.ImportRepository: exceptions raised outside the `try` block (a failed HTTP request, a 201 body that is not JSON) are not modelled. In the source they escape the import loop and end the whole run.
- JSON response bodies are reduced to maps from string keys to string values.
- XML syntax (`ET.parse`, gitlab_to_github_importer.py:24). The model starts from the parsed remote and project elements; an unreadable document is `None`.
- Console output, the `input()` confirmation (a boolean parameter), `select_target`, `main`, process exit codes, the username lookup printed before the listing, and `time.sleep` pacing (gitlab_to_github_importer.py:169-170, 178-186, 193-200, 206, 217-309).
- Batch.ProcessManifest: when a nameless project makes the preview raise, the model does not say how much of the listing was printed before the exception.
