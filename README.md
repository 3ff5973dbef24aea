# uv-pre-commit mirror and sync hook, modelled in Dafny

uv-pre-commit is a repository of pre-commit hooks for the `uv` Python package
manager. Two pieces of its logic are modelled here.

- **The release mirror** (`mirror.py`). The script reads the `uv` pin from the
  repository's own manifest. It asks the package registry for every published
  `uv` version and mirrors each valid version newer than the pin. A version is
  valid when none of its files has been yanked. Mirroring a version means three
  steps:
  - rewrite `pyproject.toml` and `README.md` for that version;
  - if the working tree then differs, commit and push the change;
  - in that same case only, tag the commit and publish a GitHub release for
    it. When the tree does not differ, the script prints "No change" and
    neither commits nor tags.

  When nothing newer exists and the pinned release is still valid, the script
  takes a special branch. It rewrites the files for that release. Only when
  this changed the working tree does it commit under a "yanked" message,
  delete the existing release and publish it again; otherwise it does nothing.
- **The sync hook** (`hooks/uvsync.py`). pre-commit runs this hook after a
  checkout, a merge or a rewrite. It works out which two commits to compare
  from the environment variables pre-commit sets. It asks `git diff --quiet`
  whether `pyproject.toml`, `uv.lock` or `uv.toml` differ between them, and
  runs `uv sync` with the hook's own arguments when they do.

Modules:

| file | module | contents |
|---|---|---|
| `wrappers.dfy` | `Wrappers` | `Option` and `Result` |
| `versions.dfy` | `Versions` | versions as release segments, their order, the sorted list of a set, their text form |
| `catalog.dfy` | `Catalog` | the registry answer, validity, the sorted valid versions, the targets, the choice of branch |
| `requirements.dfy` | `Requirements` | reading the pin out of the parsed dependency list |
| `rewrite.dfy` | `Rewrite` | the three `re.sub` rewrites as scanners for their fixed patterns |
| `rewrite_proofs.dfy` | `RewriteProofs` | what the replacements match, and idempotence |
| `publish.dfy` | `Publish` | commands, the repository state, and a run of `main` as functions of the start state |
| `publish_proofs.dfy` | `PublishProofs` | which commands run, in what order, which failures abort, and what publishing leaves behind |
| `mirror.dfy` | `Mirror` | the script as a `Workspace` class whose methods update the tree, index, commit and log in place |
| `uvsync.dfy` | `UvSync` | the hook's choice of commits, its reading of the exit status, and the `uv sync` command line |

How things are represented:

- **Versions** are non-empty sequences of naturals, ordered lexicographically.
  A proper prefix is the smaller one.
- **The catalog** maps each version to the `yanked` flags of its files.
- **The repository** is three maps from path to content: the working tree, the
  index and the last commit. `git status -s` printing something is modelled as
  the tree differing from the index, or the index from the commit.
- **Each `git` or `gh` command** except `git status -s` is appended to an
  event log. Whether it succeeds comes from an oracle, indexed by the position
  the command takes in the log. `git status -s` is not logged and takes no
  position: it is a query of the repository state. Add, commit, push, tag and release delete run with `check=True`;
  their failure aborts the run. The tag push and the release creation run with
  `check=False`; their failure is logged and ignored.

Facts about the code that the model follows:

- **The special branch republishes the pin.** It fires (mirror.py:26-47) when
  nothing newer exists and the pinned release is *not* yanked. Its target,
  `last_valid_version`, is then always the pin itself (`Catalog.Reconcile`,
  `Catalog.LastValidIsPin`). When the pin is yanked and nothing newer exists,
  the code does nothing (`PublishProofs.MainDispatch`).
- **Order of failures.** The manifest is opened and parsed (mirror.py:13-14)
  before the registry is asked (mirror.py:16). The pin is looked up in the
  parsed manifest (mirror.py:17) only after the fetch, so a failed fetch is
  reported even when the manifest holds no usable pin.
- **The release delete must succeed.** `gh release delete` runs with
  `check=True` (mirror.py:35-45).
- **The pin rewrite is greedy.** `"uv==.*"` (mirror.py:111) runs to the last
  quote of its line, so any quoted entry after the pin on the same line is
  replaced along with it (`RewriteProofs.PyprojectPinRewritten`).
- **A wildcard pin passes the assertion.** `uv==0.4.*` has one `==`
  specifier, so mirror.py:102-104 accept it; `Version(...)` at mirror.py:106
  then raises `InvalidVersion` (`Requirements.CurrentVersion`).
- **A missing pin is an error.** A pin that is not a catalog key raises
  `KeyError` at mirror.py:27, and only when no target exists. It is the error
  `PinNotInCatalog`.

## Model

| member | source | states |
|---|---|---|
| `Versions.LessTotal` | mirror.py:24 | any two versions are equal or one is below the other, so `>` on versions is a total order |
| `Versions.LessTransitive` | mirror.py:24 | the version order is transitive |
| `Versions.LessIrreflexive` | mirror.py:24 | no version is above itself |
| `Versions.MaximumExists` | mirror.py:29 | every non-empty set of versions has a largest element |
| `Versions.MaximumUnique` | mirror.py:29 | that largest element is unique |
| `Versions.SortedOf` | mirror.py:18-22 | `sorted` of a set of versions lists exactly its elements, once each, strictly ascending |
| `Versions.NatString` | mirror.py:65 | `str` of a segment is a non-empty run of decimal digits, with a leading `0` only for zero |
| `Versions.ParseNatString` | mirror.py:65 | reading the digits of `str(n)` back gives `n` |
| `Versions.VersionString` | mirror.py:65 | `str(version)` starts and ends with a digit and holds only digits and dots |
| `Versions.VersionStringInjective` | mirror.py:65-78 | two versions with the same text are the same version, so tags and release names identify versions |
| `Catalog.GetAllReleases` | mirror.py:85-93 | the catalog is returned exactly when the status is 200, and any other status is an error |
| `Catalog.AnyYanked` | mirror.py:21 | a release counts as yanked exactly when one of its files is yanked, so a release with no files is valid |
| `Catalog.AllNonYankedVersions` | mirror.py:18-22 | `all_non_yanked_versions` holds exactly the valid catalog versions, strictly ascending |
| `Catalog.Above` | mirror.py:24 | the filter keeps exactly the versions above the pin and keeps ascending order |
| `Catalog.TargetVersions` | mirror.py:24 | `target_versions` holds exactly the valid versions above the pin, ascending, and never the pin |
| `Catalog.Reconcile` | mirror.py:24-29 | the special branch is taken exactly when nothing valid is newer and the pin is valid, and its target is the pin; a pin missing from the catalog with nothing newer is the `KeyError`; otherwise the loop runs over the targets, which are empty exactly when nothing is newer |
| `Catalog.LastValidIsPin` | mirror.py:26-29 | under the guard of the special branch, `all_non_yanked_versions` is not empty and its last element is the pin |
| `Catalog.RepublishIsNewestValid` | mirror.py:29 | the version the special branch republishes is valid and no valid version is above it |
| `Catalog.NewestPinRepublishes` | mirror.py:24-29 | once the newest target is pinned, the next run takes the special branch for that same version |
| `Requirements.FirstNamed` | mirror.py:98 | `next(...)` gives nothing exactly when no requirement has the name, and otherwise the first one that has it |
| `Requirements.CurrentVersion` | mirror.py:96-106 | the pin is an error when no requirement is named `uv`; otherwise the first `uv` requirement gives the pin exactly when its specifiers are exactly `== v`, the pin is then `v`; a single `==` specifier whose text is not a version, such as `== 0.4.*`, is the `InvalidVersion` error, and any other specifier set is the assertion error, each naming that requirement |
| `Requirements.LaterRequirementsIgnored` | mirror.py:98 | requirements after the first `uv` requirement never change the pin |
| `Rewrite.Lits` | mirror.py:114-115 | a literal part of a pattern matches its characters one for one |
| `Rewrite.DigitRun` | mirror.py:114-115 | `\d+` takes the longest run of digits: each taken character is a digit and the next one is not |
| `Rewrite.MatchAtoms` | mirror.py:114-115 | a match of a digit-and-literal pattern never runs past the end of the text |
| `Rewrite.Line` | mirror.py:111 | `.` stops at the first newline: the part taken is a newline-free prefix followed by a newline or the end |
| `Rewrite.LastQuote` | mirror.py:111 | the greedy `.*"` ends at the last quote of the line, and no quote lies beyond it |
| `Rewrite.MatchPin` | mirror.py:111 | a match of `"uv==.*"` is longer than its prefix and lies within the text |
| `Rewrite.MatchAt` | mirror.py:111-115 | every match of the three patterns is non-empty and starts with the pattern's first character |
| `Rewrite.Sub` | mirror.py:111-115 | `re.sub` without group references: scanning left to right, each match is replaced and scanning resumes after it, and other characters are copied; its properties are `RewriteProofs.SubNoMatchPrefix`, `SubCommute` and the idempotence lemmas |
| `Rewrite.ReplacePyproject` | mirror.py:110-111 | the pin rewrite of the manifest; `RewriteProofs.PyprojectPinRewritten` and `PyprojectIdempotent` state what it does |
| `Rewrite.ReplaceReadme` | mirror.py:113-115 | the `rev:` rewrite followed by the badge rewrite; `RewriteProofs.ReadmeRevLineRewritten`, `ReadmeBadgeLineRewritten`, `ReadmeApart` and `ReadmeIdempotent` state what it does |
| `RewriteProofs.MatchVersion` | mirror.py:114-115 | `\d+\.\d+\.\d+` matches the text of a three-segment version exactly, whatever non-digit follows |
| `RewriteProofs.SubNoMatchPrefix` | mirror.py:111-115 | text at none of whose positions the pattern matches is copied unchanged, and rewriting goes on after it |
| `RewriteProofs.SubCommute` | mirror.py:113-115 | two rewrites that neither consume nor produce each other's first character can be applied in either order |
| `RewriteProofs.ReadmeApart` | mirror.py:114-115 | the `rev:` and badge rewrites are such a pair |
| `RewriteProofs.RevReplacementMatches` | mirror.py:114 | the text `rev: X.Y.Z` written for a three-segment version is matched again by the `rev:` pattern, exactly |
| `RewriteProofs.RevIdempotent` | mirror.py:114 | the `rev:` rewrite applied twice for a three-segment version gives the result of applying it once |
| `RewriteProofs.BadgeReplacementMatches` | mirror.py:115 | the badge path written for a three-segment version is matched again by the badge pattern, exactly |
| `RewriteProofs.BadgeIdempotent` | mirror.py:115 | the badge rewrite applied twice for a three-segment version gives the result of applying it once |
| `RewriteProofs.PinLineMatches` | mirror.py:111 | on a manifest line, `"uv==` matches up to the last quote of that line, past any quotes inside the old pin text |
| `RewriteProofs.PinReplacementMatches` | mirror.py:111 | the pin written for any version is matched again by the pin pattern, exactly |
| `RewriteProofs.PinIdempotent` | mirror.py:111 | the pin rewrite applied twice for any version gives the result of applying it once |
| `RewriteProofs.PyprojectPinRewritten` | mirror.py:110-111 | a manifest's `"uv==..."` entry becomes `"uv=={version}"`, everything from it to the last quote of its line is replaced, and any text before it in which no position starts a match is kept |
| `RewriteProofs.PyprojectIdempotent` | mirror.py:110-111 | rewriting the manifest again for the same version changes nothing |
| `RewriteProofs.ReadmeRevRewritten` | mirror.py:114 | a README `rev: X.Y.Z` becomes `rev: {version}`, and any text before it in which no position starts a match is kept |
| `RewriteProofs.ReadmeBadgeRewritten` | mirror.py:115 | a README badge `/uv/X.Y.Z.svg` becomes `/uv/{version}.svg`, and any text before it in which no position starts a badge match is kept |
| `RewriteProofs.ReadmeRevLineRewritten` | mirror.py:113-115 | the whole README rewrite turns `rev: X.Y.Z` into `rev: {version}`, keeps text before it in which neither pattern starts a match, and goes on with the rest |
| `RewriteProofs.ReadmeBadgeLineRewritten` | mirror.py:113-115 | the whole README rewrite turns a badge `/uv/X.Y.Z.svg` into the new version's badge, keeps text before it in which neither pattern starts a match, and goes on with the rest |
| `RewriteProofs.ReadmeIdempotent` | mirror.py:113-115 | rewriting the README again for the same three-segment version changes nothing |
| `RewriteProofs.FourSegmentsRevGrow` | mirror.py:114 | for a four-segment version, the `rev:` pattern takes only the first three segments of the line the mirror wrote, so rewriting that line appends the last segment once more (for any following text without `r`) |
| `RewriteProofs.FourSegmentsGrow` | mirror.py:113-115 | the same holds for the whole README rewrite of such a line, whatever text without `r` or `/` follows it |
| `RewriteProofs.ReadmeNotIdempotentForFourSegments` | mirror.py:113-115 | for every four-segment version, the README the mirror writes changes again when it is rewritten for the same version, so the three-segment condition of the idempotence results is needed |
| `Publish.Argv` | mirror.py:35-82 | the argument vector each `git` and `gh` command is started with; `PublishProofs.ArgvInjective` and `ReleaseNotesLinkUpstream` state its properties |
| `Publish.MustSucceed` | mirror.py:44-82 | every command runs with `check=True` except the tag push and the release creation; `PublishProofs.TagNeedsOnlyTag` and `PushNeedsEverySuccess` use it |
| `Publish.Dirty` | mirror.py:31-51 | `git status -s` printing something: the tree differs from the index, or the index from the commit; it is not logged and takes no oracle position |
| `Publish.Stage` | mirror.py:59 | `git add paths`: each named path that exists takes its working-tree content in the index; `PublishProofs.PublishCommits` states what is staged |
| `Publish.Effect` | mirror.py:59-60 | a successful `git add` stages and a successful `git commit` commits; every other command leaves the tree, index and commit alone (`PublishProofs.RunAllKeepsFiles`) |
| `Publish.RunCommand` | mirror.py:59 | one command is logged at the next position with the oracle's answer for that position, and a failure aborts exactly under `check=True`; `Mirror.Workspace.Run` is proved against it |
| `Publish.RunAll` | mirror.py:58-82 | commands in order up to the first aborting failure; `PublishProofs.RunAllTrace`, `FirstFatal` and `RunAllConcat` state its properties |
| `Publish.PatchFiles` | mirror.py:122-126 | the tracked files rewritten one after the other, stopping at the first missing one; `PublishProofs.PatchFilesFrame` states its frame |
| `Publish.PatchTree` | mirror.py:109-128 | `process_version` on the working tree; `PublishProofs.PatchTracked` and `PatchTwice` state what it does |
| `Publish.VersionStep` | mirror.py:50-55 | one pass of the loop: patch, then publish a changed tree or report "No change"; `PublishProofs.StepHandled`, `StepKeepsSettled` and `RepeatIsQuiet` state its properties |
| `Publish.ForwardSpec` | mirror.py:49-55 | the loop over the targets in order, stopping at the first abort; `PublishProofs.ForwardConcat`, `ForwardReleasesOnlyTargets` and `ForwardHandledInOrder` state its properties |
| `Publish.RepublishSpec` | mirror.py:29-47 | the special branch: patch for `last_valid_version`, then publish only a changed tree and otherwise do nothing; `PublishProofs.RepublishQuiet`, `RepublishTrace`, `RepublishAborts` and `RepublishOrder` state its cases |
| `Publish.MainSpec` | mirror.py:12-55 | `main` from the registry answer and the parsed manifest; `PublishProofs.MainDispatch` and `MainFetchFirst` state its branches |
| `PublishProofs.ArgvInjective` | mirror.py:35-82 | the command line determines the command: no two different commands are started with the same argument vector |
| `PublishProofs.ReleaseNotesLinkUpstream` | mirror.py:69-82 | the release is created under the version's name and title, its notes link the upstream release, and it is marked `--latest` |
| `PublishProofs.FirstFatal` | mirror.py:58-82 | the position of the first command that fails under `check=True`: every command before it succeeded or was unchecked |
| `PublishProofs.Trace` | mirror.py:58-82 | the events of a run list its commands in order, each with its own success |
| `PublishProofs.RunAllTrace` | mirror.py:58-82 | commands run in order up to and including the first checked failure; the run aborts exactly when there is one, and it aborts with that command |
| `PublishProofs.PushNeedsEverySuccess` | mirror.py:58-61 | `push_changed_version` gets through exactly when add, commit and push all succeed; a failed add aborts with nothing after it |
| `PublishProofs.TagNeedsOnlyTag` | mirror.py:64-82 | `create_tagged_release` aborts exactly when the tag fails; otherwise the tag push and the release creation both run, whatever their results |
| `PublishProofs.RunAllConcat` | mirror.py:52-53 | running the push commands and then the tag commands is running them as one list |
| `PublishProofs.RunAllKeepsFiles` | mirror.py:58-82 | `git` and `gh` commands never change the working tree |
| `PublishProofs.RunAllLog` | mirror.py:58-82 | a run only appends to the log, one event per command it reaches, and one for every command when it does not abort |
| `PublishProofs.PatchFilesFrame` | mirror.py:122-126 | patching keeps every path, changes only the named ones, and stops exactly at the first named file that is missing |
| `PublishProofs.PatchTracked` | mirror.py:117-126 | `process_version` rewrites `pyproject.toml` with the pin rewrite and then `README.md` with the README rewrites |
| `PublishProofs.PatchTwice` | mirror.py:109-128 | patching a tree a second time for the same three-segment version changes nothing |
| `PublishProofs.PublishAllSucceed` | mirror.py:52-53 | when all six commands succeed, the tracked files are staged and committed and the six events are logged in order |
| `PublishProofs.PublishCommits` | mirror.py:58-61 | a publication that runs to its end has staged and committed the tracked files of the tree |
| `PublishProofs.PublishCleans` | mirror.py:50-53 | in a settled repository, a step whose commands all succeed leaves a clean tree whose commit holds the patched files |
| `PublishProofs.StepKeepsSettled` | mirror.py:49-55 | a step of the loop that does not abort keeps a settled repository settled: the index equals the commit, and the tree differs from it only in the tracked files |
| `PublishProofs.RepeatIsQuiet` | mirror.py:49-55 | mirroring a three-segment version again right after it was published only prints "No change" |
| `PublishProofs.ForwardConcat` | mirror.py:49 | the loop over `a + b` runs over `a` and then, unless that aborted, over `b` |
| `PublishProofs.StepReleasesOnly` | mirror.py:50-55 | one step only appends to the log, and tags or releases only its own version |
| `PublishProofs.ForwardReleasesOnlyTargets` | mirror.py:49-55 | the loop only appends to the log, and tags, releases or deletes target versions only |
| `PublishProofs.StepHandled` | mirror.py:50-55 | with every command succeeding and a settled tree, one step does not abort, keeps the tree settled, and logs, after the events before it, either "No change" for its version or that version's successful tag |
| `PublishProofs.ForwardHandlesEveryTarget` | mirror.py:49-55 | with every command succeeding, the run does not abort, only appends to the log, and for each target the events the run itself logged hold its "No change" or its successful tag |
| `PublishProofs.ForwardHandledInOrder` | mirror.py:49-55 | with every command succeeding, the events that show the targets were dealt with lie in the run's own part of the log, one per target, in the order of the targets |
| `PublishProofs.MainDispatch` | mirror.py:24-55 | `main` runs the loop when something valid is newer; it republishes a valid pin as itself; it does nothing for a yanked pin; and a pin missing from the catalog is the `KeyError` |
| `PublishProofs.MainFetchFirst` | mirror.py:16-17 | a failed fetch stops `main` before the pin is looked up in the parsed manifest |
| `PublishProofs.RepublishOrder` | mirror.py:30-47 | the special branch commits "Mirror: yanked {pin}", pushes, deletes the release of `last_valid_version`, then tags and releases it again, in this order |
| `PublishProofs.RepublishQuiet` | mirror.py:30-31 | when patching stops at a missing file or leaves the tree clean, the special branch runs no command and the log is unchanged |
| `PublishProofs.RepublishTrace` | mirror.py:31-47 | for any outcome, the special branch on a dirty tree runs its commands in order up to and including the first checked failure, and aborts exactly there |
| `PublishProofs.DeleteThenTag` | mirror.py:35-46 | the release delete is logged first; its failure aborts before the tag, and otherwise the run aborts exactly when the tag fails |
| `PublishProofs.RepublishAborts` | mirror.py:31-47 | for any outcome, the release delete is attempted exactly when add, commit and push succeed, a failed delete aborts with nothing tagged, and the branch gets through exactly when all five checked commands succeed |
| `Mirror.Workspace.Run` | mirror.py:59 | running one command updates the repository and its log exactly as the command model says, and aborts on a checked failure |
| `Mirror.Workspace.PushChangedVersion` | mirror.py:58-61 | the method reaches the state of running add, commit and push in order |
| `Mirror.Workspace.CreateTaggedRelease` | mirror.py:64-82 | the method reaches the state of running tag, tag push and release creation in order |
| `Mirror.Workspace.ProcessVersion` | mirror.py:109-128 | the loop over the tracked paths overwrites each file in place with its rewrite, stops at a missing file, and leaves the index, commit and log alone |
| `Mirror.Workspace.MirrorVersion` | mirror.py:50-55 | one pass of the loop patches, then publishes a changed tree or logs "No change" |
| `Mirror.Workspace.MirrorTargets` | mirror.py:49-55 | the loop visits the targets in order and stops at the first abort |
| `Mirror.Workspace.RepublishLast` | mirror.py:29-47 | the special branch patches for `last_valid_version` and publishes only a changed tree |
| `Mirror.Workspace.RunMirror` | mirror.py:12-55 | an error before the first command leaves the repository untouched; otherwise the run ends as its branch does |
| `UvSync.GetEnv` | hooks/uvsync.py:42-43 | `os.getenv` gives a value exactly when the variable is set, and then its value |
| `UvSync.SelectRange` | hooks/uvsync.py:39-54 | differing checkout refs select FROM..TO first; a single set ref is an error; otherwise the merge flag's presence selects `HEAD^..HEAD`; otherwise only a rebase selects `ORIG_HEAD..HEAD`; otherwise nothing is selected |
| `UvSync.DiffArgv` | hooks/uvsync.py:12-20 | the diff runs `git diff --quiet FROM TO --`, followed by exactly `pyproject.toml`, `uv.lock` and `uv.toml`, in that order |
| `UvSync.Changed` | hooks/uvsync.py:45-54 | only exit status 1 of `git diff --quiet` means the files differ; `UvSync.GitErrorNoSync` shows any other status never syncs |
| `UvSync.DetectLockChanges` | hooks/uvsync.py:23-54 | `None` exactly when no scenario applies; otherwise changes are reported exactly when the diff of the selected commits exits with status 1 |
| `UvSync.HookArgs` | hooks/uvsync.py:58 | `sys.argv[1:]`, empty when there are no arguments; `UvSync.HookMain` states it is passed through unchanged |
| `UvSync.HookMain` | hooks/uvsync.py:56-58 | `uv sync` is run exactly when changes are detected, with the hook's own arguments appended unchanged |
| `UvSync.CheckoutWins` | hooks/uvsync.py:42-45 | with differing checkout refs, no other variable changes the choice |
| `UvSync.AgreeingRefsIgnored` | hooks/uvsync.py:42-54 | checkout refs that are both unset, or set to the same commit, play no part in the choice |
| `UvSync.MergeFlagValueIgnored` | hooks/uvsync.py:49-50 | only the presence of the squash-merge flag matters, not its value |
| `UvSync.GitErrorNoSync` | hooks/uvsync.py:17-19 | an exit status other than 1, such as a `git` error, never leads to a sync |
| `UvSync.AmendSelectsNothing` | hooks/uvsync.py:42-54 | with checkout refs absent or agreeing and no merge flag, a rewrite by amend selects no commits and nothing is synced, whatever `git diff` would report |

## Left out

- The HTTP request to the registry (mirror.py:85-93) is an input `Response`.
  Only its status check is modelled. The JSON decoding and the `Version(...)`
  keys are given as an already built catalog.
- TOML loading (mirror.py:13-14) is left out. `pyproject["project"]["dependencies"]`
  arrives as an already parsed list of requirements.
- PEP 508 requirement parsing and PEP 440 version semantics (normalisation such
  as `1.0 == 1.0.0`, pre-, post- and dev-releases, epochs, local versions) are
  library code. Versions are release segments only.
- Rewrite.DigitRun: `\d` is ASCII `0`-`9` only. Python's `re` on `str` also
  matches every other Unicode decimal digit, such as Arabic-Indic digits; the
  model does not, as it carries no Unicode character database. A `rev:` or
  badge version written in such digits is matched by the code and not by the
  model.
- Requirements.CurrentVersion: whether the text after `==` is a version is an
  input of each specifier (`version` is `None` when it is not). The PEP 440
  parser that decides it is library code.
- Versions.VersionString: writes every segment in plain decimal. `packaging`
  can print other forms, such as pre-releases, which are not modelled.
- The manifest read by `main` and the `pyproject.toml` file the script rewrites
  are separate inputs. The model does not tie the pin to the file's text.
- Real process semantics of `git` and `gh` are left out. Each command's success
  is an oracle; its only modelled effects are that `git add` stages and
  `git commit` commits. Pushes, tags and releases are entries in the log.
- `git status -s` failing, and ignored files, are not modelled. Its output is
  "tree differs from index, or index from commit".
- Text-mode newline translation and file encodings in `open` are left out:
  files are strings.
- `os.environ` and `sys.argv` are inputs. `os.execvp` is modelled as the
  argument vector it would start. Its replacing the process, and the exit
  status of `uv sync`, are not modelled.
- Standard output (`print(f"No change {version}")`) is the log event
  `NoChange(version)`.
- Concurrency and retries: the code has none.
