/**
  What one run of the mirror script does to the repository it runs in
  (mirror.py, `main`, `push_changed_version`, `create_tagged_release` and
  `process_version`), as functions of the starting state.

  The repository is a working tree, an index and the last commit, each a
  map from path to file content.  Every external `git`/`gh` command except
  `git status -s` is appended to an event log; whether it succeeds is
  decided by an oracle indexed by the position the command takes in the log.
  `git status -s` is a query of the state (`Dirty`): it is not logged and
  takes no position.  A failing command
  run with `check=True` aborts the script, a failing command run with
  `check=False` does not.
*/
module Publish {
  import opened Wrappers
  import opened Versions
  import opened Catalog
  import opened Requirements
  import opened Rewrite

  // ---------------------------------------------------------------------
  // Commands and their command lines
  // ---------------------------------------------------------------------

  datatype Command =
    | GitAdd(paths: seq<string>)
    | GitCommit(message: string)
    | GitPushMain
    | GitTag(version: Version)
    | GitPushTags
    | ReleaseCreate(version: Version)
    | ReleaseDelete(version: Version)

  const NOTES_PREFIX: string := "See: https://github.com/astral-sh/uv/releases/tag/"

  /** The argument vector each command is started with (mirror.py:35-45, 59-61, 65-82). */
  function Argv(c: Command): seq<string>
  {
    match c
    case GitAdd(paths) => ["git", "add"] + paths
    case GitCommit(message) => ["git", "commit", "-m", message]
    case GitPushMain => ["git", "push", "origin", "HEAD:refs/heads/main"]
    case GitTag(v) => ["git", "tag", VersionString(v)]
    case GitPushTags => ["git", "push", "origin", "HEAD:refs/heads/main", "--tags"]
    case ReleaseCreate(v) =>
      ["gh", "release", "create", VersionString(v), "--title", VersionString(v),
       "--notes", NOTES_PREFIX + VersionString(v), "--latest"]
    case ReleaseDelete(v) => ["gh", "release", "delete", VersionString(v), "--cleanup-tag", "--yes"]
  }

  /** Whether the command runs with `check=True`: only the tag push and the release creation may fail. */
  predicate MustSucceed(c: Command)
  {
    !(c.GitPushTags? || c.ReleaseCreate?)
  }

  // ---------------------------------------------------------------------
  // Repository state
  // ---------------------------------------------------------------------

  type Files = map<string, string>

  datatype Event =
    | Ran(command: Command, succeeded: bool)
    | NoChange(version: Version)       // `print(f"No change {version}")`

  datatype State = State(files: Files, staged: Files, committed: Files, log: seq<Event>)

  /** `git status -s` prints something: the tree differs from the index, or the index from the commit. */
  predicate Dirty(st: State)
  {
    st.files != st.staged || st.staged != st.committed
  }

  /** The index after `git add paths`: each named path takes its working-tree content. */
  function Stage(staged: Files, files: Files, paths: seq<string>): Files
  {
    staged + map p | p in paths && p in files :: files[p]
  }

  /** What a successful command does to the working tree, index and commit. */
  function Effect(st: State, c: Command): State
  {
    match c
    case GitAdd(paths) => st.(staged := Stage(st.staged, st.files, paths))
    case GitCommit(_) => st.(committed := st.staged)
    case _ => st
  }

  datatype Halt =
    | CommandFailed(command: Command)  // `subprocess.CalledProcessError`
    | FileMissing(path: string)        // `open` of a tracked file that does not exist

  /** The state a run reaches and, when it stopped early, why. */
  datatype Outcome = Outcome(st: State, halted: Option<Halt>)

  /** Runs one command; `outcome(k)` says whether the command logged at position `k` succeeds. */
  function RunCommand(st: State, c: Command, outcome: nat -> bool): Outcome
  {
    var ok := outcome(|st.log|);
    var next := if ok then Effect(st, c) else st;
    Outcome(next.(log := st.log + [Ran(c, ok)]),
            if !ok && MustSucceed(c) then Some(CommandFailed(c)) else None)
  }

  /** Runs commands in order, stopping at the first that aborts the script. */
  function RunAll(st: State, cmds: seq<Command>, outcome: nat -> bool): Outcome
    decreases |cmds|
  {
    if cmds == [] then Outcome(st, None)
    else
      var o := RunCommand(st, cmds[0], outcome);
      if o.halted.Some? then o else RunAll(o.st, cmds[1..], outcome)
  }

  // ---------------------------------------------------------------------
  // process_version
  // ---------------------------------------------------------------------

  const PYPROJECT: string := "pyproject.toml"
  const README: string := "README.md"

  /** The files `process_version` rewrites, in the order it rewrites them (mirror.py:117-120). */
  const TRACKED_PATHS: seq<string> := [PYPROJECT, README]

  /** The replacer registered for a tracked path. */
  function Replacer(path: string, content: string, v: Version): string
  {
    if path == PYPROJECT then ReplacePyproject(content, v) else ReplaceReadme(content, v)
  }

  datatype Patched = Patched(files: Files, missing: Option<string>)

  /**
    Rewrites the given paths one after the other; a missing file stops the
    loop with the files before it already rewritten.
  */
  function PatchFiles(files: Files, paths: seq<string>, v: Version): Patched
    decreases |paths|
  {
    if paths == [] then Patched(files, None)
    else if paths[0] !in files then Patched(files, Some(paths[0]))
    else PatchFiles(files[paths[0] := Replacer(paths[0], files[paths[0]], v)], paths[1..], v)
  }

  /** Patches the tracked files of the working tree for `v`. */
  function PatchTree(st: State, v: Version): Outcome
  {
    var p := PatchFiles(st.files, TRACKED_PATHS, v);
    Outcome(st.(files := p.files), if p.missing.Some? then Some(FileMissing(p.missing.value)) else None)
  }

  // ---------------------------------------------------------------------
  // push_changed_version, create_tagged_release and main
  // ---------------------------------------------------------------------

  /** `push_changed_version(paths, message)`. */
  function PushCmds(paths: seq<string>, message: string): seq<Command>
  {
    [GitAdd(paths), GitCommit(message), GitPushMain]
  }

  /** `create_tagged_release(v)`. */
  function TagCmds(v: Version): seq<Command>
  {
    [GitTag(v), GitPushTags, ReleaseCreate(v)]
  }

  /** What the forward loop publishes for a version whose patch changed the tree. */
  function PublishCmds(v: Version): seq<Command>
  {
    PushCmds(TRACKED_PATHS, "Mirror: " + VersionString(v)) + TagCmds(v)
  }

  /** What the special branch publishes: a "yanked" commit, then `last` released anew. */
  function RepublishCmds(pin: Version, last: Version): seq<Command>
  {
    PushCmds(TRACKED_PATHS, "Mirror: yanked " + VersionString(pin)) + [ReleaseDelete(last)] + TagCmds(last)
  }

  /** One iteration of the forward loop (mirror.py:50-55). */
  function VersionStep(st: State, v: Version, outcome: nat -> bool): Outcome
  {
    var p := PatchTree(st, v);
    if p.halted.Some? then p
    else if Dirty(p.st) then RunAll(p.st, PublishCmds(v), outcome)
    else Outcome(p.st.(log := p.st.log + [NoChange(v)]), None)
  }

  /** The forward loop over the target versions (mirror.py:49-55). */
  function ForwardSpec(st: State, targets: seq<Version>, outcome: nat -> bool): Outcome
    decreases |targets|
  {
    if targets == [] then Outcome(st, None)
    else
      var o := VersionStep(st, targets[0], outcome);
      if o.halted.Some? then o else ForwardSpec(o.st, targets[1..], outcome)
  }

  /** The special branch (mirror.py:29-47); it prints nothing when the tree stays clean. */
  function RepublishSpec(st: State, pin: Version, last: Version, outcome: nat -> bool): Outcome
  {
    var p := PatchTree(st, last);
    if p.halted.Some? then p
    else if Dirty(p.st) then RunAll(p.st, RepublishCmds(pin, last), outcome)
    else p
  }

  /** Why the script stops before it runs any command. */
  datatype StartError =
    | FetchFailed(fetch: FetchError)   // `RuntimeError` of `get_all_releases`
    | BadPin(pin: PinError)            // an `AssertionError` or `InvalidVersion` of `get_current_version`
    | MissingPin(select: SelectError)  // `KeyError` at mirror.py:27

  /** `main` (mirror.py:16-55): the catalog is fetched before the pin is looked up in the parsed manifest. */
  function MainSpec(st: State, response: Response, reqs: seq<Requirement>, outcome: nat -> bool)
    : Result<Outcome, StartError>
  {
    match GetAllReleases(response)
    case Failure(e) => Failure(FetchFailed(e))
    case Success(c) =>
      match CurrentVersion(reqs)
      case Failure(e) => Failure(BadPin(e))
      case Success(pin) =>
        match Reconcile(c, pin)
        case Failure(e) => Failure(MissingPin(e))
        case Success(plan) =>
          match plan
          case Republish(last) => Success(RepublishSpec(st, pin, last, outcome))
          case Forward(targets) => Success(ForwardSpec(st, targets, outcome))
  }
}
