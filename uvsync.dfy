/**
  The dependency-sync hook (hooks/uvsync.py), run by pre-commit after a
  checkout, a merge or a rewrite.  It picks the pair of commits to compare
  from the environment pre-commit sets, asks `git diff --quiet` whether the
  uv files differ between them, and runs `uv sync` when they do.

  The environment is a map from variable name to value.  The diff is an
  oracle from the argument vector to its exit status, and the final
  `os.execvp` is the argument vector it would replace the process with.
*/
module UvSync {
  import opened Wrappers

  type Env = map<string, string>

  const GIT_DIFF_CMD: seq<string> := ["git", "diff", "--quiet"]
  const UV_FILES: seq<string> := ["pyproject.toml", "uv.lock", "uv.toml"]

  const FROM_REF: string := "PRE_COMMIT_FROM_REF"
  const TO_REF: string := "PRE_COMMIT_TO_REF"
  const SQUASH_MERGE: string := "PRE_COMMIT_IS_SQUASH_MERGE"
  const REWRITE_COMMAND: string := "PRE_COMMIT_REWRITE_COMMAND"

  /** `os.getenv(key)`. */
  function GetEnv(env: Env, key: string): (r: Option<string>)
    ensures r.Some? <==> key in env
    ensures r.Some? ==> r.value == env[key]
  {
    if key in env then Some(env[key]) else None
  }

  /** The two commits `git diff` compares. */
  datatype Range = Range(from: string, to: string)

  /** Which hook the environment shows was run. */
  datatype Scenario = Checkout | Merge | Rebase

  datatype Selection = Diff(scenario: Scenario, range: Range) | NoScenario

  /**
    Exactly one of the two checkout refs is set: `None` then reaches the
    argument vector of `git diff` and `subprocess.run` raises a `TypeError`.
  */
  datatype RefError = MissingRef(unset: string)

  /** Both checkout refs are set and name different commits. */
  predicate RefsDiffer(env: Env)
  {
    FROM_REF in env && TO_REF in env && env[FROM_REF] != env[TO_REF]
  }

  /** Neither checkout ref is set, or both are set to the same commit. */
  predicate RefsAgree(env: Env)
  {
    (FROM_REF in env <==> TO_REF in env) && !RefsDiffer(env)
  }

  /**
    The scenario tests of `detect_lock_changes` (hooks/uvsync.py:42-54), in
    their order: differing checkout refs, then the presence of the merge
    flag, then a rewrite by rebase.
  */
  function SelectRange(env: Env): (r: Result<Selection, RefError>)
    ensures r.Failure? <==> (FROM_REF in env) != (TO_REF in env)
    ensures r == Success(Diff(Checkout, Range(env[FROM_REF], env[TO_REF]))) <== RefsDiffer(env)
    ensures r.Success? && r.value.Diff? && r.value.scenario == Checkout <==> RefsDiffer(env)
    ensures RefsAgree(env) && SQUASH_MERGE in env ==> r == Success(Diff(Merge, Range("HEAD^", "HEAD")))
    ensures RefsAgree(env) && SQUASH_MERGE !in env ==>
              (r == Success(Diff(Rebase, Range("ORIG_HEAD", "HEAD"))) <==>
                 REWRITE_COMMAND in env && env[REWRITE_COMMAND] == "rebase")
    ensures r == Success(NoScenario) <==>
              RefsAgree(env) && SQUASH_MERGE !in env &&
              !(REWRITE_COMMAND in env && env[REWRITE_COMMAND] == "rebase")
  {
    var from, to := GetEnv(env, FROM_REF), GetEnv(env, TO_REF);
    if from != to then
      if from.None? then Failure(MissingRef(FROM_REF))
      else if to.None? then Failure(MissingRef(TO_REF))
      else Success(Diff(Checkout, Range(from.value, to.value)))
    else if SQUASH_MERGE in env then Success(Diff(Merge, Range("HEAD^", "HEAD")))
    else if GetEnv(env, REWRITE_COMMAND) == Some("rebase") then Success(Diff(Rebase, Range("ORIG_HEAD", "HEAD")))
    else Success(NoScenario)
  }

  /** `git_diff(from_ref, to_ref)` (hooks/uvsync.py:15-20): the diff limited to the uv files. */
  function DiffArgv(g: Range): (argv: seq<string>)
    ensures |argv| == |GIT_DIFF_CMD| + 3 + |UV_FILES|
    ensures argv[..|GIT_DIFF_CMD|] == GIT_DIFF_CMD
    ensures argv[|GIT_DIFF_CMD|..|GIT_DIFF_CMD| + 3] == [g.from, g.to, "--"]
    ensures argv[|GIT_DIFF_CMD| + 3..] == UV_FILES
  {
    GIT_DIFF_CMD + [g.from, g.to, "--"] + UV_FILES
  }

  /** Exit status 1 of `git diff --quiet` means the files differ; 0, or any other status, does not. */
  predicate Changed(status: int)
  {
    status == 1
  }

  /**
    `detect_lock_changes`: `None` when no scenario applies (the function
    falls off its end), otherwise whether the one diff it runs exits with 1.
  */
  function DetectLockChanges(env: Env, diff: seq<string> -> int): (r: Result<Option<bool>, RefError>)
    ensures r.Failure? <==> SelectRange(env).Failure?
    ensures r == Success(None) <==> SelectRange(env) == Success(NoScenario)
    ensures forall s, g :: SelectRange(env) == Success(Diff(s, g)) ==>
              r == Success(Some(diff(DiffArgv(g)) == 1))
  {
    match SelectRange(env)
    case Failure(e) => Failure(e)
    case Success(NoScenario) => Success(None)
    case Success(Diff(_, g)) => Success(Some(Changed(diff(DiffArgv(g)))))
  }

  const SYNC_CMD: seq<string> := ["uv", "sync"]

  /** `sys.argv[1:]`: the hook's own arguments, empty when there are none. */
  function HookArgs(argv: seq<string>): seq<string>
  {
    if |argv| == 0 then [] else argv[1..]
  }

  /**
    `main` (hooks/uvsync.py:56-58): the command line `uv sync` is exec'd
    with, or `None` when nothing is to be synced.
  */
  function HookMain(env: Env, argv: seq<string>, diff: seq<string> -> int): (r: Result<Option<seq<string>>, RefError>)
    ensures r.Failure? <==> DetectLockChanges(env, diff).Failure?
    ensures r.Success? && r.value.Some? <==> DetectLockChanges(env, diff) == Success(Some(true))
    ensures r.Success? && r.value.Some? ==>
              |r.value.value| >= 2 && r.value.value[..2] == SYNC_CMD && r.value.value[2..] == HookArgs(argv)
  {
    match DetectLockChanges(env, diff)
    case Failure(e) => Failure(e)
    case Success(found) =>
      if found == Some(true) then Success(Some(SYNC_CMD + HookArgs(argv))) else Success(None)
  }

  /** Differing checkout refs win, whatever merge or rewrite variables are also set. */
  lemma CheckoutWins(env: Env, key: string, value: string)
    requires RefsDiffer(env) && key != FROM_REF && key != TO_REF
    ensures SelectRange(env[key := value]) == SelectRange(env)
  {
  }

  /** Equal or absent checkout refs take no part in the choice. */
  lemma AgreeingRefsIgnored(env: Env)
    requires RefsAgree(env)
    ensures SelectRange(env) == SelectRange(env - {FROM_REF, TO_REF})
  {
    var e := env - {FROM_REF, TO_REF};
    assert SQUASH_MERGE in env <==> SQUASH_MERGE in e;
    assert REWRITE_COMMAND in env ==> REWRITE_COMMAND in e && e[REWRITE_COMMAND] == env[REWRITE_COMMAND];
  }

  /** Only the presence of the merge flag matters, not its value. */
  lemma MergeFlagValueIgnored(env: Env, value: string)
    requires SQUASH_MERGE in env
    ensures SelectRange(env[SQUASH_MERGE := value]) == SelectRange(env)
  {
  }

  /** An exit status other than 1, such as a `git` error, never triggers a sync. */
  lemma GitErrorNoSync(env: Env, argv: seq<string>, status: int)
    requires SelectRange(env).Success? && status != 1
    ensures HookMain(env, argv, (a: seq<string>) => status) == Success(None)
  {
  }

  /**
    A rewrite by `git commit --amend`, with no differing checkout refs and no
    merge flag, selects nothing and syncs nothing, whatever `git diff` would
    report.
  */
  lemma AmendSelectsNothing(env: Env, argv: seq<string>, diff: seq<string> -> int)
    requires RefsAgree(env) && SQUASH_MERGE !in env
    ensures DetectLockChanges(env[REWRITE_COMMAND := "amend"], diff) == Success(None)
    ensures HookMain(env[REWRITE_COMMAND := "amend"], argv, diff) == Success(None)
  {
    var e := env[REWRITE_COMMAND := "amend"];
    assert RefsAgree(e) && SQUASH_MERGE !in e;
  }
}
