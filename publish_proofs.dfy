/**
  Properties of a mirror run: which commands run and in what order, which
  failures abort it, what publishing does to the repository, and that
  mirroring a version a second time only reports "No change".
*/
module PublishProofs {
  import opened Wrappers
  import opened Versions
  import opened Catalog
  import opened Requirements
  import opened Rewrite
  import opened RewriteProofs
  import opened Publish

  // ---------------------------------------------------------------------
  // Command lines
  // ---------------------------------------------------------------------

  /** The command line determines the command: different commands are started differently. */
  lemma ArgvInjective(c: Command, d: Command)
    requires Argv(c) == Argv(d)
    ensures c == d
  {
    var a := Argv(c);
    match c {
      case GitAdd(p) =>
        assert a[1] == "add";
        assert p == a[2..] == d.paths;
      case GitCommit(m) =>
        assert a[1] == "commit";
      case GitPushMain =>
        assert |a| == 4 && a[1] == "push";
      case GitTag(v) =>
        assert a[1] == "tag";
        VersionStringInjective(v, d.version);
      case GitPushTags =>
        assert |a| == 5 && a[1] == "push";
      case ReleaseCreate(v) =>
        assert a[0] == "gh" && a[2] == "create";
        assert d.ReleaseCreate?;
        VersionStringInjective(v, d.version);
      case ReleaseDelete(v) =>
        assert a[0] == "gh" && a[2] == "delete";
        assert d.ReleaseDelete?;
        VersionStringInjective(v, d.version);
    }
  }

  /** `create_tagged_release` publishes the release name and notes the upstream one. */
  lemma ReleaseNotesLinkUpstream(v: Version)
    ensures var a := Argv(ReleaseCreate(v));
            a[3] == VersionString(v) && a[5] == VersionString(v) &&
            a[6] == "--notes" && a[7] == NOTES_PREFIX + VersionString(v) && a[|a| - 1] == "--latest"
  {
  }

  // ---------------------------------------------------------------------
  // Running a list of commands
  // ---------------------------------------------------------------------

  /** Index of the first command that fails with `check=True`, or `|cmds|` when none does. */
  function FirstFatal(cmds: seq<Command>, outcome: nat -> bool, start: nat): (k: nat)
    ensures k <= |cmds|
    ensures forall i :: 0 <= i < k ==> outcome(start + i) || !MustSucceed(cmds[i])
    ensures k < |cmds| ==> MustSucceed(cmds[k]) && !outcome(start + k)
    decreases |cmds|
  {
    if cmds == [] then 0
    else if MustSucceed(cmds[0]) && !outcome(start) then 0
    else
      var k := FirstFatal(cmds[1..], outcome, start + 1);
      assert forall i :: 1 <= i < k + 1 ==> cmds[1..][i - 1] == cmds[i];
      1 + k
  }

  /** The events of commands run from log position `start` on. */
  function Trace(cmds: seq<Command>, outcome: nat -> bool, start: nat): (t: seq<Event>)
    ensures |t| == |cmds|
    ensures forall i :: 0 <= i < |cmds| ==> t[i] == Ran(cmds[i], outcome(start + i))
    decreases |cmds|
  {
    if cmds == [] then []
    else
      var rest := Trace(cmds[1..], outcome, start + 1);
      assert forall i :: 1 <= i < |cmds| ==> rest[i - 1] == Ran(cmds[i], outcome(start + i));
      [Ran(cmds[0], outcome(start))] + rest
  }

  /**
    The commands run in order up to and including the first one that fails
    with `check=True`; the run halts exactly when there is one.
  */
  ghost predicate RunsAsTraced(st: State, cmds: seq<Command>, outcome: nat -> bool)
  {
    var k := FirstFatal(cmds, outcome, |st.log|);
    var n := if k < |cmds| then k + 1 else k;
    var r := RunAll(st, cmds, outcome);
    r.st.log == st.log + Trace(cmds[..n], outcome, |st.log|) &&
    r.halted == (if k < |cmds| then Some(CommandFailed(cmds[k])) else None)
  }

  lemma {:induction false} RunAllTrace(st: State, cmds: seq<Command>, outcome: nat -> bool)
    ensures RunsAsTraced(st, cmds, outcome)
    decreases |cmds|
  {
    if cmds != [] {
      var o := RunCommand(st, cmds[0], outcome);
      if o.halted.None? {
        RunAllTrace(o.st, cmds[1..], outcome);
        TraceContinues(st, cmds, outcome);
      } else {
        TraceHalts(st, cmds, outcome);
      }
    }
  }

  lemma {:induction false} TraceHalts(st: State, cmds: seq<Command>, outcome: nat -> bool)
    requires cmds != [] && RunCommand(st, cmds[0], outcome).halted.Some?
    ensures RunsAsTraced(st, cmds, outcome)
  {
    var start := |st.log|;
    assert FirstFatal(cmds, outcome, start) == 0;
    TraceCons(cmds, 1, outcome, start);
    assert cmds[1..][..0] == [];
  }

  lemma {:induction false} TraceContinues(st: State, cmds: seq<Command>, outcome: nat -> bool)
    requires cmds != [] && RunCommand(st, cmds[0], outcome).halted.None?
    requires RunsAsTraced(RunCommand(st, cmds[0], outcome).st, cmds[1..], outcome)
    ensures RunsAsTraced(st, cmds, outcome)
  {
    var start := |st.log|;
    var o := RunCommand(st, cmds[0], outcome);
    assert o.st.log == st.log + [Ran(cmds[0], outcome(start))];
    assert RunAll(st, cmds, outcome) == RunAll(o.st, cmds[1..], outcome);
    var k' := FirstFatal(cmds[1..], outcome, start + 1);
    var n' := if k' < |cmds[1..]| then k' + 1 else k';
    var k := FirstFatal(cmds, outcome, start);
    assert k == 1 + k';
    var n := if k < |cmds| then k + 1 else k;
    assert n == n' + 1;
    TraceCons(cmds, n, outcome, start);
    assert |o.st.log| == start + 1;
    var r := RunAll(o.st, cmds[1..], outcome);
    assert r.st.log == o.st.log + Trace(cmds[1..][..n'], outcome, start + 1);
    var head := [Ran(cmds[0], outcome(start))];
    var tail := Trace(cmds[1..][..n'], outcome, start + 1);
    calc {
      r.st.log;
      o.st.log + tail;
      (st.log + head) + tail;
      { AppendAssoc(st.log, head, tail); }
      st.log + (head + tail);
      st.log + Trace(cmds[..n], outcome, start);
    }
    assert k' < |cmds[1..]| ==> cmds[1..][k'] == cmds[k];
    assert r.halted == (if k < |cmds| then Some(CommandFailed(cmds[k])) else None);
  }

  lemma AppendAssoc<T>(a: seq<T>, b: seq<T>, c: seq<T>)
    ensures (a + b) + c == a + (b + c)
  {
  }

  lemma {:induction false} TraceCons(cmds: seq<Command>, n: nat, outcome: nat -> bool, start: nat)
    requires 1 <= n <= |cmds|
    ensures Trace(cmds[..n], outcome, start) ==
            [Ran(cmds[0], outcome(start))] + Trace(cmds[1..][..n - 1], outcome, start + 1)
  {
    assert cmds[..n][1..] == cmds[1..][..n - 1];
  }

  /** `push_changed_version` gets through only when add, commit and push all succeed. */
  lemma {:induction false} PushNeedsEverySuccess(st: State, paths: seq<string>, message: string, outcome: nat -> bool)
    ensures var r := RunAll(st, PushCmds(paths, message), outcome);
            var n := |st.log|;
            (r.halted.None? <==> outcome(n) && outcome(n + 1) && outcome(n + 2)) &&
            (!outcome(n) ==> r.halted == Some(CommandFailed(GitAdd(paths))) && r.st.log == st.log + [Ran(GitAdd(paths), false)])
  {
    var cmds := PushCmds(paths, message);
    var n := |st.log|;
    RunAllTrace(st, cmds, outcome);
    var k := FirstFatal(cmds, outcome, n);
    assert k == 3 <==> outcome(n) && outcome(n + 1) && outcome(n + 2) by {
      if k == 3 {
        assert MustSucceed(cmds[0]) && MustSucceed(cmds[1]) && MustSucceed(cmds[2]);
        assert outcome(n + 0) && outcome(n + 1) && outcome(n + 2);
      }
    }
    if !outcome(n) {
      assert k == 0;
      assert cmds[..1] == [GitAdd(paths)];
    }
  }

  /**
    `create_tagged_release` stops only when the tag fails: the tag push and
    the release creation run, and their failures are ignored.
  */
  lemma {:induction false} TagNeedsOnlyTag(st: State, v: Version, outcome: nat -> bool)
    ensures var r := RunAll(st, TagCmds(v), outcome);
            var n := |st.log|;
            (r.halted.None? <==> outcome(n)) &&
            (outcome(n) ==> r.st.log == st.log + [Ran(GitTag(v), true), Ran(GitPushTags, outcome(n + 1)),
                                                    Ran(ReleaseCreate(v), outcome(n + 2))])
  {
    var cmds := TagCmds(v);
    var n := |st.log|;
    RunAllTrace(st, cmds, outcome);
    var k := FirstFatal(cmds, outcome, n);
    if outcome(n) {
      assert !MustSucceed(cmds[1]) && !MustSucceed(cmds[2]);
      assert k == 3;
      assert cmds[..3] == cmds;
      var t := Trace(cmds, outcome, n);
      assert t == [t[0], t[1], t[2]];
    } else {
      assert k == 0;
    }
  }

  /** Running two lists of commands is running their concatenation. */
  lemma {:induction false} RunAllConcat(st: State, a: seq<Command>, b: seq<Command>, outcome: nat -> bool)
    ensures RunAll(st, a + b, outcome) ==
            var o := RunAll(st, a, outcome);
            if o.halted.Some? then o else RunAll(o.st, b, outcome)
    decreases |a|
  {
    if a == [] {
      assert a + b == b;
    } else {
      assert (a + b)[0] == a[0];
      assert (a + b)[1..] == a[1..] + b;
      var o := RunCommand(st, a[0], outcome);
      if o.halted.None? {
        RunAllConcat(o.st, a[1..], b, outcome);
      }
    }
  }

  /** `git` and `gh` never touch the working tree. */
  lemma {:induction false} RunAllKeepsFiles(st: State, cmds: seq<Command>, outcome: nat -> bool)
    ensures RunAll(st, cmds, outcome).st.files == st.files
    decreases |cmds|
  {
    if cmds != [] {
      var o := RunCommand(st, cmds[0], outcome);
      if o.halted.None? {
        RunAllKeepsFiles(o.st, cmds[1..], outcome);
      }
    }
  }

  /** A run only appends to the log, one event per command it reaches, and all of them when it does not abort. */
  lemma {:induction false} RunAllLog(st: State, cmds: seq<Command>, outcome: nat -> bool)
    ensures var r := RunAll(st, cmds, outcome);
            |st.log| <= |r.st.log| <= |st.log| + |cmds| && r.st.log[..|st.log|] == st.log &&
            (r.halted.None? ==> |r.st.log| == |st.log| + |cmds|)
    decreases |cmds|
  {
    if cmds != [] {
      var o := RunCommand(st, cmds[0], outcome);
      if o.halted.None? {
        RunAllLog(o.st, cmds[1..], outcome);
        var r := RunAll(o.st, cmds[1..], outcome);
        assert r.st.log[..|st.log|] == r.st.log[..|o.st.log|][..|st.log|];
      }
    }
  }

  // ---------------------------------------------------------------------
  // Patching the tracked files
  // ---------------------------------------------------------------------

  const TRACKED: set<string> := {PYPROJECT, README}

  /**
    Patching rewrites only the named files, and when none is missing all of
    them are present afterwards and the result holds each one rewritten.
  */
  lemma {:induction false} PatchFilesFrame(files: Files, paths: seq<string>, v: Version)
    ensures var p := PatchFiles(files, paths, v);
            p.files.Keys == files.Keys &&
            (forall q :: q in files && q !in paths ==> p.files[q] == files[q]) &&
            (p.missing.None? <==> forall q :: q in paths ==> q in files) &&
            (p.missing.Some? ==> p.missing.value in paths && p.missing.value !in files) &&
            (p.missing.Some? ==> exists k :: 0 <= k < |paths| && paths[k] == p.missing.value &&
                                   forall j :: 0 <= j < k ==> paths[j] in files)
    decreases |paths|
  {
    if paths != [] && paths[0] in files {
      var f := files[paths[0] := Replacer(paths[0], files[paths[0]], v)];
      PatchFilesFrame(f, paths[1..], v);
      assert forall q :: q in paths <==> q == paths[0] || q in paths[1..];
    }
  }

  /** `process_version` for `v` rewrites `pyproject.toml` and then `README.md`. */
  lemma {:induction false} PatchTracked(files: Files, v: Version)
    requires PYPROJECT in files && README in files
    ensures PatchFiles(files, TRACKED_PATHS, v) ==
            Patched(files[PYPROJECT := ReplacePyproject(files[PYPROJECT], v)]
                         [README := ReplaceReadme(files[README], v)], None)
  {
    var f1 := files[PYPROJECT := ReplacePyproject(files[PYPROJECT], v)];
    var f2 := f1[README := ReplaceReadme(files[README], v)];
    assert TRACKED_PATHS[1..] == [README];
    assert [README][1..] == [];
    assert f1[README] == files[README];
    assert PatchFiles(f1, [README], v) == PatchFiles(f2, [], v);
    assert PatchFiles(files, TRACKED_PATHS, v) == PatchFiles(f1, [README], v);
  }

  /** Patching a tree already patched for the same three-segment version changes nothing. */
  lemma {:induction false} PatchTwice(files: Files, v: Version)
    requires |v| == 3
    requires PYPROJECT in files && README in files
    ensures var f := PatchFiles(files, TRACKED_PATHS, v).files;
            PatchFiles(f, TRACKED_PATHS, v) == Patched(f, None)
  {
    PatchTracked(files, v);
    var f := PatchFiles(files, TRACKED_PATHS, v).files;
    PatchTracked(f, v);
    PyprojectIdempotent(files[PYPROJECT], v);
    ReadmeIdempotent(files[README], v);
    var g := f[PYPROJECT := ReplacePyproject(f[PYPROJECT], v)][README := ReplaceReadme(f[README], v)];
    assert g == f;
  }

  // ---------------------------------------------------------------------
  // Publishing a version
  // ---------------------------------------------------------------------

  /**
    Nothing is staged or committed that is not in the commit, and the
    working tree differs from the commit in the tracked files at most.
  */
  ghost predicate Settled(st: State)
  {
    st.staged == st.committed && st.files - TRACKED == st.committed - TRACKED
  }

  /** Everything from log position `start` on succeeds for `n` commands. */
  ghost predicate SucceedsFrom(outcome: nat -> bool, start: nat, n: nat)
  {
    forall k :: start <= k < start + n ==> outcome(k)
  }

  /** The state after the six commands of `PublishCmds` when each of them succeeds. */
  lemma {:induction false} PublishAllSucceed(st: State, v: Version, outcome: nat -> bool)
    requires SucceedsFrom(outcome, |st.log|, 6)
    ensures var r := RunAll(st, PublishCmds(v), outcome);
            var idx := Stage(st.staged, st.files, TRACKED_PATHS);
            r == Outcome(State(st.files, idx, idx, st.log + Trace(PublishCmds(v), outcome, |st.log|)), None)
  {
    var cmds := PublishCmds(v);
    RunAllTrace(st, cmds, outcome);
    RunAllKeepsFiles(st, cmds, outcome);
    assert FirstFatal(cmds, outcome, |st.log|) == |cmds|;
    assert cmds[..6] == cmds;
    var idx := Stage(st.staged, st.files, TRACKED_PATHS);
    var o1 := RunCommand(st, GitAdd(TRACKED_PATHS), outcome);
    assert o1.st.staged == idx && o1.st.committed == st.committed;
    var o2 := RunCommand(o1.st, GitCommit("Mirror: " + VersionString(v)), outcome);
    assert outcome(|st.log| + 1);
    assert o2.st.staged == idx && o2.st.committed == idx;
    StagingUnchanged(o2.st, cmds[2..], outcome);
    assert cmds[1..][1..] == cmds[2..];
  }

  /** The tag and release commands change neither the index nor the commit. */
  lemma {:induction false} StagingUnchanged(st: State, cmds: seq<Command>, outcome: nat -> bool)
    requires forall i :: 0 <= i < |cmds| ==> !cmds[i].GitAdd? && !cmds[i].GitCommit?
    ensures RunAll(st, cmds, outcome).st.staged == st.staged
    ensures RunAll(st, cmds, outcome).st.committed == st.committed
    decreases |cmds|
  {
    if cmds != [] {
      var o := RunCommand(st, cmds[0], outcome);
      if o.halted.None? {
        StagingUnchanged(o.st, cmds[1..], outcome);
      }
    }
  }

  /** Staging the tracked files of a settled tree makes index, commit and tree agree. */
  lemma {:induction false} StageSettled(st: State, files: Files)
    requires Settled(st)
    requires PYPROJECT in files && README in files
    requires files - TRACKED == st.files - TRACKED
    ensures Stage(st.staged, files, TRACKED_PATHS) == files
  {
    var idx := Stage(st.staged, files, TRACKED_PATHS);
    forall q | q in files ensures q in idx && idx[q] == files[q] {
      if q !in TRACKED {
        assert q in files - TRACKED;
      }
    }
    forall q | q in idx ensures q in files {
      if q !in TRACKED {
        assert q in st.committed - TRACKED;
      }
    }
  }

  /**
    A version whose rewrite changed a settled tree is committed: after all
    six commands succeed the tree is clean and the commit holds the
    rewritten files.
  */
  lemma {:induction false} PublishCleans(st: State, v: Version, outcome: nat -> bool)
    requires Settled(st)
    requires PYPROJECT in st.files && README in st.files
    requires SucceedsFrom(outcome, |st.log|, 6)
    ensures var p := PatchTree(st, v).st;
            var r := VersionStep(st, v, outcome);
            r.halted.None? && !Dirty(r.st) && r.st.committed == p.files
  {
    var p := PatchTree(st, v).st;
    PatchFilesFrame(st.files, TRACKED_PATHS, v);
    PatchTracked(st.files, v);
    assert p.files - TRACKED == st.files - TRACKED;
    if Dirty(p) {
      PublishAllSucceed(p, v, outcome);
      StageSettled(st, p.files);
    } else {
      assert p.files == p.staged && p.staged == p.committed;
    }
  }

  /** A publication that runs to its end has added and committed the tracked files. */
  lemma {:induction false} PublishCommits(p: State, v: Version, outcome: nat -> bool)
    requires RunAll(p, PublishCmds(v), outcome).halted.None?
    ensures var r := RunAll(p, PublishCmds(v), outcome).st;
            var idx := Stage(p.staged, p.files, TRACKED_PATHS);
            r.files == p.files && r.staged == idx && r.committed == idx
  {
    var cmds := PublishCmds(v);
    RunAllTrace(p, cmds, outcome);
    assert FirstFatal(cmds, outcome, |p.log|) == |cmds|;
    assert MustSucceed(cmds[0]) && MustSucceed(cmds[1]);
    assert outcome(|p.log| + 0) && outcome(|p.log| + 1);
    var idx := Stage(p.staged, p.files, TRACKED_PATHS);
    var o1 := RunCommand(p, GitAdd(TRACKED_PATHS), outcome);
    assert o1.st.staged == idx;
    var o2 := RunCommand(o1.st, GitCommit("Mirror: " + VersionString(v)), outcome);
    assert o2.st.staged == idx && o2.st.committed == idx;
    assert cmds[1..][1..] == cmds[2..];
    StagingUnchanged(o2.st, cmds[2..], outcome);
    RunAllKeepsFiles(p, cmds, outcome);
  }

  /** Patching changes the working tree in the tracked files only, and neither the index nor the commit. */
  lemma PatchTreeUntracked(st: State, v: Version)
    ensures var p := PatchTree(st, v).st;
            p.files - TRACKED == st.files - TRACKED && p.staged == st.staged && p.committed == st.committed
  {
    PatchFilesFrame(st.files, TRACKED_PATHS, v);
  }

  /** Staging the tracked paths changes the index in the tracked files only. */
  lemma StageUntracked(staged: Files, files: Files)
    ensures Stage(staged, files, TRACKED_PATHS) - TRACKED == staged - TRACKED
  {
    var idx := Stage(staged, files, TRACKED_PATHS);
    assert forall q :: q in TRACKED_PATHS <==> q in TRACKED;
    assert (idx - TRACKED).Keys == (staged - TRACKED).Keys;
  }

  /** A step of the forward loop that does not halt leaves a settled tree settled. */
  lemma {:induction false} StepKeepsSettled(st: State, v: Version, outcome: nat -> bool)
    requires Settled(st)
    requires VersionStep(st, v, outcome).halted.None?
    ensures Settled(VersionStep(st, v, outcome).st)
  {
    var p := PatchTree(st, v).st;
    PatchTreeUntracked(st, v);
    if Dirty(p) {
      PublishCommits(p, v, outcome);
      StageUntracked(p.staged, p.files);
    }
  }

  /**
    Mirroring a three-segment version again right after it was mirrored
    with every command succeeding only reports "No change".
  */
  lemma {:induction false} RepeatIsQuiet(st: State, v: Version, outcome: nat -> bool)
    requires |v| == 3
    requires Settled(st)
    requires PYPROJECT in st.files && README in st.files
    requires SucceedsFrom(outcome, |st.log|, 6)
    ensures var r := VersionStep(st, v, outcome).st;
            VersionStep(r, v, outcome) == Outcome(r.(log := r.log + [NoChange(v)]), None)
  {
    PublishCleans(st, v, outcome);
    var r := VersionStep(st, v, outcome).st;
    var p := PatchTree(st, v).st;
    PatchTracked(st.files, v);
    PatchTwice(st.files, v);
    if Dirty(p) {
      RunAllKeepsFiles(p, PublishCmds(v), outcome);
    }
    assert r.files == p.files;
    assert PatchTree(r, v).st == r;
  }

  // ---------------------------------------------------------------------
  // The forward loop
  // ---------------------------------------------------------------------

  /** Running the loop over `a + b` runs it over `a`, then, unless that halted, over `b`. */
  lemma {:induction false} ForwardConcat(st: State, a: seq<Version>, b: seq<Version>, outcome: nat -> bool)
    ensures ForwardSpec(st, a + b, outcome) ==
            var o := ForwardSpec(st, a, outcome);
            if o.halted.Some? then o else ForwardSpec(o.st, b, outcome)
    decreases |a|
  {
    if a == [] {
      assert a + b == b;
    } else {
      assert (a + b)[0] == a[0];
      assert (a + b)[1..] == a[1..] + b;
      var o := VersionStep(st, a[0], outcome);
      if o.halted.None? {
        ForwardConcat(o.st, a[1..], b, outcome);
      }
    }
  }

  /** Every tag, release or release deletion in `events` names a version of `vs`. */
  ghost predicate ReleasesWithin(events: seq<Event>, vs: seq<Version>)
  {
    forall i :: 0 <= i < |events| ==> events[i].Ran? ==>
      match events[i].command
      case GitTag(v) => v in vs
      case ReleaseCreate(v) => v in vs
      case ReleaseDelete(v) => v in vs
      case _ => true
  }

  lemma {:induction false} ReleasesWithinWeaken(events: seq<Event>, a: seq<Version>, b: seq<Version>)
    requires ReleasesWithin(events, a)
    requires forall v :: v in a ==> v in b
    ensures ReleasesWithin(events, b)
  {
  }

  lemma {:induction false} ReleasesWithinConcat(e1: seq<Event>, e2: seq<Event>, vs: seq<Version>)
    requires ReleasesWithin(e1, vs) && ReleasesWithin(e2, vs)
    ensures ReleasesWithin(e1 + e2, vs)
  {
    forall i | 0 <= i < |e1 + e2| ensures (e1 + e2)[i] == if i < |e1| then e1[i] else e2[i - |e1|] {
    }
  }

  /** Every tag, release or release deletion among `cmds` names a version of `vs`. */
  ghost predicate CommandsWithin(cmds: seq<Command>, vs: seq<Version>)
  {
    forall i :: 0 <= i < |cmds| ==>
      match cmds[i]
      case GitTag(v) => v in vs
      case ReleaseCreate(v) => v in vs
      case ReleaseDelete(v) => v in vs
      case _ => true
  }

  /** Running commands appends their events to the log and nothing else. */
  lemma {:induction false} RunAllReleasesOnly(st: State, cmds: seq<Command>, vs: seq<Version>, outcome: nat -> bool)
    requires CommandsWithin(cmds, vs)
    ensures var r := RunAll(st, cmds, outcome).st;
            |st.log| <= |r.log| && r.log[..|st.log|] == st.log &&
            ReleasesWithin(r.log[|st.log|..], vs)
  {
    RunAllTrace(st, cmds, outcome);
    var r := RunAll(st, cmds, outcome).st;
    var k := FirstFatal(cmds, outcome, |st.log|);
    var n := if k < |cmds| then k + 1 else k;
    var t := Trace(cmds[..n], outcome, |st.log|);
    assert r.log[|st.log|..] == t;
    forall i | 0 <= i < |t| ensures t[i].command == cmds[i] {
    }
  }

  /** One step of the loop appends events, and tags and releases only its own version. */
  lemma {:induction false} StepReleasesOnly(st: State, v: Version, outcome: nat -> bool)
    ensures var r := VersionStep(st, v, outcome).st;
            |st.log| <= |r.log| && r.log[..|st.log|] == st.log &&
            ReleasesWithin(r.log[|st.log|..], [v])
  {
    var p := PatchTree(st, v).st;
    var r := VersionStep(st, v, outcome).st;
    if PatchTree(st, v).halted.Some? {
      assert r.log[|st.log|..] == [];
    } else if Dirty(p) {
      RunAllReleasesOnly(p, PublishCmds(v), [v], outcome);
    } else {
      assert r.log[|st.log|..] == [NoChange(v)];
    }
  }

  /** A log extending one that extends `a` extends `a` too, by the two additions in turn. */
  lemma LogExtends(a: seq<Event>, b: seq<Event>, c: seq<Event>)
    requires |a| <= |b| && b[..|a|] == a
    requires |b| <= |c| && c[..|b|] == b
    ensures c[..|a|] == a && c[|a|..] == b[|a|..] + c[|b|..]
  {
    assert c[..|a|] == c[..|b|][..|a|];
    assert c[|a|..] == c[|a|..|b|] + c[|b|..];
    assert c[|a|..|b|] == c[..|b|][|a|..];
  }

  /**
    The forward loop only appends to the log, and it tags and releases
    target versions only.
  */
  lemma {:induction false} ForwardReleasesOnlyTargets(st: State, targets: seq<Version>, outcome: nat -> bool)
    ensures var r := ForwardSpec(st, targets, outcome).st;
            |st.log| <= |r.log| && r.log[..|st.log|] == st.log &&
            ReleasesWithin(r.log[|st.log|..], targets)
    decreases |targets|
  {
    var r := ForwardSpec(st, targets, outcome).st;
    if targets == [] {
      assert r.log[|st.log|..] == [];
    } else {
      var o := VersionStep(st, targets[0], outcome);
      StepReleasesOnly(st, targets[0], outcome);
      var e1 := o.st.log[|st.log|..];
      if o.halted.None? {
        ForwardReleasesOnlyTargets(o.st, targets[1..], outcome);
        var e2 := r.log[|o.st.log|..];
        LogExtends(st.log, o.st.log, r.log);
        ReleasesWithinWeaken(e1, [targets[0]], targets);
        ReleasesWithinWeaken(e2, targets[1..], targets);
        ReleasesWithinConcat(e1, e2, targets);
      }
    }
  }

  /** The event that shows a target was dealt with: a "No change" report or its successful tag. */
  predicate Handled(v: Version, e: Event)
  {
    e == NoChange(v) || e == Ran(GitTag(v), true)
  }

  /** With every command succeeding and a settled tree, one step tags its version or reports it unchanged. */
  lemma StepHandled(st: State, v: Version, outcome: nat -> bool) returns (k: int)
    requires forall k :: outcome(k)
    requires Settled(st)
    requires PYPROJECT in st.files && README in st.files
    ensures var o := VersionStep(st, v, outcome);
            o.halted.None? && Settled(o.st) && PYPROJECT in o.st.files && README in o.st.files &&
            |st.log| <= k < |o.st.log| && Handled(v, o.st.log[k])
  {
    var o := VersionStep(st, v, outcome);
    PublishCleans(st, v, outcome);
    StepKeepsSettled(st, v, outcome);
    var p := PatchTree(st, v).st;
    PatchFilesFrame(st.files, TRACKED_PATHS, v);
    if Dirty(p) {
      PublishAllSucceed(p, v, outcome);
      k := |p.log| + 3;
    } else {
      k := |p.log|;
    }
  }

  /** With every command succeeding and a settled tree, each target is tagged or reported unchanged by the run itself. */
  lemma {:induction false} ForwardHandlesEveryTarget(st: State, targets: seq<Version>, outcome: nat -> bool)
    requires forall k :: outcome(k)
    requires Settled(st)
    requires PYPROJECT in st.files && README in st.files
    ensures var r := ForwardSpec(st, targets, outcome);
            r.halted.None? && Settled(r.st) && PYPROJECT in r.st.files && README in r.st.files &&
            |st.log| <= |r.st.log| && r.st.log[..|st.log|] == st.log &&
            forall v :: v in targets ==>
              NoChange(v) in r.st.log[|st.log|..] || Ran(GitTag(v), true) in r.st.log[|st.log|..]
  {
    var r := ForwardSpec(st, targets, outcome);
    var pos := ForwardHandledInOrder(st, targets, outcome);
    ForwardReleasesOnlyTargets(st, targets, outcome);
    forall v | v in targets
      ensures NoChange(v) in r.st.log[|st.log|..] || Ran(GitTag(v), true) in r.st.log[|st.log|..]
    {
      var i :| 0 <= i < |targets| && targets[i] == v;
      assert r.st.log[|st.log|..][pos[i] - |st.log|] == r.st.log[pos[i]];
    }
  }

  /**
    With every command succeeding and a settled tree, the run deals with the
    targets in their order: `pos[i]` is the position of the event, logged by
    the run itself, that shows `targets[i]` was dealt with.
  */
  lemma {:induction false} ForwardHandledInOrder(st: State, targets: seq<Version>, outcome: nat -> bool)
    returns (pos: seq<int>)
    requires forall k :: outcome(k)
    requires Settled(st)
    requires PYPROJECT in st.files && README in st.files
    ensures var r := ForwardSpec(st, targets, outcome);
            r.halted.None? && Settled(r.st) && PYPROJECT in r.st.files && README in r.st.files &&
            |pos| == |targets| &&
            (forall i :: 0 <= i < |pos| ==> |st.log| <= pos[i] < |r.st.log| && Handled(targets[i], r.st.log[pos[i]])) &&
            (forall i, j :: 0 <= i < j < |pos| ==> pos[i] < pos[j])
    decreases |targets|
  {
    if targets == [] {
      pos := [];
    } else {
      var o := VersionStep(st, targets[0], outcome);
      var k := StepHandled(st, targets[0], outcome);
      var rest := ForwardHandledInOrder(o.st, targets[1..], outcome);
      var r := ForwardSpec(o.st, targets[1..], outcome);
      ForwardReleasesOnlyTargets(o.st, targets[1..], outcome);
      assert r.st.log[k] == r.st.log[..|o.st.log|][k] == o.st.log[k];
      pos := [k] + rest;
      forall i | 0 <= i < |pos|
        ensures |st.log| <= pos[i] < |r.st.log| && Handled(targets[i], r.st.log[pos[i]])
      {
        if i > 0 {
          assert pos[i] == rest[i - 1] && targets[i] == targets[1..][i - 1];
        }
      }
    }
  }

  // ---------------------------------------------------------------------
  // main
  // ---------------------------------------------------------------------

  /**
    `main` once the catalog is fetched and the pin read: a newer valid
    version moves the loop forward; otherwise a valid pin is republished
    as itself, a yanked pin does nothing at all, and a pin missing from
    the catalog is a `KeyError`.
  */
  lemma {:induction false} MainDispatch(st: State, response: Response, reqs: seq<Requirement>, outcome: nat -> bool)
    requires response.status == 200 && CurrentVersion(reqs).Success?
    ensures var c, pin := response.releases, CurrentVersion(reqs).value;
            var m := MainSpec(st, response, reqs, outcome);
            (HasNewer(c, pin) ==> m == Success(ForwardSpec(st, TargetVersions(c, pin), outcome))) &&
            (!HasNewer(c, pin) && Valid(c, pin) ==> m == Success(RepublishSpec(st, pin, pin, outcome))) &&
            (!HasNewer(c, pin) && pin in c && AnyYanked(c[pin]) ==> m == Success(Outcome(st, None))) &&
            (!HasNewer(c, pin) && pin !in c ==> m == Failure(MissingPin(PinNotInCatalog)))
  {
    var c, pin := response.releases, CurrentVersion(reqs).value;
    if !HasNewer(c, pin) && pin in c && AnyYanked(c[pin]) {
      assert Reconcile(c, pin) == Success(Forward([]));
    }
  }

  /** The registry is asked first: a failed fetch stops `main` whatever the manifest says. */
  lemma {:induction false} MainFetchFirst(st: State, response: Response, reqs: seq<Requirement>, outcome: nat -> bool)
    requires response.status != 200
    ensures MainSpec(st, response, reqs, outcome) == Failure(FetchFailed(RegistryUnavailable))
  {
  }

  /** The special branch, when the tree changes and every command succeeds, runs exactly these commands. */
  lemma {:induction false} RepublishOrder(st: State, pin: Version, last: Version, outcome: nat -> bool)
    requires forall k :: outcome(k)
    requires PatchTree(st, last).halted.None? && Dirty(PatchTree(st, last).st)
    ensures var p := PatchTree(st, last).st;
            RepublishSpec(st, pin, last, outcome) ==
            RunAll(p, RepublishCmds(pin, last), outcome) &&
            RepublishSpec(st, pin, last, outcome).st.log == p.log + [
              Ran(GitAdd(TRACKED_PATHS), true),
              Ran(GitCommit("Mirror: yanked " + VersionString(pin)), true),
              Ran(GitPushMain, true),
              Ran(ReleaseDelete(last), true),
              Ran(GitTag(last), true),
              Ran(GitPushTags, true),
              Ran(ReleaseCreate(last), true)]
  {
    var p := PatchTree(st, last).st;
    var cmds := RepublishCmds(pin, last);
    RunAllTrace(p, cmds, outcome);
    assert FirstFatal(cmds, outcome, |p.log|) == |cmds|;
    assert cmds[..|cmds|] == cmds;
  }

  /** The special branch runs no command when patching stops at a missing file or leaves the tree clean. */
  lemma RepublishQuiet(st: State, pin: Version, last: Version, outcome: nat -> bool)
    requires PatchTree(st, last).halted.Some? || !Dirty(PatchTree(st, last).st)
    ensures RepublishSpec(st, pin, last, outcome) == PatchTree(st, last) &&
            RepublishSpec(st, pin, last, outcome).st.log == st.log
  {
  }

  /** The special branch, once patching left the tree dirty, runs its commands as traced, for any outcome. */
  lemma RepublishTrace(st: State, pin: Version, last: Version, outcome: nat -> bool)
    requires PatchTree(st, last).halted.None? && Dirty(PatchTree(st, last).st)
    ensures var p := PatchTree(st, last).st;
            RepublishSpec(st, pin, last, outcome) == RunAll(p, RepublishCmds(pin, last), outcome) &&
            RunsAsTraced(p, RepublishCmds(pin, last), outcome)
  {
    RunAllTrace(PatchTree(st, last).st, RepublishCmds(pin, last), outcome);
  }

  /** The release delete and then `create_tagged_release`: a failed delete aborts before the tag. */
  lemma {:induction false} DeleteThenTag(q: State, last: Version, outcome: nat -> bool)
    ensures var r := RunAll(q, [ReleaseDelete(last)] + TagCmds(last), outcome);
            var n := |q.log|;
            (r.halted.None? <==> outcome(n) && outcome(n + 1)) &&
            |r.st.log| > n && r.st.log[n] == Ran(ReleaseDelete(last), outcome(n)) &&
            (!outcome(n) ==> r.halted == Some(CommandFailed(ReleaseDelete(last))) && |r.st.log| == n + 1)
  {
    var cmds := [ReleaseDelete(last)] + TagCmds(last);
    var o := RunCommand(q, ReleaseDelete(last), outcome);
    assert cmds[0] == ReleaseDelete(last) && cmds[1..] == TagCmds(last);
    if o.halted.None? {
      TagNeedsOnlyTag(o.st, last, outcome);
      RunAllLog(o.st, TagCmds(last), outcome);
      var r := RunAll(o.st, TagCmds(last), outcome);
      assert r.st.log[|q.log|] == r.st.log[..|o.st.log|][|q.log|];
    }
  }

  /**
    The special branch, for any outcome of its commands, once patching left
    the tree dirty: the release delete is attempted exactly when add, commit
    and push succeed, and a failed delete aborts before anything is tagged;
    the run gets through exactly when the five checked commands succeed.
  */
  lemma {:induction false} RepublishAborts(st: State, pin: Version, last: Version, outcome: nat -> bool)
    requires PatchTree(st, last).halted.None? && Dirty(PatchTree(st, last).st)
    ensures var p := PatchTree(st, last).st;
            var n := |p.log|;
            var r := RepublishSpec(st, pin, last, outcome);
            var pushed := outcome(n) && outcome(n + 1) && outcome(n + 2);
            (r.halted.None? <==> pushed && outcome(n + 3) && outcome(n + 4)) &&
            (!pushed ==> r.halted.Some? && |r.st.log| <= n + 3) &&
            (pushed ==> |r.st.log| > n + 3 && r.st.log[n + 3] == Ran(ReleaseDelete(last), outcome(n + 3))) &&
            (pushed && !outcome(n + 3) ==> r.halted == Some(CommandFailed(ReleaseDelete(last))) && |r.st.log| == n + 4)
  {
    var p := PatchTree(st, last).st;
    var msg := "Mirror: yanked " + VersionString(pin);
    var a, b := PushCmds(TRACKED_PATHS, msg), [ReleaseDelete(last)] + TagCmds(last);
    assert RepublishCmds(pin, last) == a + b;
    RunAllConcat(p, a, b, outcome);
    PushNeedsEverySuccess(p, TRACKED_PATHS, msg, outcome);
    RunAllLog(p, a, outcome);
    var o := RunAll(p, a, outcome);
    if o.halted.None? {
      DeleteThenTag(o.st, last, outcome);
    }
  }
}
