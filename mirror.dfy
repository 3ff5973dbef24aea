/**
  The mirror script as the program it is: a workspace holding the working
  tree, the index, the last commit and the log of commands run, whose
  methods run the commands of mirror.py one at a time and overwrite the
  tracked files in place.  Each method is proved to reach exactly the state
  that the corresponding function of `Publish` describes, so everything
  proved about those functions holds of the methods.
*/
module Mirror {
  import opened Wrappers
  import opened Versions
  import opened Catalog
  import opened Requirements
  import opened Publish
  import opened PublishProofs

  class Workspace {
    var files: Files
    var staged: Files
    var committed: Files
    var log: seq<Event>

    /** The repository the script runs in, as a value. */
    function Snapshot(): State
      reads this
    {
      State(files, staged, committed, log)
    }

    constructor (st: State)
      ensures Snapshot() == st
    {
      files, staged, committed, log := st.files, st.staged, st.committed, st.log;
    }

    /** `subprocess.run(Argv(c), check=MustSucceed(c))`. */
    method Run(c: Command, outcome: nat -> bool) returns (halt: Option<Halt>)
      modifies this
      ensures Outcome(Snapshot(), halt) == RunCommand(old(Snapshot()), c, outcome)
    {
      var ok := outcome(|log|);
      if ok {
        match c
        case GitAdd(paths) => staged := Stage(staged, files, paths);
        case GitCommit(_) => committed := staged;
        case _ =>
      }
      log := log + [Ran(c, ok)];
      halt := if !ok && MustSucceed(c) then Some(CommandFailed(c)) else None;
    }

    /** `push_changed_version` (mirror.py:58-61): add, commit and push, each of which must succeed. */
    method PushChangedVersion(paths: seq<string>, message: string, outcome: nat -> bool)
      returns (halt: Option<Halt>)
      modifies this
      ensures Outcome(Snapshot(), halt) == RunAll(old(Snapshot()), PushCmds(paths, message), outcome)
    {
      ghost var cmds := PushCmds(paths, message);
      ghost var s0 := Snapshot();
      halt := Run(GitAdd(paths), outcome);
      if halt.Some? {
        return;
      }
      ghost var s1 := Snapshot();
      assert RunAll(s0, cmds, outcome) == RunAll(s1, cmds[1..], outcome);
      halt := Run(GitCommit(message), outcome);
      if halt.Some? {
        return;
      }
      ghost var s2 := Snapshot();
      assert cmds[1..][1..] == [GitPushMain] && [GitPushMain][1..] == [];
      assert RunAll(s1, cmds[1..], outcome) == RunAll(s2, [GitPushMain], outcome);
      halt := Run(GitPushMain, outcome);
    }

    /**
      `create_tagged_release` (mirror.py:64-82): the tag must succeed, the
      tag push and the release creation may fail.
    */
    method CreateTaggedRelease(v: Version, outcome: nat -> bool) returns (halt: Option<Halt>)
      modifies this
      ensures Outcome(Snapshot(), halt) == RunAll(old(Snapshot()), TagCmds(v), outcome)
    {
      ghost var cmds := TagCmds(v);
      ghost var s0 := Snapshot();
      halt := Run(GitTag(v), outcome);
      if halt.Some? {
        return;
      }
      ghost var s1 := Snapshot();
      assert RunAll(s0, cmds, outcome) == RunAll(s1, cmds[1..], outcome);
      halt := Run(GitPushTags, outcome);
      ghost var s2 := Snapshot();
      assert cmds[1..][1..] == [ReleaseCreate(v)] && [ReleaseCreate(v)][1..] == [];
      assert RunAll(s1, cmds[1..], outcome) == RunAll(s2, [ReleaseCreate(v)], outcome);
      halt := Run(ReleaseCreate(v), outcome);
    }

    /**
      `process_version` (mirror.py:109-128): each tracked file in turn is read,
      rewritten and written back; a file that cannot be opened stops the loop.
    */
    method ProcessVersion(v: Version) returns (paths: seq<string>, missing: Option<string>)
      modifies this
      ensures Patched(files, missing) == PatchFiles(old(files), TRACKED_PATHS, v)
      ensures paths == TRACKED_PATHS
      ensures staged == old(staged) && committed == old(committed) && log == old(log)
    {
      paths := TRACKED_PATHS;
      var i := 0;
      while i < |paths|
        invariant 0 <= i <= |paths|
        invariant PatchFiles(files, paths[i..], v) == PatchFiles(old(files), paths, v)
        invariant staged == old(staged) && committed == old(committed) && log == old(log)
      {
        var path := paths[i];
        if path !in files {
          missing := Some(path);
          return;
        }
        assert paths[i..][1..] == paths[i + 1..];
        files := files[path := Replacer(path, files[path], v)];
        i := i + 1;
      }
      missing := None;
    }

    /** One pass of the loop at mirror.py:49-55: patch, and publish only a changed tree. */
    method MirrorVersion(v: Version, outcome: nat -> bool) returns (halt: Option<Halt>)
      modifies this
      ensures Outcome(Snapshot(), halt) == VersionStep(old(Snapshot()), v, outcome)
    {
      var paths, missing := ProcessVersion(v);
      if missing.Some? {
        return Some(FileMissing(missing.value));
      }
      if Dirty(Snapshot()) {
        ghost var p := Snapshot();
        var message := "Mirror: " + VersionString(v);
        halt := PushChangedVersion(paths, message, outcome);
        if halt.None? {
          halt := CreateTaggedRelease(v, outcome);
        }
        RunAllConcat(p, PushCmds(paths, message), TagCmds(v), outcome);
      } else {
        log := log + [NoChange(v)];
        halt := None;
      }
    }

    /** The forward loop (mirror.py:49-55): the targets in order, until a command aborts the run. */
    method MirrorTargets(targets: seq<Version>, outcome: nat -> bool) returns (halt: Option<Halt>)
      modifies this
      ensures Outcome(Snapshot(), halt) == ForwardSpec(old(Snapshot()), targets, outcome)
    {
      halt := None;
      var i := 0;
      while i < |targets|
        invariant 0 <= i <= |targets|
        invariant halt.None?
        invariant ForwardSpec(Snapshot(), targets[i..], outcome) == ForwardSpec(old(Snapshot()), targets, outcome)
      {
        assert targets[i..][0] == targets[i] && targets[i..][1..] == targets[i + 1..];
        halt := MirrorVersion(targets[i], outcome);
        if halt.Some? {
          return;
        }
        i := i + 1;
      }
      assert targets[i..] == [];
    }

    /**
      The special branch (mirror.py:29-47): patch for `last`; if the tree
      changed, commit it as "yanked", delete the release of `last` and
      release `last` anew.
    */
    method RepublishLast(pin: Version, last: Version, outcome: nat -> bool) returns (halt: Option<Halt>)
      modifies this
      ensures Outcome(Snapshot(), halt) == RepublishSpec(old(Snapshot()), pin, last, outcome)
    {
      var paths, missing := ProcessVersion(last);
      if missing.Some? {
        return Some(FileMissing(missing.value));
      }
      halt := None;
      if Dirty(Snapshot()) {
        ghost var p := Snapshot();
        var message := "Mirror: yanked " + VersionString(pin);
        halt := PushChangedVersion(paths, message, outcome);
        if halt.None? {
          halt := Run(ReleaseDelete(last), outcome);
          assert [ReleaseDelete(last)][1..] == [];
          if halt.None? {
            halt := CreateTaggedRelease(last, outcome);
          }
        }
        RunAllConcat(p, PushCmds(paths, message), [ReleaseDelete(last)], outcome);
        RunAllConcat(p, PushCmds(paths, message) + [ReleaseDelete(last)], TagCmds(last), outcome);
      }
    }

    /**
      `main` (mirror.py:16-55) from the registry's answer and the parsed
      dependency list on: an error before any command leaves the repository
      untouched; otherwise the run ends as the plan's branch does.
    */
    method RunMirror(response: Response, reqs: seq<Requirement>, outcome: nat -> bool)
      returns (r: Result<Option<Halt>, StartError>)
      modifies this
      ensures match MainSpec(old(Snapshot()), response, reqs, outcome)
              case Failure(e) => r == Failure(e) && Snapshot() == old(Snapshot())
              case Success(o) => r == Success(o.halted) && Snapshot() == o.st
    {
      var fetched := GetAllReleases(response);
      if fetched.Failure? {
        return Failure(FetchFailed(fetched.error));
      }
      var pin := CurrentVersion(reqs);
      if pin.Failure? {
        return Failure(BadPin(pin.error));
      }
      var plan := Reconcile(fetched.value, pin.value);
      if plan.Failure? {
        return Failure(MissingPin(plan.error));
      }
      var halt;
      match plan.value {
        case Republish(last) =>
          halt := RepublishLast(pin.value, last, outcome);
        case Forward(targets) =>
          halt := MirrorTargets(targets, outcome);
      }
      r := Success(halt);
    }
  }
}
