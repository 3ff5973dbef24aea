/**
  Reading the current pin from the manifest's dependency list
  (mirror.py, `get_current_version`).  Requirements arrive already parsed:
  a name and the set of its version specifiers, as `packaging` gives them.
*/
module Requirements {
  import opened Wrappers
  import opened Versions

  /**
    A version specifier.  `version` is `None` when the text after the
    operator is not a version by itself, as in the wildcard `== 0.4.*`.
  */
  datatype Specifier = Specifier(operator: string, version: Option<Version>)

  /** `Requirement.specifier` is a set: duplicate specifiers collapse. */
  datatype Requirement = Requirement(name: string, specifiers: set<Specifier>)

  datatype PinError =
    | NoUvRequirement                     // first assertion, line 99
    | NotExactPin(requirement: Requirement) // second assertion, lines 102-104
    | InvalidPin(requirement: Requirement)  // `InvalidVersion` of `Version(...)`, line 106

  const PACKAGE: string := "uv"
  const EXACT: string := "=="

  /** `i` is the position of the first requirement called `name`. */
  ghost predicate IsFirstNamed(reqs: seq<Requirement>, name: string, i: int)
  {
    0 <= i < |reqs| && reqs[i].name == name && forall j :: 0 <= j < i ==> reqs[j].name != name
  }

  /** The specifier set consists of exactly `== v`. */
  ghost predicate ExactPin(specifiers: set<Specifier>, v: Version)
  {
    specifiers == {Specifier(EXACT, Some(v))}
  }

  /** The specifier set consists of one `==` specifier, whatever text follows the operator. */
  ghost predicate SingleExact(specifiers: set<Specifier>)
  {
    |specifiers| == 1 && forall sp :: sp in specifiers ==> sp.operator == EXACT
  }

  /** `next((r for r in requirements if r.name == name), None)`. */
  function FirstNamed(reqs: seq<Requirement>, name: string): (r: Option<Requirement>)
    ensures r.None? <==> forall j :: 0 <= j < |reqs| ==> reqs[j].name != name
    ensures r.Some? ==> exists i :: IsFirstNamed(reqs, name, i) && reqs[i] == r.value
  {
    if reqs == [] then None
    else if reqs[0].name == name then
      assert IsFirstNamed(reqs, name, 0);
      Some(reqs[0])
    else
      var r := FirstNamed(reqs[1..], name);
      assert r.Some? ==> exists i :: IsFirstNamed(reqs, name, i) && reqs[i] == r.value by {
        if r.Some? {
          var i :| IsFirstNamed(reqs[1..], name, i) && reqs[1..][i] == r.value;
          assert IsFirstNamed(reqs, name, i + 1);
        }
      }
      r
  }

  /** The element of a one-element set. */
  function Only(s: set<Specifier>): (x: Specifier)
    requires |s| == 1
    ensures s == {x}
  {
    var x :| x in s;
    assert |s - {x}| == 0;
    assert s == {x};
    x
  }

  /**
    `get_current_version`: the first requirement named `uv` must exist and
    must carry exactly one specifier, whose operator is `==`; the text after
    the operator must be a version, and that version is the pin.
  */
  function CurrentVersion(reqs: seq<Requirement>): (r: Result<Version, PinError>)
    ensures r == Failure(NoUvRequirement) <==> forall j :: 0 <= j < |reqs| ==> reqs[j].name != PACKAGE
    ensures forall i :: IsFirstNamed(reqs, PACKAGE, i) ==>
              (r.Success? <==> exists v :: ExactPin(reqs[i].specifiers, v)) &&
              (r.Success? ==> ExactPin(reqs[i].specifiers, r.value)) &&
              (r.Failure? && SingleExact(reqs[i].specifiers) ==> r.error == InvalidPin(reqs[i])) &&
              (r.Failure? && !SingleExact(reqs[i].specifiers) ==> r.error == NotExactPin(reqs[i]))
  {
    match FirstNamed(reqs, PACKAGE)
    case None => Failure(NoUvRequirement)
    case Some(req) =>
      FirstNamedUnique(reqs, PACKAGE);
      if |req.specifiers| == 1 && Only(req.specifiers).operator == EXACT then
        match Only(req.specifiers).version
        case Some(v) => Success(v)
        case None => Failure(InvalidPin(req))
      else
        Failure(NotExactPin(req))
  }

  lemma FirstNamedUnique(reqs: seq<Requirement>, name: string)
    ensures forall i, j :: IsFirstNamed(reqs, name, i) && IsFirstNamed(reqs, name, j) ==> i == j
  {
  }

  /** Requirements after the first `uv` one are never looked at. */
  lemma {:induction false} LaterRequirementsIgnored(pre: seq<Requirement>, req: Requirement, post: seq<Requirement>)
    requires forall j :: 0 <= j < |pre| ==> pre[j].name != PACKAGE
    requires req.name == PACKAGE
    ensures CurrentVersion(pre + [req] + post) == CurrentVersion([req])
  {
    var reqs := pre + [req] + post;
    assert IsFirstNamed(reqs, PACKAGE, |pre|);
    assert IsFirstNamed([req], PACKAGE, 0);
  }
}
