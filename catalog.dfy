/**
  The release catalog of the upstream package and the choice of what to
  mirror (mirror.py, `get_all_releases` and the top of `main`).
*/
module Catalog {
  import opened Wrappers
  import opened Versions

  /** One distribution file of a release; only its `yanked` flag matters here. */
  datatype Asset = Asset(yanked: bool)

  type Release = seq<Asset>

  /** Every published version with the assets the registry lists for it. */
  type Catalog = map<Version, Release>

  /** The registry's answer: an HTTP status and, on success, the catalog it carries. */
  datatype Response = Response(status: int, releases: Catalog)

  datatype FetchError = RegistryUnavailable

  /** `get_all_releases`: any status other than 200 is an error. */
  function GetAllReleases(response: Response): (r: Result<Catalog, FetchError>)
    ensures r.Success? <==> response.status == 200
    ensures r.Success? ==> r.value == response.releases
  {
    if response.status != 200 then Failure(RegistryUnavailable) else Success(response.releases)
  }

  /** `any([asset["yanked"] for asset in release])`. */
  function AnyYanked(release: Release): (r: bool)
    ensures r <==> exists i :: 0 <= i < |release| && release[i].yanked
  {
    if release == [] then false
    else release[0].yanked || AnyYanked(release[1..])
  }

  /** A version the registry still offers: in the catalog with no yanked asset. */
  predicate Valid(c: Catalog, v: Version)
  {
    v in c && !AnyYanked(c[v])
  }

  /** `all_non_yanked_versions`: the valid versions, ascending. */
  function AllNonYankedVersions(c: Catalog): (r: seq<Version>)
    ensures StrictlyAscending(r)
    ensures forall v :: v in r <==> Valid(c, v)
  {
    SortedOf(set v | v in c.Keys && !AnyYanked(c[v]))
  }

  /** The list comprehension `[v for v in vs if v > pin]`. */
  function Above(vs: seq<Version>, pin: Version): (r: seq<Version>)
    ensures forall v :: v in r <==> v in vs && Less(pin, v)
    ensures StrictlyAscending(vs) ==> StrictlyAscending(r)
    ensures |r| <= |vs|
  {
    if vs == [] then []
    else if Less(pin, vs[0]) then
      var rest := Above(vs[1..], pin);
      assert StrictlyAscending(vs) ==> forall v :: v in rest ==> Less(vs[0], v);
      [vs[0]] + rest
    else Above(vs[1..], pin)
  }

  /** `target_versions`. */
  function TargetVersions(c: Catalog, pin: Version): (r: seq<Version>)
    ensures StrictlyAscending(r)
    ensures forall v: Version :: v in r <==> Valid(c, v) && Less(pin, v)
    ensures pin !in r
  {
    LessIrreflexive(pin);
    Above(AllNonYankedVersions(c), pin)
  }

  /** True when some valid version is newer than the pin. */
  ghost predicate HasNewer(c: Catalog, pin: Version)
  {
    exists v: Version :: Valid(c, v) && Less(pin, v)
  }

  /**
    What a run does: the special branch, which re-publishes `last` (the
    newest valid version), or the forward loop over `targets`.
  */
  datatype Plan = Republish(last: Version) | Forward(targets: seq<Version>)

  /** `all_releases[current_version]` raised KeyError. */
  datatype SelectError = PinNotInCatalog

  /**
    The decision of mirror.py:24-29 and the loop bound at line 49, exactly as
    written: the special branch is taken when nothing newer exists and the
    pin is NOT yanked, and its target is then the pin itself.  A yanked pin
    with nothing newer gives an empty forward loop.
  */
  function Reconcile(c: Catalog, pin: Version): (r: Result<Plan, SelectError>)
    ensures r.Failure? <==> !HasNewer(c, pin) && pin !in c
    ensures r == Success(Republish(pin)) <==> !HasNewer(c, pin) && Valid(c, pin)
    ensures r.Success? && r.value.Republish? ==> r.value.last == pin
    ensures r.Success? && r.value.Forward? ==>
              r.value.targets == TargetVersions(c, pin) && (r.value.targets == [] <==> !HasNewer(c, pin))
  {
    var targets := TargetVersions(c, pin);
    assert HasNewer(c, pin) <==> targets != [] by {
      if HasNewer(c, pin) {
        var v: Version :| Valid(c, v) && Less(pin, v);
        assert v in targets;
      }
      if targets != [] {
        assert targets[0] in targets;
        assert Valid(c, targets[0]) && Less(pin, targets[0]);
      }
    }
    if targets == [] && pin !in c then Failure(PinNotInCatalog)
    else if targets == [] && !AnyYanked(c[pin]) then
      var all := AllNonYankedVersions(c);
      LastValidIsPin(c, pin);
      Success(Republish(all[|all| - 1]))
    else Success(Forward(targets))
  }

  /**
    Under the guard of line 26, `all_non_yanked_versions` is non-empty (the
    pin is in it) and its last element is the pin: the pin is valid and no
    valid version is above it.
  */
  lemma LastValidIsPin(c: Catalog, pin: Version)
    requires TargetVersions(c, pin) == [] && Valid(c, pin)
    ensures var all := AllNonYankedVersions(c); |all| > 0 && all[|all| - 1] == pin
  {
    var all := AllNonYankedVersions(c);
    assert pin in all;
    var k :| 0 <= k < |all| && all[k] == pin;
  }

  /** The version the special branch publishes is the newest valid version. */
  lemma RepublishIsNewestValid(c: Catalog, pin: Version)
    requires Reconcile(c, pin).Success? && Reconcile(c, pin).value.Republish?
    ensures var last := Reconcile(c, pin).value.last;
      Valid(c, last) && forall v: Version :: Valid(c, v) ==> !Less(last, v)
  {
  }

  /**
    Once the newest valid version is pinned, the next run takes the special
    branch for that same version.
  */
  lemma {:induction false} NewestPinRepublishes(c: Catalog, pin: Version)
    requires TargetVersions(c, pin) != []
    ensures var ts := TargetVersions(c, pin); var newest := ts[|ts| - 1];
      Reconcile(c, newest) == Success(Republish(newest))
  {
    var ts := TargetVersions(c, pin);
    var newest := ts[|ts| - 1];
    assert Valid(c, newest);
    if HasNewer(c, newest) {
      var v: Version :| Valid(c, v) && Less(newest, v);
      LessTransitive(pin, newest, v);
      assert v in ts;
      var k :| 0 <= k < |ts| && ts[k] == v;
      if k < |ts| - 1 {
        assert Less(v, newest);
        LessTransitive(v, newest, v);
      }
      LessIrreflexive(v);
    }
  }
}
