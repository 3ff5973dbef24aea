/**
  Release versions of the mirrored package.

  A version is its non-empty list of release segments (`0.4.30` is `[0, 4, 30]`),
  ordered lexicographically, a proper prefix being the smaller one.  Its text
  form, the `str(version)` the mirror writes into files, tags and messages, is
  the decimal segments joined by dots.
*/
module Versions {

  type Version = v: seq<nat> | |v| > 0 witness [0]

  /** Strict lexicographic order on release segments. */
  predicate Less(a: seq<nat>, b: seq<nat>)
    decreases |a|
  {
    if |a| == 0 then |b| > 0
    else if |b| == 0 then false
    else a[0] < b[0] || (a[0] == b[0] && Less(a[1..], b[1..]))
  }

  lemma {:induction false} LessIrreflexive(a: seq<nat>)
    ensures !Less(a, a)
    decreases |a|
  {
    if |a| > 0 {
      LessIrreflexive(a[1..]);
    }
  }

  lemma {:induction false} LessTransitive(a: seq<nat>, b: seq<nat>, c: seq<nat>)
    requires Less(a, b) && Less(b, c)
    ensures Less(a, c)
    decreases |a|
  {
    if |a| > 0 && a[0] == b[0] && b[0] == c[0] {
      LessTransitive(a[1..], b[1..], c[1..]);
    }
  }

  lemma {:induction false} LessTotal(a: seq<nat>, b: seq<nat>)
    ensures a == b || Less(a, b) || Less(b, a)
    decreases |a|
  {
    if |a| > 0 && |b| > 0 && a[0] == b[0] {
      LessTotal(a[1..], b[1..]);
      if a[1..] == b[1..] {
        assert a == [a[0]] + a[1..] && b == [b[0]] + b[1..];
      }
    }
  }

  /** Each element of `s` is smaller than every later one. */
  predicate StrictlyAscending(s: seq<Version>)
  {
    forall i, j :: 0 <= i < j < |s| ==> Less(s[i], s[j])
  }

  predicate IsMaximum(m: Version, vs: set<Version>)
  {
    m in vs && forall v :: v in vs ==> !Less(m, v)
  }

  lemma {:induction false} MaximumExists(vs: set<Version>)
    requires vs != {}
    ensures exists m :: IsMaximum(m, vs)
    decreases |vs|
  {
    var x :| x in vs;
    if vs == {x} {
      LessIrreflexive(x);
      assert IsMaximum(x, vs);
    } else {
      MaximumExists(vs - {x});
      var m: Version :| IsMaximum(m, vs - {x});
      if Less(m, x) {
        forall v | v in vs
          ensures !Less(x, v)
        {
          if v == x {
            LessIrreflexive(x);
          } else if Less(x, v) {
            assert v in vs - {x};
            LessTransitive(m, x, v);
          }
        }
        assert IsMaximum(x, vs);
      } else {
        assert IsMaximum(m, vs);
      }
    }
  }

  lemma MaximumUnique(vs: set<Version>)
    ensures forall m, n :: IsMaximum(m, vs) && IsMaximum(n, vs) ==> m == n
  {
    forall m: Version, n: Version | IsMaximum(m, vs) && IsMaximum(n, vs)
      ensures m == n
    {
      LessTotal(m, n);
    }
  }

  /**
    The elements of a finite set of versions in ascending order, which is
    what `sorted` computes on a list of distinct versions.
  */
  function SortedOf(vs: set<Version>): (r: seq<Version>)
    ensures StrictlyAscending(r)
    ensures forall v :: v in r <==> v in vs
    ensures |r| == |vs|
    decreases |vs|
  {
    if vs == {} then []
    else
      MaximumExists(vs);
      MaximumUnique(vs);
      var m: Version :| IsMaximum(m, vs);
      var rest := SortedOf(vs - {m});
      assert forall i :: 0 <= i < |rest| ==> Less(rest[i], m) by {
        forall i | 0 <= i < |rest|
          ensures Less(rest[i], m)
        {
          assert rest[i] in vs - {m};
          LessTotal(rest[i], m);
        }
      }
      rest + [m]
  }

  predicate IsDigit(c: char)
  {
    '0' <= c <= '9'
  }

  /** The decimal digits of `n`, most significant first, as `str(n)` gives them. */
  function NatString(n: nat): (s: string)
    ensures |s| > 0
    ensures forall i :: 0 <= i < |s| ==> IsDigit(s[i])
    ensures (s[0] == '0') <==> n == 0
  {
    if n < 10 then [('0' as int + n) as char]
    else NatString(n / 10) + [('0' as int + n % 10) as char]
  }

  function DigitValue(c: char): nat
    requires IsDigit(c)
  {
    c as int - '0' as int
  }

  /** The number a string of decimal digits denotes. */
  function ParseNat(s: string): nat
    requires forall i :: 0 <= i < |s| ==> IsDigit(s[i])
  {
    if s == [] then 0 else 10 * ParseNat(s[..|s| - 1]) + DigitValue(s[|s| - 1])
  }

  lemma {:induction false} ParseNatString(n: nat)
    ensures ParseNat(NatString(n)) == n
  {
    if n >= 10 {
      var s := NatString(n);
      assert s[..|s| - 1] == NatString(n / 10);
      ParseNatString(n / 10);
    }
  }

  /** The text form of a version: its segments in decimal, separated by dots. */
  function VersionString(v: Version): (s: string)
    ensures |s| > 0 && IsDigit(s[0]) && IsDigit(s[|s| - 1])
    ensures forall i :: 0 <= i < |s| ==> IsDigit(s[i]) || s[i] == '.'
    decreases |v|
  {
    if |v| == 1 then NatString(v[0])
    else NatString(v[0]) + "." + VersionString(v[1..])
  }

  lemma {:induction false} NatStringInjective(m: nat, n: nat)
    requires NatString(m) == NatString(n)
    ensures m == n
  {
    ParseNatString(m);
    ParseNatString(n);
  }

  lemma {:induction false} DigitsNotLonger(a: string, t: string, b: string, u: string)
    requires forall i :: 0 <= i < |a| ==> IsDigit(a[i])
    requires u == [] || u[0] == '.'
    requires a + t == b + u
    ensures |a| <= |b|
  {
    assert |b| < |a| ==> IsDigit((a + t)[|b|]);
  }

  /** Two digit strings each followed by nothing or by a dot are equal when the texts are. */
  lemma {:induction false} DigitsBeforeDot(a: string, t: string, b: string, u: string)
    requires forall i :: 0 <= i < |a| ==> IsDigit(a[i])
    requires forall i :: 0 <= i < |b| ==> IsDigit(b[i])
    requires t == [] || t[0] == '.'
    requires u == [] || u[0] == '.'
    requires a + t == b + u
    ensures a == b
  {
    DigitsNotLonger(a, t, b, u);
    DigitsNotLonger(b, u, a, t);
    assert a == (a + t)[..|a|];
    assert b == (b + u)[..|b|];
  }

  /** The text of the first segment, then the rest of the text. */
  function Tail(v: Version): string
  {
    if |v| > 1 then "." + VersionString(v[1..]) else ""
  }

  lemma VersionStringSplit(v: Version)
    ensures VersionString(v) == NatString(v[0]) + Tail(v)
  {
  }

  lemma DropPrefix(a: string, t: string, u: string)
    requires a + t == a + u
    ensures t == u
  {
    assert t == (a + t)[|a|..];
    assert u == (a + u)[|a|..];
  }

  /** The text form determines the version: no two versions print alike. */
  lemma {:induction false} VersionStringInjective(v: Version, w: Version)
    requires VersionString(v) == VersionString(w)
    ensures v == w
    decreases |v|
  {
    var a, b := NatString(v[0]), NatString(w[0]);
    var t, u := Tail(v), Tail(w);
    VersionStringSplit(v);
    VersionStringSplit(w);
    DigitsBeforeDot(a, t, b, u);
    NatStringInjective(v[0], w[0]);
    DropPrefix(a, t, u);
    if |v| > 1 {
      assert |w| > 1;
      assert VersionString(v[1..]) == t[1..] == u[1..] == VersionString(w[1..]);
      VersionStringInjective(v[1..], w[1..]);
      assert v == [v[0]] + v[1..] && w == [w[0]] + w[1..];
    } else {
      assert |w| == 1;
      assert v == [v[0]] && w == [w[0]];
    }
  }
}
