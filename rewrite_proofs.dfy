/**
  Properties of the rewrites of `process_version`: what the replacement
  texts match, and idempotence (a file already rewritten for a version is
  left unchanged by rewriting it again for the same version).
*/
module RewriteProofs {
  import opened Wrappers
  import opened Versions
  import opened Rewrite

  // ---------------------------------------------------------------------
  // Prefixes of characters from a class
  // ---------------------------------------------------------------------

  /** The longest prefix of `s` whose characters all satisfy `a`. */
  function TakeWhile(s: string, a: char -> bool): (r: string)
    ensures |r| <= |s| && r == s[..|r|]
    ensures forall i :: 0 <= i < |r| ==> a(s[i])
    ensures |r| < |s| ==> !a(s[|r|])
  {
    if |s| > 0 && a(s[0]) then [s[0]] + TakeWhile(s[1..], a) else []
  }

  lemma {:induction false} TakeWhileUnique(s: string, a: char -> bool, r: string)
    requires |r| <= |s| && r == s[..|r|]
    requires forall i :: 0 <= i < |r| ==> a(s[i])
    requires |r| < |s| ==> !a(s[|r|])
    ensures TakeWhile(s, a) == r
    decreases |s|
  {
    if |r| > 0 {
      TakeWhileUnique(s[1..], a, r[1..]);
      assert r == [s[0]] + r[1..];
    }
  }

  lemma TakeWhileDrop(s: string, a: char -> bool, k: nat)
    requires k <= |s| && forall i :: 0 <= i < k ==> a(s[i])
    ensures k <= |TakeWhile(s, a)|
    ensures TakeWhile(s, a)[k..] == TakeWhile(s[k..], a)
  {
    var t := TakeWhile(s, a);
    TakeWhileUnique(s[k..], a, t[k..]);
  }

  /** Every character the atoms can consume satisfies `a`. */
  ghost predicate AtomsWithin(atoms: seq<Atom>, a: char -> bool)
  {
    forall i :: 0 <= i < |atoms| ==>
      match atoms[i]
      case Lit(c) => a(c)
      case Digits => forall c :: IsDigit(c) ==> a(c)
  }

  lemma {:induction false} DigitRunIs(s: string, k: nat)
    requires k <= |s| && forall i :: 0 <= i < k ==> IsDigit(s[i])
    requires k < |s| ==> !IsDigit(s[k])
    ensures DigitRun(s) == k
    decreases k
  {
    if k > 0 {
      DigitRunIs(s[1..], k - 1);
    }
  }

  /**
    A match never looks past the first character the atoms cannot consume,
    so cutting the text there does not change it.
  */
  lemma {:induction false} MatchTakeWhile(atoms: seq<Atom>, s: string, a: char -> bool)
    requires AtomsWithin(atoms, a)
    ensures MatchAtoms(atoms, s) == MatchAtoms(atoms, TakeWhile(s, a))
    decreases |atoms|
  {
    var t := TakeWhile(s, a);
    if atoms != [] {
      assert AtomsWithin(atoms[1..], a) by {
        forall i | 0 <= i < |atoms[1..]|
          ensures match atoms[1..][i]
                  case Lit(c) => a(c)
                  case Digits => forall c :: IsDigit(c) ==> a(c)
        {
          assert atoms[1..][i] == atoms[i + 1];
        }
      }
      match atoms[0]
      case Lit(c) =>
        if |s| > 0 && s[0] == c {
          assert a(s[0]);
          TakeWhileDrop(s, a, 1);
          MatchTakeWhile(atoms[1..], s[1..], a);
        }
      case Digits =>
        var k := DigitRun(s);
        assert forall c :: IsDigit(c) ==> a(c);
        TakeWhileDrop(s, a, k);
        DigitRunIs(t, k);
        if k > 0 {
          MatchTakeWhile(atoms[1..], s[k..], a);
        }
    }
  }

  /** A match ending in a digit run ends where the digits end. */
  lemma {:induction false} MatchEndsRun(atoms: seq<Atom>, s: string)
    requires |atoms| > 0 && atoms[|atoms| - 1] == Digits
    requires MatchAtoms(atoms, s).Some?
    ensures var n := MatchAtoms(atoms, s).value; n == |s| || !IsDigit(s[n])
    decreases |atoms|
  {
    match atoms[0]
    case Lit(c) =>
      MatchEndsRun(atoms[1..], s[1..]);
    case Digits =>
      var k := DigitRun(s);
      if |atoms| > 1 {
        MatchEndsRun(atoms[1..], s[k..]);
      }
  }

  lemma {:induction false} MatchLits(l: string, rest: seq<Atom>, s: string)
    ensures MatchAtoms(Lits(l) + rest, s) ==
            if |s| >= |l| && s[..|l|] == l then Shift(MatchAtoms(rest, s[|l|..]), |l|) else None
    decreases |l|
  {
    if l == [] {
      assert Lits(l) + rest == rest;
      assert s[|l|..] == s;
    } else {
      var atoms := Lits(l) + rest;
      assert atoms[0] == Lit(l[0]);
      assert atoms[1..] == Lits(l[1..]) + rest;
      assert MatchAtoms(atoms, s) ==
        if |s| > 0 && s[0] == l[0] then Shift(MatchAtoms(Lits(l[1..]) + rest, s[1..]), 1) else None;
      if |s| > 0 && s[0] == l[0] {
        MatchLits(l[1..], rest, s[1..]);
        assert l == [l[0]] + l[1..];
        if |s| >= |l| {
          assert s[..|l|] == [s[0]] + s[1..][..|l| - 1];
          assert s[1..][|l| - 1..] == s[|l|..];
          assert s[..|l|] == l <==> s[1..][..|l| - 1] == l[1..];
        }
      } else if |s| >= |l| {
        assert s[..|l|][0] == s[0];
      }
    }
  }

  lemma MatchDigitsThen(ds: string, rest: seq<Atom>, s: string)
    requires |ds| > 0 && forall i :: 0 <= i < |ds| ==> IsDigit(ds[i])
    requires s == [] || !IsDigit(s[0])
    ensures MatchAtoms([Digits] + rest, ds + s) == Shift(MatchAtoms(rest, s), |ds|)
  {
    DigitRunIs(ds + s, |ds|);
    assert (ds + s)[|ds|..] == s;
    assert ([Digits] + rest)[1..] == rest;
  }

  /** One step of a version's text: the first segment, a dot, and the text of the rest. */
  lemma VersionStringCons(v: Version)
    requires |v| > 1
    ensures VersionString(v) == NatString(v[0]) + ("." + VersionString(v[1..]))
  {
    AppendAssocStr(NatString(v[0]), ".", VersionString(v[1..]));
  }

  /** A three-segment version's text followed by `s`, as three runs and two dots. */
  lemma VersionTextThen(v: Version, s: string)
    requires |v| == 3
    ensures VersionString(v) + s == NatString(v[0]) + ("." + (NatString(v[1]) + ("." + (NatString(v[2]) + s))))
  {
    var w := v[1..];
    var u := w[1..];
    assert w[0] == v[1] && u == [v[2]];
    VersionStringCons(v);
    VersionStringCons(w);
    var a, b, c := NatString(v[0]), NatString(v[1]), NatString(v[2]);
    assert VersionString(v) == a + ("." + (b + ("." + c)));
    NestThen(a, b, c, s);
  }

  lemma NestThen(a: string, b: string, c: string, s: string)
    ensures (a + ("." + (b + ("." + c)))) + s == a + ("." + (b + ("." + (c + s))))
  {
    AppendAssocStr(a, "." + (b + ("." + c)), s);
    AppendAssocStr(".", b + ("." + c), s);
    AppendAssocStr(b, "." + c, s);
    AppendAssocStr(".", c, s);
  }

  lemma MatchLitThen(ch: char, rest: seq<Atom>, s: string)
    ensures MatchAtoms([Lit(ch)] + rest, [ch] + s) == Shift(MatchAtoms(rest, s), 1)
  {
    assert ([Lit(ch)] + rest)[1..] == rest;
    assert ([ch] + s)[1..] == s;
  }

  /** `\.\d+` matches a dot followed by a maximal run of digits. */
  lemma {:induction false} MatchDotDigits(ds: string, rest: seq<Atom>, s: string)
    requires |ds| > 0 && forall i :: 0 <= i < |ds| ==> IsDigit(ds[i])
    requires s == [] || !IsDigit(s[0])
    ensures MatchAtoms([Lit('.'), Digits] + rest, "." + (ds + s)) == Shift(MatchAtoms(rest, s), |ds| + 1)
  {
    MatchDigitsThen(ds, rest, s);
    MatchLitThen('.', [Digits] + rest, ds + s);
    assert [Lit('.'), Digits] + rest == [Lit('.')] + ([Digits] + rest);
  }

  /** `\d+\.\d+\.\d+` matches three dot-separated digit runs exactly. */
  lemma {:induction false} MatchTripleText(a: string, b: string, c: string, rest: seq<Atom>, s: string)
    requires |a| > 0 && forall i :: 0 <= i < |a| ==> IsDigit(a[i])
    requires |b| > 0 && forall i :: 0 <= i < |b| ==> IsDigit(b[i])
    requires |c| > 0 && forall i :: 0 <= i < |c| ==> IsDigit(c[i])
    requires s == [] || !IsDigit(s[0])
    ensures MatchAtoms([Digits] + ([Lit('.'), Digits] + ([Lit('.'), Digits] + rest)), a + ("." + (b + ("." + (c + s))))) ==
            Shift(MatchAtoms(rest, s), |a| + |b| + |c| + 2)
  {
    var r1 := [Lit('.'), Digits] + ([Lit('.'), Digits] + rest);
    var s1 := "." + (b + ("." + (c + s)));
    assert s1[0] == '.';
    MatchTwoDotRuns(b, c, rest, s);
    MatchDigitsThen(a, r1, s1);
    ShiftTwo(MatchAtoms(rest, s), |b| + |c| + 2, |a|);
  }

  /** `\.\d+\.\d+` matches two dot-prefixed digit runs exactly. */
  lemma {:induction false} MatchTwoDotRuns(b: string, c: string, rest: seq<Atom>, s: string)
    requires |b| > 0 && forall i :: 0 <= i < |b| ==> IsDigit(b[i])
    requires |c| > 0 && forall i :: 0 <= i < |c| ==> IsDigit(c[i])
    requires s == [] || !IsDigit(s[0])
    ensures MatchAtoms([Lit('.'), Digits] + ([Lit('.'), Digits] + rest), "." + (b + ("." + (c + s)))) ==
            Shift(MatchAtoms(rest, s), |b| + |c| + 2)
  {
    var r2 := [Lit('.'), Digits] + rest;
    var s2 := "." + (c + s);
    assert s2[0] == '.';
    MatchDotDigits(c, rest, s);
    MatchDotDigits(b, r2, s2);
    ShiftTwo(MatchAtoms(rest, s), |c| + 1, |b| + 1);
  }

  lemma TripleSplit(rest: seq<Atom>)
    ensures TRIPLE + rest == [Digits] + ([Lit('.'), Digits] + ([Lit('.'), Digits] + rest))
  {
  }

  /** A three-segment version's text is matched by `\d+\.\d+\.\d+` exactly. */
  lemma {:induction false} MatchVersion(v: Version, rest: seq<Atom>, s: string)
    requires |v| == 3
    requires s == [] || !IsDigit(s[0])
    ensures MatchAtoms(TRIPLE + rest, VersionString(v) + s) == Shift(MatchAtoms(rest, s), |VersionString(v)|)
  {
    var a, b, c := NatString(v[0]), NatString(v[1]), NatString(v[2]);
    VersionTextThen(v, s);
    MatchTripleText(a, b, c, rest, s);
    TripleSplit(rest);
  }

  // ---------------------------------------------------------------------
  // General facts about Sub
  // ---------------------------------------------------------------------

  /** Rewriting keeps the first character, since every replacement starts with the pattern's lead. */
  lemma SubFirst(p: Pattern, u: string, rep: string)
    requires |rep| > 0 && rep[0] == Lead(p)
    ensures |Sub(p, u, rep)| > 0 <==> |u| > 0
    ensures |u| > 0 ==> Sub(p, u, rep)[0] == u[0]
  {
  }

  /** Where the pattern does not match, `Sub` copies one character and goes on. */
  lemma SubCopies(p: Pattern, s: string, rep: string)
    requires s != [] && s[0] != Lead(p)
    ensures Sub(p, s, rep) == [s[0]] + Sub(p, s[1..], rep)
  {
    assert MatchAt(p, s).None?;
  }

  /** Text free of the pattern's lead character is copied unchanged. */
  lemma {:induction false} SubNoLead(p: Pattern, a: string, w: string, rep: string)
    requires forall i :: 0 <= i < |a| ==> a[i] != Lead(p)
    ensures Sub(p, a + w, rep) == a + Sub(p, w, rep)
    decreases |a|
  {
    if a == [] {
      assert a + w == w;
    } else {
      var t := a + w;
      assert t[0] == a[0] && t[1..] == a[1..] + w;
      SubCopies(p, t, rep);
      SubNoLead(p, a[1..], w, rep);
      assert a == [a[0]] + a[1..];
      AppendAssocStr([a[0]], a[1..], Sub(p, w, rep));
    }
  }

  /** Text at none of whose positions the pattern matches is copied unchanged. */
  lemma {:induction false} SubNoMatchPrefix(p: Pattern, a: string, w: string, rep: string)
    requires forall i :: 0 <= i < |a| ==> MatchAt(p, (a + w)[i..]).None?
    ensures Sub(p, a + w, rep) == a + Sub(p, w, rep)
    decreases |a|
  {
    if a == [] {
      assert a + w == w;
    } else {
      var t, b := a + w, a[1..];
      TailSlices(a, w);
      assert MatchAt(p, t[0..]).None?;
      SubNoMatchPrefix(p, b, w, rep);
      SubUnmatched(p, t, rep);
      assert a == [a[0]] + b;
      AppendAssocStr([a[0]], b, Sub(p, w, rep));
    }
  }

  /** The suffixes of `a + w` after its first character are those of `a[1..] + w`. */
  lemma TailSlices(a: string, w: string)
    requires a != []
    ensures (a + w)[0..] == a + w && (a + w)[0] == a[0] && (a + w)[1..] == a[1..] + w
    ensures forall i :: 0 <= i < |a[1..]| ==> (a[1..] + w)[i..] == (a + w)[i + 1..]
  {
  }

  /** Where the pattern does not match, `Sub` copies one character and goes on. */
  lemma SubUnmatched(p: Pattern, s: string, rep: string)
    requires s != [] && MatchAt(p, s).None?
    ensures Sub(p, s, rep) == [s[0]] + Sub(p, s[1..], rep)
  {
  }

  lemma DropConcat(a: string, b: string)
    ensures (a + b)[|a|..] == b
  {
  }

  lemma AppendAssocStr(a: string, b: string, c: string)
    ensures a + (b + c) == (a + b) + c
  {
  }

  /**
    Rewriting does not change the prefix of characters from a class that
    excludes the lead character.
  */
  lemma {:induction false} SubTakeWhile(p: Pattern, u: string, rep: string, a: char -> bool)
    requires |rep| > 0 && rep[0] == Lead(p) && !a(Lead(p))
    ensures TakeWhile(Sub(p, u, rep), a) == TakeWhile(u, a)
    decreases |u|
  {
    if u != [] {
      match MatchAt(p, u)
      case Some(n) =>
      case None =>
        if a(u[0]) {
          SubTakeWhile(p, u[1..], rep, a);
          assert ([u[0]] + Sub(p, u[1..], rep))[1..] == Sub(p, u[1..], rep);
        }
    }
  }

  // ---------------------------------------------------------------------
  // Rewriting elsewhere does not disturb a match
  // ---------------------------------------------------------------------

  /** The characters other than `x`. */
  function Avoids(x: char): char -> bool
  {
    c => c != x
  }

  lemma LitsAvoid(l: string, x: char)
    requires forall i :: 0 <= i < |l| ==> l[i] != x
    ensures AtomsWithin(Lits(l), Avoids(x))
  {
  }

  lemma TripleAvoids(x: char)
    requires !IsDigit(x) && x != '.'
    ensures AtomsWithin(TRIPLE, Avoids(x))
  {
  }

  lemma AtomsWithinConcat(s: seq<Atom>, t: seq<Atom>, a: char -> bool)
    requires AtomsWithin(s, a) && AtomsWithin(t, a)
    ensures AtomsWithin(s + t, a)
  {
    forall i | 0 <= i < |s + t|
      ensures match (s + t)[i]
              case Lit(c) => a(c)
              case Digits => forall c :: IsDigit(c) ==> a(c)
    {
      if i < |s| {
        assert (s + t)[i] == s[i];
      } else {
        assert (s + t)[i] == t[i - |s|];
      }
    }
  }

  /**
    Rewriting with `p` does not change how atoms that never consume `p`'s
    lead character match at the start of the text.
  */
  lemma SubKeepsAtoms(p: Pattern, atoms: seq<Atom>, x: string, rep: string)
    requires |rep| > 0 && rep[0] == Lead(p)
    requires AtomsWithin(atoms, Avoids(Lead(p)))
    ensures MatchAtoms(atoms, Sub(p, x, rep)) == MatchAtoms(atoms, x)
  {
    MatchTakeWhile(atoms, Sub(p, x, rep), Avoids(Lead(p)));
    MatchTakeWhile(atoms, x, Avoids(Lead(p)));
    SubTakeWhile(p, x, rep, Avoids(Lead(p)));
  }

  /** The text a match consumes is made of characters the atoms can consume. */
  lemma MatchedWithin(atoms: seq<Atom>, s: string, a: char -> bool)
    requires AtomsWithin(atoms, a) && MatchAtoms(atoms, s).Some?
    ensures forall i :: 0 <= i < MatchAtoms(atoms, s).value ==> a(s[i])
  {
    MatchTakeWhile(atoms, s, a);
  }

  /** A digit run cannot start at a non-digit. */
  lemma DigitsFirst(rest: seq<Atom>, s: string)
    requires s == [] || !IsDigit(s[0])
    ensures MatchAtoms([Digits] + rest, s) == None
  {
    assert ([Digits] + rest)[0] == Digits;
  }

  // ---------------------------------------------------------------------
  // The rev and badge rewrites commute
  // ---------------------------------------------------------------------

  /** The atoms of the two patterns built from `\d+`. */
  function AtomsOf(p: Pattern): seq<Atom>
    requires p != PinPattern
  {
    if p == RevPattern then REV_ATOMS else BADGE_ATOMS
  }

  lemma MatchAtIsAtoms(p: Pattern, s: string)
    requires p != PinPattern
    ensures MatchAt(p, s) == MatchAtoms(AtomsOf(p), s)
  {
  }

  /**
    Two patterns, with their replacements, that never consume or produce
    the character the other one starts with.
  */
  ghost predicate Apart(p: Pattern, q: Pattern, rp: string, rq: string)
  {
    p != PinPattern && q != PinPattern && Lead(p) != Lead(q) &&
    |rp| > 0 && rp[0] == Lead(p) && |rq| > 0 && rq[0] == Lead(q) &&
    (forall i :: 0 <= i < |rp| ==> rp[i] != Lead(q)) &&
    (forall i :: 0 <= i < |rq| ==> rq[i] != Lead(p)) &&
    AtomsWithin(AtomsOf(p), Avoids(Lead(q))) && AtomsWithin(AtomsOf(q), Avoids(Lead(p)))
  }

  /** One step of `SubCommute`, at a text starting with `p`'s lead. */
  lemma {:induction false} CommuteStep(p: Pattern, q: Pattern, rp: string, rq: string, x: string)
    requires Apart(p, q, rp, rq)
    requires |x| > 0 && x[0] == Lead(p)
    requires forall k :: 1 <= k <= |x| ==>
      Sub(p, Sub(q, x[k..], rq), rp) == Sub(q, Sub(p, x[k..], rp), rq)
    ensures Sub(p, Sub(q, x, rq), rp) == Sub(q, Sub(p, x, rp), rq)
  {
    var qx := Sub(q, x, rq);
    MatchAtIsAtoms(p, x);
    MatchAtIsAtoms(p, qx);
    SubKeepsAtoms(q, AtomsOf(p), x, rq);
    assert MatchAt(p, qx) == MatchAt(p, x);
    match MatchAt(p, x)
    case Some(n) =>
      CommuteMatched(p, q, rp, rq, x, n);
    case None =>
      CommuteUnmatched(p, q, rp, rq, x);
  }

  /** `CommuteStep` where `p` matches `x`: both orders replace the same match. */
  lemma CommuteMatched(p: Pattern, q: Pattern, rp: string, rq: string, x: string, n: nat)
    requires p != PinPattern && AtomsWithin(AtomsOf(p), Avoids(Lead(q)))
    requires forall i :: 0 <= i < |rp| ==> rp[i] != Lead(q)
    requires MatchAt(p, x) == Some(n) && MatchAt(p, Sub(q, x, rq)) == Some(n)
    requires Sub(p, Sub(q, x[n..], rq), rp) == Sub(q, Sub(p, x[n..], rp), rq)
    ensures Sub(p, Sub(q, x, rq), rp) == Sub(q, Sub(p, x, rp), rq)
  {
    var qx := Sub(q, x, rq);
    var m, w := x[..n], x[n..];
    MatchedPrefixAvoids(p, q, x, n);
    assert x == m + w;
    SubNoLead(q, m, w, rq);
    assert qx == m + Sub(q, w, rq);
    assert qx[n..] == Sub(q, w, rq);
    SubMatched(p, qx, rp, n);
    SubMatched(p, x, rp, n);
    SubNoLead(q, rp, Sub(p, w, rp), rq);
  }

  /** The text a match of `p` consumes holds no lead character of `q`. */
  lemma MatchedPrefixAvoids(p: Pattern, q: Pattern, x: string, n: nat)
    requires p != PinPattern && AtomsWithin(AtomsOf(p), Avoids(Lead(q)))
    requires MatchAt(p, x) == Some(n)
    ensures forall i :: 0 <= i < |x[..n]| ==> x[..n][i] != Lead(q)
  {
    MatchAtIsAtoms(p, x);
    MatchedWithin(AtomsOf(p), x, Avoids(Lead(q)));
    forall i | 0 <= i < |x[..n]| ensures x[..n][i] != Lead(q) {
      assert Avoids(Lead(q))(x[i]);
    }
  }

  /** Where `p` matches, `Sub` writes the replacement and goes on after the match. */
  lemma SubMatched(p: Pattern, s: string, rep: string, n: nat)
    requires MatchAt(p, s) == Some(n)
    ensures Sub(p, s, rep) == rep + Sub(p, s[n..], rep)
  {
  }

  /** `CommuteStep` where `p` does not match `x`: both orders copy its first character. */
  lemma CommuteUnmatched(p: Pattern, q: Pattern, rp: string, rq: string, x: string)
    requires Apart(p, q, rp, rq)
    requires |x| > 0 && x[0] == Lead(p)
    requires MatchAt(p, x).None? && MatchAt(p, Sub(q, x, rq)).None?
    requires Sub(p, Sub(q, x[1..], rq), rp) == Sub(q, Sub(p, x[1..], rp), rq)
    ensures Sub(p, Sub(q, x, rq), rp) == Sub(q, Sub(p, x, rp), rq)
  {
    var qx, px := Sub(q, x, rq), Sub(p, x, rp);
    SubCopies(q, x, rq);
    assert qx[0] == x[0] && qx[1..] == Sub(q, x[1..], rq);
    assert Sub(p, qx, rp) == [x[0]] + Sub(p, qx[1..], rp);
    assert px == [x[0]] + Sub(p, x[1..], rp);
    assert px[0] == x[0] && px[1..] == Sub(p, x[1..], rp);
    SubCopies(q, px, rq);
  }

  /** Rewriting with two patterns that stay apart gives the same text in either order. */
  lemma {:induction false} SubCommute(p: Pattern, q: Pattern, rp: string, rq: string, x: string)
    requires Apart(p, q, rp, rq)
    ensures Sub(p, Sub(q, x, rq), rp) == Sub(q, Sub(p, x, rp), rq)
    decreases |x|
  {
    if x != [] {
      if x[0] == Lead(p) || x[0] == Lead(q) {
        forall k | 1 <= k <= |x|
          ensures Sub(p, Sub(q, x[k..], rq), rp) == Sub(q, Sub(p, x[k..], rp), rq)
        {
          SubCommute(p, q, rp, rq, x[k..]);
        }
        if x[0] == Lead(p) {
          CommuteStep(p, q, rp, rq, x);
        } else {
          CommuteStep(q, p, rq, rp, x);
        }
      } else {
        SubCommute(p, q, rp, rq, x[1..]);
        var qx, px := Sub(q, x, rq), Sub(p, x, rp);
        SubCopies(q, x, rq);
        SubCopies(p, x, rp);
        assert qx[0] == x[0] && qx[1..] == Sub(q, x[1..], rq);
        assert px[0] == x[0] && px[1..] == Sub(p, x[1..], rp);
        SubCopies(p, qx, rp);
        SubCopies(q, px, rq);
      }
    }
  }

  /** The README rewrites for one version stay apart. */
  lemma ReadmeApart(v: Version)
    ensures Apart(RevPattern, BadgePattern, RevReplacement(v), BadgeReplacement(v))
  {
    LitsAvoid("rev: ", '/');
    TripleAvoids('/');
    AtomsWithinConcat(Lits("rev: "), TRIPLE, Avoids('/'));
    LitsAvoid("/uv/", 'r');
    TripleAvoids('r');
    LitsAvoid(".svg", 'r');
    AtomsWithinConcat(TRIPLE, Lits(".svg"), Avoids('r'));
    AtomsWithinConcat(Lits("/uv/"), TRIPLE + Lits(".svg"), Avoids('r'));
  }

  // ---------------------------------------------------------------------
  // The rev rewrite
  // ---------------------------------------------------------------------

  /** A three-segment `rev:` line is matched by the rev pattern, exactly. */
  lemma {:induction false} RevReplacementMatches(v: Version, z: string)
    requires |v| == 3
    requires z == [] || !IsDigit(z[0])
    ensures MatchAt(RevPattern, RevReplacement(v) + z) == Some(|RevReplacement(v)|)
  {
    var a, b, c := NatString(v[0]), NatString(v[1]), NatString(v[2]);
    var l := "rev: ";
    AppendAssocStr(l, VersionString(v), z);
    VersionTextThen(v, z);
    RevLineMatches(a, b, c, z);
  }

  lemma RevSplit()
    ensures REV_ATOMS == [Lit('r')] + (Lits("ev: ") + TRIPLE)
    ensures AtomsWithin(Lits("ev: ") + TRIPLE, Avoids('r'))
    ensures REV_ATOMS[|REV_ATOMS| - 1] == Digits
  {
    assert Lits("rev: ") == [Lit('r')] + Lits("ev: ");
    LitsAvoid("ev: ", 'r');
    TripleAvoids('r');
    AtomsWithinConcat(Lits("ev: "), TRIPLE, Avoids('r'));
  }

  /** The rev rewrite for a three-segment version is idempotent. */
  lemma {:induction false} RevIdempotent(u: string, v: Version)
    requires |v| == 3
    ensures var y := Sub(RevPattern, u, RevReplacement(v)); Sub(RevPattern, y, RevReplacement(v)) == y
    decreases |u|
  {
    var r := RevReplacement(v);
    var y := Sub(RevPattern, u, r);
    if u != [] {
      match MatchAt(RevPattern, u)
      case Some(n) =>
        var z := Sub(RevPattern, u[n..], r);
        assert y == r + z;
        RevIdempotent(u[n..], v);
        RevSplit();
        MatchEndsRun(REV_ATOMS, u);
        SubFirst(RevPattern, u[n..], r);
        RevReplacementMatches(v, z);
        assert (r + z)[|r|..] == z;
      case None =>
        var z := Sub(RevPattern, u[1..], r);
        assert y == [u[0]] + z;
        RevIdempotent(u[1..], v);
        if u[0] == 'r' {
          RevSplit();
          assert u == [u[0]] + u[1..];
          MatchLitThen('r', Lits("ev: ") + TRIPLE, u[1..]);
          MatchLitThen('r', Lits("ev: ") + TRIPLE, z);
          SubKeepsAtoms(RevPattern, Lits("ev: ") + TRIPLE, u[1..], r);
        }
        assert MatchAt(RevPattern, y).None?;
        assert y[1..] == z;
    }
  }

  // ---------------------------------------------------------------------
  // The badge rewrite
  // ---------------------------------------------------------------------

  /** The badge of a three-segment version is matched by the badge pattern, exactly. */
  lemma {:induction false} BadgeReplacementMatches(v: Version, z: string)
    requires |v| == 3
    ensures MatchAt(BadgePattern, BadgeReplacement(v) + z) == Some(|BadgeReplacement(v)|)
  {
    var a, b, c := NatString(v[0]), NatString(v[1]), NatString(v[2]);
    var l, m := "/uv/", ".svg";
    AppendAssocStr(l + VersionString(v), m, z);
    AppendAssocStr(l, VersionString(v), m + z);
    VersionTextThen(v, m + z);
    var t := BadgeReplacement(v) + z;
    assert t == l + (a + ("." + (b + ("." + (c + (m + z))))));
    MatchLitsTripleLits(l, a, b, c, m, z);
    assert |BadgeReplacement(v)| == |l| + |a| + |b| + |c| + 2 + |m|;
    assert MatchAt(BadgePattern, t) == MatchAtoms(Lits(l) + (TRIPLE + Lits(m)), t);
  }

  lemma BadgeSplit()
    ensures BADGE_ATOMS == [Lit('/')] + (Lits("uv") + ([Lit('/')] + (TRIPLE + Lits(".svg"))))
    ensures AtomsWithin(TRIPLE + Lits(".svg"), Avoids('/'))
    ensures AtomsWithin(Lits("uv"), Avoids('/'))
  {
    assert Lits("/uv/") == [Lit('/')] + Lits("uv") + [Lit('/')];
    LitsAvoid("uv", '/');
    LitsAvoid(".svg", '/');
    TripleAvoids('/');
    AtomsWithinConcat(TRIPLE, Lits(".svg"), Avoids('/'));
  }

  /** `/` followed by a non-digit cannot start `/\d+\.\d+\.\d+\.svg`. */
  lemma {:induction false} SlashNoDigit(x: string)
    requires |x| >= 2 && !IsDigit(x[1])
    ensures MatchAtoms([Lit('/')] + (TRIPLE + Lits(".svg")), x) == None
  {
    var bt := TRIPLE + Lits(".svg");
    assert bt == [Digits] + (TRIPLE[1..] + Lits(".svg"));
    DigitsFirst(TRIPLE[1..] + Lits(".svg"), x[1..]);
    if x[0] == '/' {
      assert x == ['/'] + x[1..];
      MatchLitThen('/', bt, x[1..]);
    } else {
      assert ([Lit('/')] + bt)[0] == Lit('/');
    }
  }

  /** What follows `/uv` matches the rest of the badge pattern no differently after rewriting. */
  lemma {:induction false} AfterUvKept(w: string, v: Version)
    requires |v| == 3
    ensures MatchAtoms([Lit('/')] + (TRIPLE + Lits(".svg")), Sub(BadgePattern, w, BadgeReplacement(v))) ==
            MatchAtoms([Lit('/')] + (TRIPLE + Lits(".svg")), w)
  {
    var b := BadgeReplacement(v);
    var z := Sub(BadgePattern, w, b);
    var bt := TRIPLE + Lits(".svg");
    assert ([Lit('/')] + bt)[0] == Lit('/');
    if w == [] {
    } else if w[0] != '/' {
      SubFirst(BadgePattern, w, b);
    } else {
      match MatchAt(BadgePattern, w)
      case Some(n) =>
        assert z == b + Sub(BadgePattern, w[n..], b);
        assert z[1] == 'u';
        SlashNoDigit(z);
        BadgeSplit();
        MatchLitThen('/', Lits("uv") + ([Lit('/')] + bt), w[1..]);
        assert w == ['/'] + w[1..];
        assert w[1] == 'u' by {
          MatchLits("uv", [Lit('/')] + bt, w[1..]);
        }
        SlashNoDigit(w);
      case None =>
        BadgeSplit();
        assert z == [w[0]] + Sub(BadgePattern, w[1..], b);
        assert w == [w[0]] + w[1..];
        SubKeepsAtoms(BadgePattern, bt, w[1..], b);
        MatchLitThen('/', bt, w[1..]);
        MatchLitThen('/', bt, Sub(BadgePattern, w[1..], b));
    }
  }

  /**
    After a `/` that does not start a badge, rewriting the rest of the text
    does not make one start there.
  */
  lemma {:induction false} BadgeNoMatchKept(w: string, v: Version)
    requires |v| == 3
    ensures MatchAtoms(BADGE_ATOMS, ['/'] + Sub(BadgePattern, w, BadgeReplacement(v))) ==
            MatchAtoms(BADGE_ATOMS, ['/'] + w)
  {
    var b := BadgeReplacement(v);
    var z := Sub(BadgePattern, w, b);
    var sbt := [Lit('/')] + (TRIPLE + Lits(".svg"));
    var l := "uv";
    BadgeSplit();
    assert BADGE_ATOMS == [Lit('/')] + (Lits(l) + sbt);
    ConsLitsThen('/', l, sbt, w);
    ConsLitsThen('/', l, sbt, z);
    SubKeepsAtoms(BadgePattern, Lits(l), w, b);
    LitsPrefix(l, w);
    LitsPrefix(l, z);
    if |w| >= 2 && w[..2] == l {
      var w2 := w[2..];
      assert w == l + w2;
      SubNoLead(BadgePattern, l, w2, b);
      assert z[2..] == Sub(BadgePattern, w2, b);
      AfterUvKept(w2, v);
    }
  }

  /** A literal character and then literals `l` match exactly where the text starts with them. */
  lemma ConsLitsThen(c: char, l: string, rest: seq<Atom>, w: string)
    ensures MatchAtoms([Lit(c)] + (Lits(l) + rest), [c] + w) ==
            if |w| >= |l| && w[..|l|] == l then Shift(MatchAtoms(rest, w[|l|..]), |l| + 1) else None
  {
    MatchLitThen(c, Lits(l) + rest, w);
    MatchLits(l, rest, w);
    if |w| >= |l| && w[..|l|] == l {
      ShiftTwo(MatchAtoms(rest, w[|l|..]), |l|, 1);
    }
  }

  /** The badge rewrite for a three-segment version is idempotent. */
  lemma {:induction false} BadgeIdempotent(u: string, v: Version)
    requires |v| == 3
    ensures var y := Sub(BadgePattern, u, BadgeReplacement(v)); Sub(BadgePattern, y, BadgeReplacement(v)) == y
    decreases |u|
  {
    var b := BadgeReplacement(v);
    var y := Sub(BadgePattern, u, b);
    if u != [] {
      match MatchAt(BadgePattern, u)
      case Some(n) =>
        var z := Sub(BadgePattern, u[n..], b);
        assert y == b + z;
        BadgeIdempotent(u[n..], v);
        BadgeReplacementMatches(v, z);
        assert (b + z)[|b|..] == z;
      case None =>
        var z := Sub(BadgePattern, u[1..], b);
        assert y == [u[0]] + z;
        BadgeIdempotent(u[1..], v);
        if u[0] == '/' {
          assert u == ['/'] + u[1..];
          BadgeNoMatchKept(u[1..], v);
        }
        assert MatchAt(BadgePattern, y).None?;
        assert y[1..] == z;
    }
  }

  // ---------------------------------------------------------------------
  // The manifest pin rewrite
  // ---------------------------------------------------------------------

  ghost predicate QuoteFree(s: string)
  {
    forall i :: 0 <= i < |s| ==> s[i] != '"'
  }

  lemma {:induction false} LineAppend(a: string, z: string)
    requires forall i :: 0 <= i < |a| ==> a[i] != '\n'
    ensures Line(a + z) == a + Line(z)
    decreases |a|
  {
    if a == [] {
      assert a + z == z;
    } else {
      assert (a + z)[1..] == a[1..] + z;
      LineAppend(a[1..], z);
      assert a == [a[0]] + a[1..];
    }
  }

  lemma {:induction false} LineDrop(s: string, k: nat)
    requires k <= |Line(s)|
    ensures Line(s[k..]) == Line(s)[k..]
    decreases k
  {
    if k > 0 {
      assert s[1..][k - 1..] == s[k..];
      LineDrop(s[1..], k - 1);
    }
  }

  lemma LastQuoteAt(a: string, b: string)
    requires QuoteFree(b)
    ensures LastQuote(a + "\"" + b) == Some(|a|)
  {
    var t := a + "\"" + b;
    var r := LastQuote(t);
    var q := t[|a|];
    assert q == '"';
    assert r.Some?;
    var k := r.value;
    forall j | |a| < j < |t|
      ensures t[j] != '"'
    {
      assert t[j] == b[j - |a| - 1];
    }
    assert t[k] == '"';
    assert k < |a| ==> q != '"';
    assert k == |a|;
  }

  /** On a line without quotes, the pin rewrite changes nothing up to the line's end. */
  lemma {:induction false} LineSubQuoteFree(z: string, rep: string)
    requires QuoteFree(Line(z))
    ensures Line(Sub(PinPattern, z, rep)) == Line(z)
    decreases |z|
  {
    if z != [] {
      assert MatchAt(PinPattern, z).None? by {
        if z[0] != '\n' {
          assert Line(z)[0] == z[0];
        }
      }
      var t := Sub(PinPattern, z, rep);
      assert t == [z[0]] + Sub(PinPattern, z[1..], rep);
      assert t[1..] == Sub(PinPattern, z[1..], rep);
      if z[0] != '\n' {
        assert Line(z) == [z[0]] + Line(z[1..]);
        assert QuoteFree(Line(z[1..])) by {
          forall i | 0 <= i < |Line(z[1..])| ensures Line(z[1..])[i] != '"' {
            assert Line(z[1..])[i] == Line(z)[i + 1];
          }
        }
        LineSubQuoteFree(z[1..], rep);
      }
    }
  }

  /** A pinned manifest line is matched by the pin pattern up to its closing quote. */
  lemma {:induction false} PinLineMatches(prev: string, z: string)
    requires forall i :: 0 <= i < |prev| ==> prev[i] != '\n'
    requires QuoteFree(Line(z))
    ensures MatchPin(PIN_PREFIX + prev + "\"" + z) == Some(|PIN_PREFIX| + |prev| + 1)
  {
    var t := PIN_PREFIX + prev + "\"" + z;
    assert t[..|PIN_PREFIX|] == PIN_PREFIX;
    assert t[|PIN_PREFIX|..] == prev + "\"" + z;
    LineAppend(prev + "\"", z);
    LastQuoteAt(prev, Line(z));
  }

  lemma PinReplacementMatches(v: Version, z: string)
    requires QuoteFree(Line(z))
    ensures MatchPin(PinReplacement(v) + z) == Some(|PinReplacement(v)|)
  {
    PinLineMatches(VersionString(v), z);
  }

  /** A literal match is a prefix test. */
  lemma LitsPrefix(l: string, w: string)
    ensures MatchAtoms(Lits(l), w).Some? <==> |w| >= |l| && w[..|l|] == l
  {
    MatchLits(l, [], w);
    assert Lits(l) + [] == Lits(l);
  }

  /** `c + l` is a prefix of `c + w` exactly when `l` is a prefix of `w`. */
  lemma ConsPrefix(c: char, l: string, w: string)
    ensures var u := [c] + w;
      (|u| >= |l| + 1 && u[..|l| + 1] == [c] + l) <==> (|w| >= |l| && w[..|l|] == l)
    ensures |w| >= |l| ==> ([c] + w)[|l| + 1..] == w[|l|..]
  {
    var u := [c] + w;
    if |w| >= |l| {
      assert u[..|l| + 1] == [c] + w[..|l|];
      assert u[..|l| + 1][1..] == w[..|l|];
    }
  }

  /** `c` followed by `w` starts with `c + l` exactly when the literals of `l` match at the start of `w`. */
  lemma ConsLitsStart(c: char, l: string, w: string)
    ensures var u := [c] + w;
      (|u| >= |l| + 1 && u[..|l| + 1] == [c] + l) <==> MatchAtoms(Lits(l), w).Some?
    ensures MatchAtoms(Lits(l), w).Some? ==> w == l + w[|l|..] && ([c] + w)[|l| + 1..] == w[|l|..]
  {
    LitsPrefix(l, w);
    ConsPrefix(c, l, w);
    if |w| >= |l| && w[..|l|] == l {
      assert w == w[..|l|] + w[|l|..];
    }
  }

  /** Behind a `"` that starts no pin, rewriting the rest of the text starts none either. */
  lemma {:induction false} PinNoMatchKept(w: string, v: Version)
    requires MatchPin(['"'] + w).None?
    ensures MatchPin(['"'] + Sub(PinPattern, w, PinReplacement(v))).None?
  {
    var r := PinReplacement(v);
    var z := Sub(PinPattern, w, r);
    var l := "uv==";
    assert PIN_PREFIX == ['"'] + l && |l| == 4;
    ConsLitsStart('"', l, w);
    ConsLitsStart('"', l, z);
    LitsAvoid(l, '"');
    SubKeepsAtoms(PinPattern, Lits(l), w, r);
    if MatchAtoms(Lits(l), w).Some? {
      var w2 := w[4..];
      SubNoLead(PinPattern, l, w2, r);
      assert z == l + Sub(PinPattern, w2, r);
      assert z[4..] == Sub(PinPattern, w2, r);
      LineSubQuoteFree(w2, r);
    }
  }

  /** What follows a pin match holds no quote before the end of its line. */
  lemma PinRestQuoteFree(u: string, n: nat)
    requires MatchPin(u) == Some(n)
    ensures QuoteFree(Line(u[n..]))
  {
    var k := |PIN_PREFIX|;
    var w := u[k..];
    var l := Line(w);
    var j := LastQuote(l).value;
    assert n == k + j + 1;
    LineDrop(w, j + 1);
    assert w[j + 1..] == u[n..];
    forall i | 0 <= i < |Line(u[n..])| ensures Line(u[n..])[i] != '"' {
      assert Line(u[n..])[i] == l[j + 1 + i];
    }
  }

  /** The pin rewrite is idempotent, whatever the version. */
  lemma {:induction false} PinIdempotent(u: string, v: Version)
    ensures var y := Sub(PinPattern, u, PinReplacement(v)); Sub(PinPattern, y, PinReplacement(v)) == y
    decreases |u|
  {
    if u != [] {
      match MatchAt(PinPattern, u)
      case Some(n) =>
        PinIdempotent(u[n..], v);
        PinIdempotentMatched(u, v, n);
      case None =>
        PinIdempotent(u[1..], v);
        PinIdempotentUnmatched(u, v);
    }
  }

  /** `PinIdempotent` where the pin pattern matches at the start. */
  lemma PinIdempotentMatched(u: string, v: Version, n: nat)
    requires MatchAt(PinPattern, u) == Some(n)
    requires var z := Sub(PinPattern, u[n..], PinReplacement(v)); Sub(PinPattern, z, PinReplacement(v)) == z
    ensures var y := Sub(PinPattern, u, PinReplacement(v)); Sub(PinPattern, y, PinReplacement(v)) == y
  {
    var r := PinReplacement(v);
    var z := Sub(PinPattern, u[n..], r);
    assert Sub(PinPattern, u, r) == r + z;
    PinRestQuoteFree(u, n);
    LineSubQuoteFree(u[n..], r);
    PinReplacementMatches(v, z);
    assert (r + z)[|r|..] == z;
  }

  /** `PinIdempotent` where the pin pattern does not match at the start. */
  lemma PinIdempotentUnmatched(u: string, v: Version)
    requires u != [] && MatchAt(PinPattern, u).None?
    requires var z := Sub(PinPattern, u[1..], PinReplacement(v)); Sub(PinPattern, z, PinReplacement(v)) == z
    ensures var y := Sub(PinPattern, u, PinReplacement(v)); Sub(PinPattern, y, PinReplacement(v)) == y
  {
    var r := PinReplacement(v);
    var z := Sub(PinPattern, u[1..], r);
    var y := [u[0]] + z;
    assert Sub(PinPattern, u, r) == y;
    if u[0] == '"' {
      assert u == ['"'] + u[1..];
      PinNoMatchKept(u[1..], v);
    }
    assert MatchAt(PinPattern, y).None?;
    assert y[1..] == z;
  }

  // ---------------------------------------------------------------------
  // The two file rewrites
  // ---------------------------------------------------------------------

  /**
    The manifest's `"uv==…"` entry is rewritten to the new version, and the
    text before it is kept.
  */
  lemma {:induction false} PyprojectPinRewritten(a: string, prev: string, z: string, v: Version)
    requires forall i :: 0 <= i < |a| ==> MatchAt(PinPattern, (a + (PIN_PREFIX + prev + "\"" + z))[i..]).None?
    requires forall i :: 0 <= i < |prev| ==> prev[i] != '\n'
    requires QuoteFree(Line(z))
    ensures ReplacePyproject(a + (PIN_PREFIX + prev + "\"" + z), v) ==
            a + PinReplacement(v) + ReplacePyproject(z, v)
  {
    var t := PIN_PREFIX + prev + "\"" + z;
    SubNoMatchPrefix(PinPattern, a, t, PinReplacement(v));
    PinLineMatches(prev, z);
    assert t[|PIN_PREFIX| + |prev| + 1..] == z;
  }

  /** Rewriting the manifest a second time for the same version changes nothing. */
  lemma PyprojectIdempotent(content: string, v: Version)
    ensures ReplacePyproject(ReplacePyproject(content, v), v) == ReplacePyproject(content, v)
  {
    PinIdempotent(content, v);
  }

  /** Rewriting the README a second time for the same three-segment version changes nothing. */
  lemma ReadmeIdempotent(content: string, v: Version)
    requires |v| == 3
    ensures ReplaceReadme(ReplaceReadme(content, v), v) == ReplaceReadme(content, v)
  {
    var r, b := RevReplacement(v), BadgeReplacement(v);
    var y1 := Sub(RevPattern, content, r);
    ReadmeApart(v);
    SubCommute(RevPattern, BadgePattern, r, b, y1);
    RevIdempotent(content, v);
    BadgeIdempotent(y1, v);
  }

  /** A literal prefix followed by three dot-separated digit runs matches exactly. */
  lemma {:induction false} MatchLitsTriple(l: string, a: string, b: string, c: string, z: string, tail: seq<Atom>)
    requires |a| > 0 && forall i :: 0 <= i < |a| ==> IsDigit(a[i])
    requires |b| > 0 && forall i :: 0 <= i < |b| ==> IsDigit(b[i])
    requires |c| > 0 && forall i :: 0 <= i < |c| ==> IsDigit(c[i])
    requires z == [] || !IsDigit(z[0])
    ensures MatchAtoms(Lits(l) + (TRIPLE + tail), l + (a + ("." + (b + ("." + (c + z)))))) ==
            Shift(MatchAtoms(tail, z), |l| + |a| + |b| + |c| + 2)
  {
    var x := a + ("." + (b + ("." + (c + z))));
    var t := l + x;
    var r := TRIPLE + tail;
    assert t[..|l|] == l && t[|l|..] == x;
    MatchLits(l, r, t);
    assert MatchAtoms(Lits(l) + r, t) == Shift(MatchAtoms(r, x), |l|);
    TripleSplit(tail);
    MatchTripleText(a, b, c, tail, z);
    assert MatchAtoms(r, x) == Shift(MatchAtoms(tail, z), |a| + |b| + |c| + 2);
    ShiftTwo(MatchAtoms(tail, z), |a| + |b| + |c| + 2, |l|);
  }

  lemma ShiftTwo(o: Option<nat>, i: nat, j: nat)
    ensures Shift(Shift(o, i), j) == Shift(o, i + j)
  {
  }

  /** The same with a literal suffix after the last digit run. */
  lemma {:induction false} MatchLitsTripleLits(l: string, a: string, b: string, c: string, m: string, z: string)
    requires |a| > 0 && forall i :: 0 <= i < |a| ==> IsDigit(a[i])
    requires |b| > 0 && forall i :: 0 <= i < |b| ==> IsDigit(b[i])
    requires |c| > 0 && forall i :: 0 <= i < |c| ==> IsDigit(c[i])
    requires m != [] && !IsDigit(m[0])
    ensures MatchAtoms(Lits(l) + (TRIPLE + Lits(m)), l + (a + ("." + (b + ("." + (c + (m + z))))))) ==
            Some(|l| + |a| + |b| + |c| + 2 + |m|)
  {
    MatchLitsTriple(l, a, b, c, m + z, Lits(m));
    MatchLits(m, [], m + z);
    assert Lits(m) + [] == Lits(m);
    assert (m + z)[..|m|] == m;
  }

  /** A `rev: ` line holding three dot-separated digit runs is matched by the rev pattern. */
  lemma {:induction false} RevLineMatches(a: string, b: string, c: string, z: string)
    requires |a| > 0 && forall i :: 0 <= i < |a| ==> IsDigit(a[i])
    requires |b| > 0 && forall i :: 0 <= i < |b| ==> IsDigit(b[i])
    requires |c| > 0 && forall i :: 0 <= i < |c| ==> IsDigit(c[i])
    requires z == [] || !IsDigit(z[0])
    ensures MatchAt(RevPattern, "rev: " + (a + ("." + (b + ("." + (c + z)))))) ==
            Some(|a| + |b| + |c| + 7)
  {
    MatchLitsTriple("rev: ", a, b, c, z, []);
    assert TRIPLE + [] == TRIPLE;
  }

  /**
    The README's `rev: X.Y.Z` line is rewritten to the new version, and the
    text before it is kept.
  */
  lemma {:induction false} ReadmeRevRewritten(pre: string, a: string, b: string, c: string, z: string, v: Version)
    requires forall i :: 0 <= i < |pre| ==> MatchAt(RevPattern, (pre + ("rev: " + (a + ("." + (b + ("." + (c + z)))))))[i..]).None?
    requires |a| > 0 && forall i :: 0 <= i < |a| ==> IsDigit(a[i])
    requires |b| > 0 && forall i :: 0 <= i < |b| ==> IsDigit(b[i])
    requires |c| > 0 && forall i :: 0 <= i < |c| ==> IsDigit(c[i])
    requires z == [] || !IsDigit(z[0])
    ensures Sub(RevPattern, pre + ("rev: " + (a + ("." + (b + ("." + (c + z)))))), RevReplacement(v)) ==
            pre + RevReplacement(v) + Sub(RevPattern, z, RevReplacement(v))
  {
    var r, l := RevReplacement(v), "rev: ";
    var y := a + ("." + (b + ("." + c)));
    var t := l + (a + ("." + (b + ("." + (c + z)))));
    RevLineMatches(a, b, c, z);
    NestThen(a, b, c, z);
    AppendAssocStr(l, y, z);
    DropConcat(l + y, z);
    SubMatched(RevPattern, t, r, |l + y|);
    SubNoMatchPrefix(RevPattern, pre, t, r);
    AppendAssocStr(pre, r, Sub(RevPattern, z, r));
  }

  /**
    A README badge `/uv/X.Y.Z.svg` is rewritten to the new version's badge,
    and the text before it is kept.
  */
  lemma {:induction false} ReadmeBadgeRewritten(pre: string, a: string, b: string, c: string, z: string, v: Version)
    requires forall i :: 0 <= i < |pre| ==>
      MatchAt(BadgePattern, (pre + ("/uv/" + (a + ("." + (b + ("." + (c + (".svg" + z))))))))[i..]).None?
    requires |a| > 0 && forall i :: 0 <= i < |a| ==> IsDigit(a[i])
    requires |b| > 0 && forall i :: 0 <= i < |b| ==> IsDigit(b[i])
    requires |c| > 0 && forall i :: 0 <= i < |c| ==> IsDigit(c[i])
    ensures Sub(BadgePattern, pre + ("/uv/" + (a + ("." + (b + ("." + (c + (".svg" + z))))))), BadgeReplacement(v)) ==
            pre + BadgeReplacement(v) + Sub(BadgePattern, z, BadgeReplacement(v))
  {
    var r, l, m := BadgeReplacement(v), "/uv/", ".svg";
    var t := l + (a + ("." + (b + ("." + (c + (m + z))))));
    var y := a + ("." + (b + ("." + (c + m))));
    MatchLitsTripleLits(l, a, b, c, m, z);
    assert MatchAt(BadgePattern, t) == MatchAtoms(Lits(l) + (TRIPLE + Lits(m)), t);
    NestThen(a, b, c + m, z);
    AppendAssocStr(c, m, z);
    NestThen(a, b, c, m);
    AppendAssocStr(l, y, z);
    assert t == (l + y) + z;
    DropConcat(l + y, z);
    SubMatched(BadgePattern, t, r, |l + y|);
    SubNoMatchPrefix(BadgePattern, pre, t, r);
    AppendAssocStr(pre, r, Sub(BadgePattern, z, r));
  }

  /** `TakeWhile` stops at a character `a` rejects, whatever follows it. */
  lemma {:induction false} TakeWhileStops(x: string, y: string, w: string, a: char -> bool)
    requires y != [] && w != [] && !a(y[0]) && !a(w[0])
    ensures TakeWhile(x + y, a) == TakeWhile(x + w, a)
    decreases |x|
  {
    if x == [] {
      assert x + y == y && x + w == w;
    } else {
      assert (x + y)[0] == x[0] && (x + w)[0] == x[0];
      if a(x[0]) {
        assert (x + y)[1..] == x[1..] + y && (x + w)[1..] == x[1..] + w;
        TakeWhileStops(x[1..], y, w, a);
      }
    }
  }

  /**
    A pattern that never consumes `c` matches at a position before a `c`
    in the same way, whatever follows that `c`.
  */
  lemma MatchBeforeStop(p: Pattern, c: char, pre: string, y: string, w: string)
    requires p != PinPattern && AtomsWithin(AtomsOf(p), Avoids(c))
    requires y != [] && w != [] && y[0] == c && w[0] == c
    ensures forall i :: 0 <= i < |pre| ==> MatchAt(p, (pre + y)[i..]) == MatchAt(p, (pre + w)[i..])
  {
    forall i | 0 <= i < |pre|
      ensures MatchAt(p, (pre + y)[i..]) == MatchAt(p, (pre + w)[i..])
    {
      var u := pre[i..];
      assert (pre + y)[i..] == u + y && (pre + w)[i..] == u + w;
      MatchAtIsAtoms(p, u + y);
      MatchAtIsAtoms(p, u + w);
      MatchTakeWhile(AtomsOf(p), u + y, Avoids(c));
      MatchTakeWhile(AtomsOf(p), u + w, Avoids(c));
      TakeWhileStops(u, y, w, Avoids(c));
    }
  }

  /**
    The whole README rewrite turns a `rev: X.Y.Z` line into `rev: {version}`,
    keeps the text before it, and goes on with the text after it.
  */
  lemma {:induction false} ReadmeRevLineRewritten(pre: string, a: string, b: string, c: string, z: string, v: Version)
    requires forall i :: 0 <= i < |pre| ==> MatchAt(RevPattern, (pre + ("rev: " + (a + ("." + (b + ("." + (c + z)))))))[i..]).None?
    requires forall i :: 0 <= i < |pre| ==> MatchAt(BadgePattern, (pre + ("rev: " + (a + ("." + (b + ("." + (c + z)))))))[i..]).None?
    requires |a| > 0 && forall i :: 0 <= i < |a| ==> IsDigit(a[i])
    requires |b| > 0 && forall i :: 0 <= i < |b| ==> IsDigit(b[i])
    requires |c| > 0 && forall i :: 0 <= i < |c| ==> IsDigit(c[i])
    requires z == [] || !IsDigit(z[0])
    ensures ReplaceReadme(pre + ("rev: " + (a + ("." + (b + ("." + (c + z)))))), v) ==
            pre + RevReplacement(v) + ReplaceReadme(z, v)
  {
    var r, g := RevReplacement(v), BadgeReplacement(v);
    var t := "rev: " + (a + ("." + (b + ("." + (c + z)))));
    var w := Sub(RevPattern, z, r);
    ReadmeRevRewritten(pre, a, b, c, z, v);
    AppendAssocStr(pre, r, w);
    ReadmeApart(v);
    MatchBeforeStop(BadgePattern, 'r', pre, t, r + w);
    SubNoMatchPrefix(BadgePattern, pre, r + w, g);
    SubNoLead(BadgePattern, r, w, g);
    AppendAssocStr(pre, r, Sub(BadgePattern, w, g));
  }

  /**
    The whole README rewrite turns a badge `/uv/X.Y.Z.svg` into the new
    version's badge, keeps the text before it, and goes on with the text
    after it.
  */
  lemma {:induction false} ReadmeBadgeLineRewritten(pre: string, a: string, b: string, c: string, z: string, v: Version)
    requires forall i :: 0 <= i < |pre| ==>
      MatchAt(RevPattern, (pre + ("/uv/" + (a + ("." + (b + ("." + (c + (".svg" + z))))))))[i..]).None?
    requires forall i :: 0 <= i < |pre| ==>
      MatchAt(BadgePattern, (pre + ("/uv/" + (a + ("." + (b + ("." + (c + (".svg" + z))))))))[i..]).None?
    requires |a| > 0 && forall i :: 0 <= i < |a| ==> IsDigit(a[i])
    requires |b| > 0 && forall i :: 0 <= i < |b| ==> IsDigit(b[i])
    requires |c| > 0 && forall i :: 0 <= i < |c| ==> IsDigit(c[i])
    ensures ReplaceReadme(pre + ("/uv/" + (a + ("." + (b + ("." + (c + (".svg" + z))))))), v) ==
            pre + BadgeReplacement(v) + ReplaceReadme(z, v)
  {
    var r, g := RevReplacement(v), BadgeReplacement(v);
    var t := "/uv/" + (a + ("." + (b + ("." + (c + (".svg" + z))))));
    var w := Sub(BadgePattern, z, g);
    ReadmeApart(v);
    SubCommute(RevPattern, BadgePattern, r, g, pre + t);
    SubCommute(RevPattern, BadgePattern, r, g, z);
    ReadmeBadgeRewritten(pre, a, b, c, z, v);
    AppendAssocStr(pre, g, w);
    MatchBeforeStop(RevPattern, '/', pre, t, g + w);
    SubNoMatchPrefix(RevPattern, pre, g + w, r);
    SubNoLead(RevPattern, g, w, r);
    AppendAssocStr(pre, g, Sub(RevPattern, w, r));
  }

  /** Text without a `/` is left alone by the badge rewrite. */
  lemma BadgeKeepsSlashFree(s: string, v: Version)
    requires forall i :: 0 <= i < |s| ==> s[i] != '/'
    ensures Sub(BadgePattern, s, BadgeReplacement(v)) == s
  {
    SubNoLead(BadgePattern, s, [], BadgeReplacement(v));
    assert s + [] == s;
  }

  /** The text of a four-segment version: three dot-separated runs, then a dot and the last run. */
  lemma VersionStringFourSplit(v: Version)
    requires |v| == 4
    ensures VersionString(v) ==
            NatString(v[0]) + ("." + (NatString(v[1]) + ("." + (NatString(v[2]) + ("." + NatString(v[3]))))))
  {
    var w1 := v[1..];
    var w2 := w1[1..];
    assert w1[0] == v[1] && w2[0] == v[2] && w2[1..] == [v[3]];
    VersionStringCons(v);
    VersionStringCons(w1);
    VersionStringCons(w2);
  }

  /**
    For a four-segment version the `rev:` pattern takes only the first three
    segments of the line the mirror wrote, so rewriting it appends the last
    segment once more.
  */
  lemma {:induction false} FourSegmentsRevGrow(v: Version, z: string)
    requires |v| == 4
    requires forall i :: 0 <= i < |z| ==> z[i] != 'r'
    ensures Sub(RevPattern, RevReplacement(v) + z, RevReplacement(v)) == RevReplacement(v) + ("." + NatString(v[3]) + z)
  {
    var r := RevReplacement(v);
    var v3: Version := v[..3];
    var x := RevReplacement(v3);
    var rest := "." + NatString(v[3]) + z;
    VersionStringSnoc(v);
    assert r + z == x + rest;
    RevReplacementMatches(v3, rest);
    SubAtMatch(RevPattern, x, rest, r);
    SubNoLead(RevPattern, rest, [], r);
    assert rest + [] == rest;
  }

  /** A four-segment version prints as its first three segments, a dot and the last. */
  lemma VersionStringSnoc(v: Version)
    requires |v| == 4
    ensures VersionString(v) == VersionString(v[..3]) + ("." + NatString(v[3]))
  {
    var v3 := v[..3];
    assert v3[0] == v[0] && v3[1] == v[1] && v3[2] == v[2];
    VersionStringFourSplit(v);
    VersionTextThen(v3, "." + NatString(v[3]));
  }

  /** Where the pattern matches exactly `x`, `x` is replaced and the rest rewritten. */
  lemma SubAtMatch(p: Pattern, x: string, y: string, rep: string)
    requires x != [] && MatchAt(p, x + y) == Some(|x|)
    ensures Sub(p, x + y, rep) == rep + Sub(p, y, rep)
  {
    assert (x + y)[|x|..] == y;
  }

  /** The same for the whole README rewrite, since the grown line holds no `/`. */
  lemma {:induction false} FourSegmentsGrow(v: Version, z: string)
    requires |v| == 4
    requires forall i :: 0 <= i < |z| ==> z[i] != 'r' && z[i] != '/'
    ensures ReplaceReadme(RevReplacement(v) + z, v) == RevReplacement(v) + ("." + NatString(v[3]) + z)
  {
    var r := RevReplacement(v);
    var rest := "." + NatString(v[3]) + z;
    FourSegmentsRevGrow(v, z);
    var y := r + rest;
    assert forall i :: 0 <= i < |y| ==> y[i] != '/' by {
      assert forall i :: 0 <= i < |r| ==> r[i] != '/';
      assert forall i :: 0 <= i < |rest| ==> rest[i] != '/';
    }
    BadgeKeepsSlashFree(y, v);
  }

  /**
    The three-segment requirement is needed: the README the mirror writes
    for any four-segment version changes again when it is rewritten for
    that same version.
  */
  lemma ReadmeNotIdempotentForFourSegments(v: Version)
    requires |v| == 4
    ensures var once := ReplaceReadme(RevReplacement(v), v);
            ReplaceReadme(once, v) != once
  {
    var r := RevReplacement(v);
    var d := "." + NatString(v[3]);
    FourSegmentsGrow(v, []);
    assert r + [] == r && d + [] == d;
    var once := ReplaceReadme(r, v);
    assert once == r + d;
    assert forall i :: 0 <= i < |d| ==> d[i] != 'r' && d[i] != '/';
    FourSegmentsGrow(v, d);
    assert |ReplaceReadme(once, v)| == |r| + 2 * |d|;
  }
}
