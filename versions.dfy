/**
 * The version value the checker works with: the release segments and an
 * optional pre-release marker of a PEP 440 version, their total preorder
 * (release segments compared with zero padding, a pre-release below its
 * release), the canonical text form and the major / "major.minor" keys.
 */
module Versions {
  import opened Results
  import opened Decimal

  /** Pre-release phases in PEP 440 order: a < b < rc. */
  datatype Phase = Alpha | Beta | Candidate

  datatype PreRelease = PreRelease(phase: Phase, number: nat)

  /** `release` holds the dotted numbers (1.2.3 is [1, 2, 3]), `pre` the aN, bN or rcN marker. */
  datatype Version = Version(release: seq<nat>, pre: Option<PreRelease>)

  predicate IsPreRelease(v: Version) {
    v.pre.Some?
  }

  /** Segment i of the release, zero when the release is shorter (1.2 reads as 1.2.0). */
  function Segment(v: Version, i: nat): nat {
    if i < |v.release| then v.release[i] else 0
  }

  // ---------------------------------------------------------------- ordering

  function CompareNat(x: nat, y: nat): int {
    if x < y then -1 else if x > y then 1 else 0
  }

  function Head(s: seq<nat>): nat {
    if s == [] then 0 else s[0]
  }

  function Tail(s: seq<nat>): seq<nat> {
    if s == [] then [] else s[1..]
  }

  /** Lexicographic comparison of two releases, the shorter one padded with zeros. */
  function CompareRelease(a: seq<nat>, b: seq<nat>): (r: int)
    ensures -1 <= r <= 1
    decreases |a| + |b|
  {
    if a == [] && b == [] then 0
    else if Head(a) != Head(b) then CompareNat(Head(a), Head(b))
    else CompareRelease(Tail(a), Tail(b))
  }

  function PhaseRank(p: Phase): nat {
    match p
    case Alpha => 0
    case Beta => 1
    case Candidate => 2
  }

  /** No marker is the final release, which sorts above every pre-release of it. */
  function ComparePre(p: Option<PreRelease>, q: Option<PreRelease>): int {
    match (p, q)
    case (None, None) => 0
    case (None, Some(_)) => 1
    case (Some(_), None) => -1
    case (Some(x), Some(y)) =>
      if x.phase != y.phase then CompareNat(PhaseRank(x.phase), PhaseRank(y.phase))
      else CompareNat(x.number, y.number)
  }

  /** -1, 0 or 1 as a sorts below, level with or above b. */
  function Compare(a: Version, b: Version): (r: int)
    ensures -1 <= r <= 1
    ensures a == b ==> r == 0
  {
    CompareReleaseReflexive(a.release);
    var c := CompareRelease(a.release, b.release);
    if c != 0 then c else ComparePre(a.pre, b.pre)
  }

  predicate Less(a: Version, b: Version) {
    Compare(a, b) < 0
  }

  predicate LessEq(a: Version, b: Version) {
    Compare(a, b) <= 0
  }

  /** Version equality: 1.0 and 1.0.0 are the same version. */
  predicate Equivalent(a: Version, b: Version) {
    Compare(a, b) == 0
  }

  lemma {:induction false} CompareReleaseReflexive(a: seq<nat>)
    ensures CompareRelease(a, a) == 0
    decreases |a|
  {
    if a != [] {
      CompareReleaseReflexive(Tail(a));
    }
  }

  lemma {:induction false} CompareReleaseAntisymmetric(a: seq<nat>, b: seq<nat>)
    ensures CompareRelease(a, b) == -CompareRelease(b, a)
    decreases |a| + |b|
  {
    if !(a == [] && b == []) && Head(a) == Head(b) {
      CompareReleaseAntisymmetric(Tail(a), Tail(b));
    }
  }

  lemma {:induction false} CompareReleaseTransitive(a: seq<nat>, b: seq<nat>, c: seq<nat>)
    requires CompareRelease(a, b) <= 0 && CompareRelease(b, c) <= 0
    ensures CompareRelease(a, c) <= 0
    ensures CompareRelease(a, c) == 0 ==> CompareRelease(a, b) == 0 && CompareRelease(b, c) == 0
    decreases |a| + |b| + |c|
  {
    if a == [] && b == [] && c == [] {
    } else if Head(a) == Head(b) && Head(b) == Head(c) {
      if Tail(a) == [] && Tail(b) == [] && Tail(c) == [] {
        assert CompareRelease(Tail(a), Tail(b)) == 0;
        assert CompareRelease(Tail(b), Tail(c)) == 0;
      }
      CompareReleaseTransitive(Tail(a), Tail(b), Tail(c));
    }
  }

  lemma CompareReflexive(a: Version)
    ensures Compare(a, a) == 0
  {
    CompareReleaseReflexive(a.release);
  }

  lemma CompareAntisymmetric(a: Version, b: Version)
    ensures Compare(a, b) == -Compare(b, a)
  {
    CompareReleaseAntisymmetric(a.release, b.release);
  }

  lemma CompareTransitive(a: Version, b: Version, c: Version)
    requires LessEq(a, b) && LessEq(b, c)
    ensures LessEq(a, c)
  {
    CompareReleaseTransitive(a.release, b.release, c.release);
    CompareReleaseAntisymmetric(a.release, b.release);
    CompareReleaseAntisymmetric(b.release, c.release);
  }

  /** Any two versions are comparable: not below means at or above. */
  lemma CompareTotal(a: Version, b: Version)
    ensures LessEq(a, b) || LessEq(b, a)
    ensures !Less(a, b) <==> LessEq(b, a)
  {
    CompareAntisymmetric(a, b);
  }

  /** Trailing zero segments do not change a version: 1.0 == 1.0.0. */
  lemma {:induction false} ZeroPaddingEquivalent(r: seq<nat>, p: Option<PreRelease>)
    ensures Equivalent(Version(r, p), Version(r + [0], p))
  {
    ReleasePadding(r);
  }

  lemma {:induction false} ReleasePadding(r: seq<nat>)
    ensures CompareRelease(r, r + [0]) == 0
    decreases |r|
  {
    if r == [] {
      assert Tail([0]) == [];
    } else {
      assert Tail(r + [0]) == Tail(r) + [0];
      ReleasePadding(Tail(r));
    }
  }

  /** A pre-release sorts below the release it leads up to: 17.3.2rc1 < 17.3.2. */
  lemma PreReleaseBelowRelease(r: seq<nat>, p: PreRelease)
    ensures Less(Version(r, Some(p)), Version(r, None))
  {
    CompareReleaseReflexive(r);
  }

  // ---------------------------------------------------------------- text

  function JoinRelease(r: seq<nat>): string {
    if r == [] then ""
    else if |r| == 1 then ToText(r[0])
    else ToText(r[0]) + "." + JoinRelease(r[1..])
  }

  function PhaseText(p: Phase): string {
    match p
    case Alpha => "a"
    case Beta => "b"
    case Candidate => "rc"
  }

  function PreText(p: Option<PreRelease>): string {
    match p
    case None => ""
    case Some(x) => PhaseText(x.phase) + ToText(x.number)
  }

  /** The canonical text of a version, as str() renders it: 17.3.2rc1, 1.0. */
  function Render(v: Version): (s: string)
    ensures |v.release| > 0 ==> s != [] && IsDigit(s[0])
  {
    JoinRelease(v.release) + PreText(v.pre)
  }

  // ---------------------------------------------------------------- group keys

  /** The key of a version's major line: "17" for 17.3.1. */
  function MajorKey(v: Version): (k: string)
    ensures k != [] && AllDigits(k)
  {
    ToText(Segment(v, 0))
  }

  /** The key of a version's minor line: "17.3" for 17.3.1, "1.0" for 1. */
  function MinorKey(v: Version): (k: string)
    ensures |k| > |MajorKey(v)| && k[..|MajorKey(v)|] == MajorKey(v) && k[|MajorKey(v)|] == '.'
  {
    ToText(Segment(v, 0)) + "." + ToText(Segment(v, 1))
  }

  /** Two versions share a major key exactly when they share a major number. */
  lemma MajorKeyExact(a: Version, b: Version)
    ensures MajorKey(a) == MajorKey(b) <==> Segment(a, 0) == Segment(b, 0)
  {
    ToTextInjective(Segment(a, 0), Segment(b, 0));
  }

  /** Two versions share a minor key exactly when they share major and minor numbers. */
  lemma MinorKeyExact(a: Version, b: Version)
    ensures MinorKey(a) == MinorKey(b) <==> Segment(a, 0) == Segment(b, 0) && Segment(a, 1) == Segment(b, 1)
  {
    if MinorKey(a) == MinorKey(b) {
      SplitAtDot(ToText(Segment(a, 0)), ToText(Segment(a, 1)), ToText(Segment(b, 0)), ToText(Segment(b, 1)));
      ToTextInjective(Segment(a, 0), Segment(b, 0));
      ToTextInjective(Segment(a, 1), Segment(b, 1));
    }
  }

  /** "x.y" determines x and y when neither holds a dot. */
  lemma SplitAtDot(x: string, y: string, x': string, y': string)
    requires AllDigits(x) && AllDigits(y) && AllDigits(x') && AllDigits(y')
    requires x + "." + y == x' + "." + y'
    ensures x == x' && y == y'
  {
    var s := x + "." + y;
    DotAfterDigits(x, y);
    DotAfterDigits(x', y');
    assert |x| == |x'|;
    assert x == s[..|x|] == x';
    assert y == s[|x| + 1..] == y';
  }

  lemma DotAfterDigits(x: string, y: string)
    requires AllDigits(x)
    ensures (x + "." + y)[|x|] == '.'
    ensures forall i | 0 <= i < |x| :: (x + "." + y)[i] != '.'
  {
  }
}
