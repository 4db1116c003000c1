/**
 * A parser for the part of PEP 440 ("Version Identification and Dependency
 * Specification") that the version model covers: an optional leading `v`,
 * dotted release numbers read as integers (17.03 is 17.3), and an optional
 * pre-release marker with any spelling the PEP's "Normalization" section
 * accepts under "Pre-release spelling" (alpha/a, beta/b, c/pre/preview/rc), an optional separator (-, _ or .)
 * before and after the spelling, and an implicit number 0.
 */
module Pep440 {
  import opened Results
  import opened Decimal
  import opened Strings
  import opened Versions

  /** Length of the run of digits that starts s. */
  function DigitRun(s: string): (n: nat)
    ensures n <= |s|
    ensures forall i | 0 <= i < n :: IsDigit(s[i])
    ensures n < |s| ==> !IsDigit(s[n])
  {
    if s != [] && IsDigit(s[0]) then 1 + DigitRun(s[1..]) else 0
  }

  /** The release numbers at the start of s and the text after them. */
  function ReleasePrefix(s: string): (r: (seq<nat>, string))
    requires s != [] && IsDigit(s[0])
    ensures |r.0| > 0 && |r.1| < |s|
    decreases |s|
  {
    var n := DigitRun(s);
    var value := ValueOf(s[..n]);
    var rest := s[n..];
    if |rest| >= 2 && rest[0] == '.' && IsDigit(rest[1]) then
      var more := ReleasePrefix(rest[1..]);
      ([value] + more.0, more.1)
    else ([value], rest)
  }

  predicate IsSeparator(c: char) {
    c == '-' || c == '_' || c == '.'
  }

  function DropSeparator(s: string): (r: string)
    ensures |r| <= |s|
  {
    if s != [] && IsSeparator(s[0]) then s[1..] else s
  }

  /** The pre-release phase spelled at the start of s, and the length of the spelling. */
  function PhasePrefix(s: string): (r: Option<(Phase, nat)>)
    ensures r.Some? ==> r.value.1 <= |s|
  {
    if HasPrefix(s, "alpha") then Some((Alpha, 5))
    else if HasPrefix(s, "a") then Some((Alpha, 1))
    else if HasPrefix(s, "beta") then Some((Beta, 4))
    else if HasPrefix(s, "b") then Some((Beta, 1))
    else if HasPrefix(s, "preview") then Some((Candidate, 7))
    else if HasPrefix(s, "pre") then Some((Candidate, 3))
    else if HasPrefix(s, "rc") then Some((Candidate, 2))
    else if HasPrefix(s, "c") then Some((Candidate, 1))
    else None
  }

  /** The text after the release: empty, or exactly one pre-release marker. */
  function ParsePre(s: string): Option<Option<PreRelease>> {
    if s == [] then Some(None)
    else
      var a := DropSeparator(s);
      match PhasePrefix(a)
      case None => None
      case Some(spelled) =>
        var b := DropSeparator(a[spelled.1..]);
        if AllDigits(b) then Some(Some(PreRelease(spelled.0, ValueOf(b)))) else None
  }

  /** Version(s): the parsed version, or None where packaging raises InvalidVersion. */
  function Parse(s: string): (r: Option<Version>)
    ensures r.Some? ==> |r.value.release| > 0
  {
    ParseUnprefixed(if s != [] && s[0] == 'v' then s[1..] else s)
  }

  /** The version after the optional v: a release, then nothing or one pre-release marker. */
  function ParseUnprefixed(t: string): (r: Option<Version>)
    ensures r.Some? ==> |r.value.release| > 0
  {
    if t == [] || !IsDigit(t[0]) then None
    else
      var rp := ReleasePrefix(t);
      match ParsePre(rp.1)
      case None => None
      case Some(pre) => Some(Version(rp.0, pre))
  }

  // ---------------------------------------------------------------- round trip

  lemma {:induction false} DigitRunOfDigits(d: string, rest: string)
    requires AllDigits(d)
    requires rest == [] || !IsDigit(rest[0])
    ensures DigitRun(d + rest) == |d|
    decreases |d|
  {
    if d != [] {
      assert (d + rest)[1..] == d[1..] + rest;
      DigitRunOfDigits(d[1..], rest);
    }
  }

  lemma JoinReleaseStartsWithDigit(r: seq<nat>)
    requires |r| > 0
    ensures JoinRelease(r) != [] && IsDigit(JoinRelease(r)[0])
  {
  }

  /** One number of the release: the digits `head` and whatever text follows them. */
  lemma ReleasePrefixStep(head: string, after: string)
    requires head != [] && AllDigits(head)
    requires after == [] || !IsDigit(after[0])
    ensures (head + after) != [] && IsDigit((head + after)[0])
    ensures ReleasePrefix(head + after) ==
      if |after| >= 2 && after[0] == '.' && IsDigit(after[1]) then
        var more := ReleasePrefix(after[1..]);
        ([ValueOf(head)] + more.0, more.1)
      else ([ValueOf(head)], after)
  {
    var s := head + after;
    DigitRunOfDigits(head, after);
    assert s[..|head|] == head;
    assert s[|head|..] == after;
  }

  /** Digit groups joined by dots: a release as a tag may write it, 17.03.2. */
  function JoinGroups(ds: seq<string>): string {
    if ds == [] then ""
    else if |ds| == 1 then ds[0]
    else ds[0] + "." + JoinGroups(ds[1..])
  }

  predicate DigitGroups(ds: seq<string>) {
    forall i | 0 <= i < |ds| :: ds[i] != [] && AllDigits(ds[i])
  }

  function GroupValues(ds: seq<string>): (r: seq<nat>)
    requires DigitGroups(ds)
    ensures |r| == |ds|
  {
    if ds == [] then [] else [ValueOf(ds[0])] + GroupValues(ds[1..])
  }

  /** Text after a release that does not continue it: no digit, and no dot followed by a digit. */
  predicate EndsRelease(tail: string) {
    tail == [] || (!IsDigit(tail[0]) && !(|tail| >= 2 && tail[0] == '.' && IsDigit(tail[1])))
  }

  /** Reading the release back from its groups, followed by text that cannot continue it. */
  lemma {:induction false} ReleasePrefixOfGroups(ds: seq<string>, tail: string)
    requires |ds| > 0 && DigitGroups(ds)
    requires EndsRelease(tail)
    ensures JoinGroups(ds) + tail != [] && IsDigit((JoinGroups(ds) + tail)[0])
    ensures ReleasePrefix(JoinGroups(ds) + tail) == (GroupValues(ds), tail)
    decreases |ds|
  {
    var head := ds[0];
    if |ds| == 1 {
      ReleasePrefixStep(head, tail);
      assert JoinGroups(ds) == head;
      assert GroupValues(ds) == [ValueOf(head)] by {
        assert ds[1..] == [];
      }
    } else {
      var more := JoinGroups(ds[1..]) + tail;
      assert JoinGroups(ds) + tail == head + ("." + more);
      assert DigitGroups(ds[1..]) by {
        assert forall i | 0 <= i < |ds| - 1 :: ds[1..][i] == ds[i + 1];
      }
      ReleasePrefixOfGroups(ds[1..], tail);
      ReleasePrefixStep(head, "." + more);
      assert ("." + more)[1..] == more;
    }
  }

  /** The canonical texts of the release numbers. */
  function Texts(r: seq<nat>): (ds: seq<string>)
    ensures |ds| == |r| && DigitGroups(ds)
  {
    if r == [] then [] else [ToText(r[0])] + Texts(r[1..])
  }

  /** Joining the texts of the numbers spells the release as JoinRelease does. */
  lemma {:induction false} TextsJoinGroups(r: seq<nat>)
    ensures JoinGroups(Texts(r)) == JoinRelease(r)
  {
    if r != [] {
      var ds := Texts(r);
      assert ds[0] == ToText(r[0]) && ds[1..] == Texts(r[1..]);
      if |r| > 1 {
        TextsJoinGroups(r[1..]);
      }
    }
  }

  /** Reading the texts of the numbers gives the numbers back. */
  lemma {:induction false} TextsValues(r: seq<nat>)
    ensures GroupValues(Texts(r)) == r
  {
    if r != [] {
      var ds := Texts(r);
      assert ds[0] == ToText(r[0]) && ds[1..] == Texts(r[1..]);
      TextsValues(r[1..]);
      assert [r[0]] + r[1..] == r;
    }
  }

  lemma TextsJoin(r: seq<nat>)
    ensures JoinGroups(Texts(r)) == JoinRelease(r)
    ensures GroupValues(Texts(r)) == r
  {
    TextsJoinGroups(r);
    TextsValues(r);
  }

  lemma PrefixDiffers(s: string, p: string, i: nat)
    requires i < |p| && i < |s| && s[i] != p[i]
    ensures !HasPrefix(s, p)
  {
    if |p| <= |s| {
      assert s[..|p|][i] == s[i];
    }
  }

  /** The canonical spelling of a phase, followed by a number, reads back as that phase. */
  lemma PhasePrefixOfText(x: PreRelease)
    ensures PhasePrefix(PhaseText(x.phase) + ToText(x.number)) == Some((x.phase, |PhaseText(x.phase)|))
  {
    var spelled := PhaseText(x.phase);
    var s := spelled + ToText(x.number);
    assert s[..|spelled|] == spelled;
    assert IsDigit(s[|spelled|]);
    match x.phase
    case Alpha =>
      PrefixDiffers(s, "alpha", 1);
    case Beta =>
      PrefixDiffers(s, "alpha", 0);
      PrefixDiffers(s, "a", 0);
      PrefixDiffers(s, "beta", 1);
    case Candidate =>
      PrefixDiffers(s, "alpha", 0);
      PrefixDiffers(s, "a", 0);
      PrefixDiffers(s, "beta", 0);
      PrefixDiffers(s, "b", 0);
      PrefixDiffers(s, "preview", 0);
      PrefixDiffers(s, "pre", 0);
  }

  lemma ParsePreOfText(p: Option<PreRelease>)
    ensures PreText(p) == [] || (!IsDigit(PreText(p)[0]) && PreText(p)[0] != '.')
    ensures ParsePre(PreText(p)) == Some(p)
  {
    if p.Some? {
      var x := p.value;
      var spelled := PhaseText(x.phase);
      var digits := ToText(x.number);
      var s := PreText(p);
      assert s == spelled + digits;
      assert !IsSeparator(s[0]);
      PhasePrefixOfText(x);
      assert s[|spelled|..] == digits;
      assert !IsSeparator(digits[0]);
    }
  }

  /** Parsing the canonical text of a version gives that version back. */
  lemma ParseRender(v: Version)
    requires |v.release| > 0
    ensures Parse(Render(v)) == Some(v)
  {
    ParsePreOfText(v.pre);
    TextsJoin(v.release);
    ReleasePrefixOfGroups(Texts(v.release), PreText(v.pre));
  }

  /** A tag written as digit groups and a tail parses as the groups' values and the tail's marker. */
  lemma ParseOfGroups(ds: seq<string>, tail: string)
    requires |ds| > 0 && DigitGroups(ds)
    requires EndsRelease(tail)
    ensures Parse(JoinGroups(ds) + tail) ==
      if ParsePre(tail).None? then None else Some(Version(GroupValues(ds), ParsePre(tail).value))
  {
    ReleasePrefixOfGroups(ds, tail);
    var t := JoinGroups(ds) + tail;
    assert Parse(t) == ParseUnprefixed(t);
  }

  /** A leading v is ignored: v1.2 and 1.2 are the same version. */
  lemma LeadingVIgnored(s: string)
    requires s == [] || s[0] != 'v'
    ensures Parse("v" + s) == Parse(s)
  {
    assert ("v" + s)[1..] == s;
  }
}
