/**
 * The selectors of the base version checker: the latest release, and the
 * latest release of every major line and of every "major.minor" line, all
 * computed from what get_versions returns. Pre-releases are never selected.
 */
module Selection {
  import opened Results
  import opened Versions

  /** The order get_versions must deliver: no version above the one before it. */
  predicate Descending(vs: seq<Version>) {
    forall i | 0 < i < |vs| :: !Less(vs[i - 1], vs[i])
  }

  /** In descending input every version is at or below every earlier one. */
  lemma {:induction false} DescendingEverywhere(vs: seq<Version>, i: nat, j: nat)
    requires Descending(vs) && i <= j < |vs|
    ensures LessEq(vs[j], vs[i])
    decreases j - i
  {
    if i == j {
      CompareReflexive(vs[i]);
    } else {
      DescendingEverywhere(vs, i, j - 1);
      CompareTotal(vs[j - 1], vs[j]);
      CompareTransitive(vs[j], vs[j - 1], vs[i]);
    }
  }

  predicate HasRelease(vs: seq<Version>) {
    exists i | 0 <= i < |vs| :: !IsPreRelease(vs[i])
  }

  /** w is a final release of vs and no final release of vs is above it. */
  predicate IsGreatestRelease(vs: seq<Version>, w: Version) {
    && w in vs
    && !IsPreRelease(w)
    && forall i | 0 <= i < |vs| && !IsPreRelease(vs[i]) :: LessEq(vs[i], w)
  }

  /** No two versions level: every version strictly below the one before it. */
  predicate StrictlyDescending(vs: seq<Version>) {
    forall i | 0 < i < |vs| :: Less(vs[i], vs[i - 1])
  }

  lemma LessTransitive(a: Version, b: Version, c: Version)
    requires Less(a, b) && LessEq(b, c)
    ensures Less(a, c)
  {
    CompareTransitive(a, b, c);
    if Compare(a, c) == 0 {
      CompareAntisymmetric(a, c);
      CompareTransitive(b, c, a);
      CompareAntisymmetric(a, b);
    }
  }

  lemma {:induction false} StrictlyDescendingEverywhere(vs: seq<Version>, i: nat, j: nat)
    requires StrictlyDescending(vs) && i < j < |vs|
    ensures Less(vs[j], vs[i])
    decreases j - i
  {
    if j > i + 1 {
      StrictlyDescendingEverywhere(vs, i, j - 1);
      LessTransitive(vs[j], vs[j - 1], vs[i]);
    }
  }

  lemma StrictlyDescendingIsDescending(vs: seq<Version>)
    requires StrictlyDescending(vs)
    ensures Descending(vs)
  {
    forall i | 0 < i < |vs| ensures !Less(vs[i - 1], vs[i]) {
      CompareAntisymmetric(vs[i - 1], vs[i]);
    }
  }

  /** The greatest version of a strictly descending sequence opens every descending rearrangement of it. */
  lemma DescendingHeadsAgree(vs: seq<Version>, ws: seq<Version>)
    requires StrictlyDescending(vs) && Descending(ws) && multiset(vs) == multiset(ws) && vs != []
    ensures ws != [] && ws[0] == vs[0]
  {
    assert |ws| == |multiset(ws)| == |multiset(vs)| == |vs|;
    assert ws[0] in multiset(vs);
    var j :| 0 <= j < |vs| && vs[j] == ws[0];
    assert vs[0] in multiset(ws);
    var k :| 0 <= k < |ws| && ws[k] == vs[0];
    DescendingEverywhere(ws, 0, k);
    if j > 0 {
      StrictlyDescendingEverywhere(vs, 0, j);
      CompareAntisymmetric(vs[j], vs[0]);
    }
  }

  lemma MultisetTails(x: Version, a: seq<Version>, b: seq<Version>)
    requires multiset([x] + a) == multiset([x] + b)
    ensures multiset(a) == multiset(b)
  {
    assert multiset([x] + a) == multiset([x]) + multiset(a);
    assert multiset([x] + b) == multiset([x]) + multiset(b);
    forall y ensures multiset(a)[y] == multiset(b)[y] {
      assert multiset([x] + a)[y] == multiset([x])[y] + multiset(a)[y];
      assert multiset([x] + b)[y] == multiset([x])[y] + multiset(b)[y];
    }
  }

  lemma {:induction false} DescendingRearrangementIsSame(vs: seq<Version>, ws: seq<Version>)
    requires StrictlyDescending(vs) && Descending(ws) && multiset(vs) == multiset(ws)
    ensures ws == vs
    decreases |vs|
  {
    if vs == [] {
      assert |ws| == |multiset(ws)| == 0;
    } else {
      DescendingHeadsAgree(vs, ws);
      var vr, wr := vs[1..], ws[1..];
      assert vs == [vs[0]] + vr && ws == [vs[0]] + wr;
      MultisetTails(vs[0], vr, wr);
      assert StrictlyDescending(vr) by {
        assert forall i | 0 <= i < |vr| :: vr[i] == vs[i + 1];
      }
      assert Descending(wr) by {
        assert forall i | 0 <= i < |wr| :: wr[i] == ws[i + 1];
      }
      DescendingRearrangementIsSame(vr, wr);
    }
  }

  /**
   * When no two versions are level, the descending order is the only
   * arrangement the grouping selectors accept: every other one is refused.
   */
  lemma DescendingArrangementUnique(vs: seq<Version>, ws: seq<Version>)
    requires StrictlyDescending(vs) && multiset(vs) == multiset(ws)
    ensures Descending(ws) <==> ws == vs
  {
    if Descending(ws) {
      DescendingRearrangementIsSame(vs, ws);
    } else if ws == vs {
      StrictlyDescendingIsDescending(vs);
    }
  }

  // ---------------------------------------------------------------- latest

  /** The first of the greatest final releases of vs. */
  function GreatestRelease(vs: seq<Version>): Option<Version> {
    if vs == [] then None
    else
      var rest := GreatestRelease(vs[1..]);
      if IsPreRelease(vs[0]) then rest
      else if rest.None? || LessEq(rest.value, vs[0]) then Some(vs[0])
      else rest
  }

  lemma {:induction false} GreatestReleaseIsGreatest(vs: seq<Version>)
    ensures GreatestRelease(vs).Some? <==> HasRelease(vs)
    ensures GreatestRelease(vs).Some? ==> IsGreatestRelease(vs, GreatestRelease(vs).value)
  {
    if vs != [] {
      var rest := vs[1..];
      GreatestReleaseIsGreatest(rest);
      assert forall i | 0 < i < |vs| :: vs[i] == rest[i - 1];
      if !IsPreRelease(vs[0]) {
        var r := GreatestRelease(rest);
        if r.Some? {
          CompareTotal(r.value, vs[0]);
          forall i | 0 <= i < |vs| && !IsPreRelease(vs[i])
            ensures LessEq(vs[i], GreatestRelease(vs).value)
          {
            if i == 0 {
              CompareReflexive(vs[0]);
            } else if LessEq(r.value, vs[0]) {
              CompareTransitive(vs[i], r.value, vs[0]);
            }
          }
        } else {
          CompareReflexive(vs[0]);
        }
      }
    }
  }

  /** The first final release of vs, the answer when vs is descending. */
  function FirstRelease(vs: seq<Version>): Option<Version> {
    if vs == [] then None
    else if IsPreRelease(vs[0]) then FirstRelease(vs[1..])
    else Some(vs[0])
  }

  /** On descending input the greatest release is simply the first one. */
  lemma {:induction false} DescendingGreatestIsFirst(vs: seq<Version>)
    requires Descending(vs)
    ensures GreatestRelease(vs) == FirstRelease(vs)
  {
    if vs != [] {
      var rest := vs[1..];
      assert Descending(rest) by {
        assert forall i | 0 <= i < |rest| :: rest[i] == vs[i + 1];
      }
      DescendingGreatestIsFirst(rest);
      if !IsPreRelease(vs[0]) {
        GreatestReleaseIsGreatest(rest);
        var r := GreatestRelease(rest);
        if r.Some? {
          var j :| 0 <= j < |rest| && rest[j] == r.value;
          DescendingEverywhere(vs, 0, j + 1);
        }
      }
    }
  }

  /** Where several final releases are level, the greatest release is the first of them. */
  lemma {:induction false} GreatestReleaseIsFirstGreatest(vs: seq<Version>)
    ensures GreatestRelease(vs).Some? ==>
      exists i | 0 <= i < |vs| :: vs[i] == GreatestRelease(vs).value &&
        forall j | 0 <= j < i && !IsPreRelease(vs[j]) :: Less(vs[j], vs[i])
  {
    if vs != [] {
      var rest := vs[1..];
      GreatestReleaseIsFirstGreatest(rest);
      var r := GreatestRelease(rest);
      if r.Some? && (IsPreRelease(vs[0]) || !LessEq(r.value, vs[0])) {
        var i' :| 0 <= i' < |rest| && rest[i'] == r.value &&
          forall j | 0 <= j < i' && !IsPreRelease(rest[j]) :: Less(rest[j], rest[i']);
        CompareTotal(vs[0], r.value);
        forall j | 0 <= j < i' + 1 && !IsPreRelease(vs[j]) ensures Less(vs[j], vs[i' + 1]) {
          assert vs[i' + 1] == rest[i'];
          if j > 0 {
            assert vs[j] == rest[j - 1];
          }
        }
      } else if GreatestRelease(vs).Some? {
        assert vs[0] == GreatestRelease(vs).value;
      }
    }
  }

  /** The latest release as text; pre-releases are skipped, and ties go to the earliest. */
  function Latest(vs: seq<Version>): (r: Result<string>)
    ensures r.Err? <==> !HasRelease(vs)
    ensures r.Err? ==> r.error == NoVersionsFound
    ensures r.Ok? ==> exists i | 0 <= i < |vs| ::
      && IsGreatestRelease(vs, vs[i])
      && r.value == Render(vs[i])
      && forall j | 0 <= j < i && !IsPreRelease(vs[j]) :: Less(vs[j], vs[i])
  {
    GreatestReleaseIsGreatest(vs);
    GreatestReleaseIsFirstGreatest(vs);
    match GreatestRelease(vs)
    case None => Err(NoVersionsFound)
    case Some(w) => Ok(Render(w))
  }

  lemma GreatestIsAbove(vs: seq<Version>, w: Version, x: Version)
    requires IsGreatestRelease(vs, w) && x in vs && !IsPreRelease(x)
    ensures LessEq(x, w)
  {
    var i :| 0 <= i < |vs| && vs[i] == x;
  }

  /** Inputs holding the same versions in any order pick the same latest version, up to 1.0 == 1.0.0. */
  lemma LatestOrderIndependent(vs: seq<Version>, ws: seq<Version>)
    requires multiset(vs) == multiset(ws)
    ensures GreatestRelease(vs).Some? <==> GreatestRelease(ws).Some?
    ensures GreatestRelease(vs).Some? ==> Equivalent(GreatestRelease(vs).value, GreatestRelease(ws).value)
  {
    GreatestReleaseIsGreatest(vs);
    GreatestReleaseIsGreatest(ws);
    forall v ensures v in vs <==> v in ws {
      assert v in vs <==> v in multiset(vs);
      assert v in ws <==> v in multiset(ws);
    }
    if HasRelease(vs) {
      var i :| 0 <= i < |vs| && !IsPreRelease(vs[i]);
      assert vs[i] in ws;
      var j :| 0 <= j < |ws| && ws[j] == vs[i];
    }
    if HasRelease(vs) && HasRelease(ws) {
      var a, b := GreatestRelease(vs).value, GreatestRelease(ws).value;
      GreatestIsAbove(ws, b, a);
      GreatestIsAbove(vs, a, b);
      CompareAntisymmetric(a, b);
    }
  }

  // ---------------------------------------------------------------- grouped

  datatype Grouping = ByMajor | ByMinor

  function GroupKey(g: Grouping, v: Version): string {
    match g
    case ByMajor => MajorKey(v)
    case ByMinor => MinorKey(v)
  }

  predicate InGroup(vs: seq<Version>, g: Grouping, k: string, i: int) {
    0 <= i < |vs| && !IsPreRelease(vs[i]) && GroupKey(g, vs[i]) == k
  }

  /** One step of the reference fold: v replaces its group's entry unless that entry is above it. */
  function Record(m: map<string, Version>, v: Version, g: Grouping): map<string, Version> {
    var k := GroupKey(g, v);
    if IsPreRelease(v) then m
    else if k !in m || LessEq(m[k], v) then m[k := v]
    else m
  }

  /** For each key, the first of the greatest final releases with that key. */
  function GreatestByKey(vs: seq<Version>, g: Grouping): map<string, Version> {
    if vs == [] then map[] else Record(GreatestByKey(vs[1..], g), vs[0], g)
  }

  /** One step of the scan: v opens its group if the group is new, else is ignored. */
  function FirstSeen(m: map<string, Version>, v: Version, g: Grouping): map<string, Version> {
    if IsPreRelease(v) || GroupKey(g, v) in m then m else m[GroupKey(g, v) := v]
  }

  /** A key is present exactly when some final release has it. */
  lemma {:induction false} GreatestByKeyKeys(vs: seq<Version>, g: Grouping, k: string)
    ensures k in GreatestByKey(vs, g) <==> exists i :: InGroup(vs, g, k, i)
  {
    if vs != [] {
      var rest := vs[1..];
      GreatestByKeyKeys(rest, g, k);
      assert GreatestByKey(vs, g) == Record(GreatestByKey(rest, g), vs[0], g);
      if k in GreatestByKey(vs, g) && k !in GreatestByKey(rest, g) {
        assert InGroup(vs, g, k, 0);
      }
      if exists i :: InGroup(rest, g, k, i) {
        var j :| InGroup(rest, g, k, j);
        assert InGroup(vs, g, k, j + 1);
      }
      if exists i :: InGroup(vs, g, k, i) {
        var j :| InGroup(vs, g, k, j);
        if j > 0 {
          assert InGroup(rest, g, k, j - 1);
        } else {
          assert !IsPreRelease(vs[0]) && GroupKey(g, vs[0]) == k;
        }
      }
    }
  }

  /** The grouped result is empty exactly when the input holds no final release. */
  lemma GreatestByKeyEmpty(vs: seq<Version>, g: Grouping)
    ensures GreatestByKey(vs, g) == map[] <==> !HasRelease(vs)
  {
    if HasRelease(vs) {
      var i :| 0 <= i < |vs| && !IsPreRelease(vs[i]);
      GreatestByKeyKeys(vs, g, GroupKey(g, vs[i]));
      assert InGroup(vs, g, GroupKey(g, vs[i]), i);
    } else {
      forall k ensures k !in GreatestByKey(vs, g) {
        GreatestByKeyKeys(vs, g, k);
      }
    }
  }

  /** The version a key maps to is a final release with that key, and no such release is above it. */
  lemma {:induction false} GreatestByKeyValue(vs: seq<Version>, g: Grouping, k: string)
    requires k in GreatestByKey(vs, g)
    ensures exists i :: InGroup(vs, g, k, i) && vs[i] == GreatestByKey(vs, g)[k]
    ensures forall i | InGroup(vs, g, k, i) :: LessEq(vs[i], GreatestByKey(vs, g)[k])
  {
    var rest := vs[1..];
    var m := GreatestByKey(rest, g);
    var v := vs[0];
    var w := GreatestByKey(vs, g)[k];
    GreatestByKeyKeys(rest, g, k);
    if k in m {
      GreatestByKeyValue(rest, g, k);
      var j :| InGroup(rest, g, k, j) && rest[j] == m[k];
      assert InGroup(vs, g, k, j + 1);
    }
    if !IsPreRelease(v) && GroupKey(g, v) == k && (k !in m || LessEq(m[k], v)) {
      assert w == v && InGroup(vs, g, k, 0);
      forall i | InGroup(vs, g, k, i) ensures LessEq(vs[i], w) {
        if i == 0 {
          CompareReflexive(v);
        } else {
          assert InGroup(rest, g, k, i - 1);
          CompareTransitive(vs[i], m[k], v);
        }
      }
    } else {
      assert w == m[k];
      forall i | InGroup(vs, g, k, i) ensures LessEq(vs[i], w) {
        if i == 0 {
          CompareTotal(m[k], v);
        } else {
          assert InGroup(rest, g, k, i - 1);
        }
      }
    }
  }

  /** Updates at two different keys can be made in either order. */
  lemma UpdatesCommute(m: map<string, Version>, a: string, x: Version, b: string, y: Version)
    requires a != b
    ensures m[a := x][b := y] == m[b := y][a := x]
  {
  }

  /** The commutation below when v opens a group that x then takes over. */
  lemma CommuteSameGroup(m: map<string, Version>, x: Version, v: Version, g: Grouping)
    requires LessEq(v, x) && !IsPreRelease(v) && !IsPreRelease(x)
    requires GroupKey(g, v) !in m && GroupKey(g, x) == GroupKey(g, v)
    ensures Record(FirstSeen(m, v, g), x, g) == FirstSeen(Record(m, x, g), v, g)
  {
    var k := GroupKey(g, v);
    assert Record(m[k := v], x, g) == m[k := x];
  }

  /** The commutation below when v opens a group other than x's. */
  lemma CommuteOtherGroup(m: map<string, Version>, x: Version, v: Version, g: Grouping)
    requires !IsPreRelease(v) && !IsPreRelease(x)
    requires GroupKey(g, v) !in m && GroupKey(g, x) != GroupKey(g, v)
    ensures Record(FirstSeen(m, v, g), x, g) == FirstSeen(Record(m, x, g), v, g)
  {
    var kv, kx := GroupKey(g, v), GroupKey(g, x);
    var first := m[kv := v];
    assert (kx in first <==> kx in m) && (kx in m ==> first[kx] == m[kx]);
    if kx !in m || LessEq(m[kx], x) {
      assert Record(first, x, g) == first[kx := x];
      UpdatesCommute(m, kv, v, kx, x);
    }
  }

  /** Recording x and then a version v at or below it is the same as the other way round. */
  lemma RecordFirstSeenCommute(m: map<string, Version>, x: Version, v: Version, g: Grouping)
    requires LessEq(v, x)
    ensures Record(FirstSeen(m, v, g), x, g) == FirstSeen(Record(m, x, g), v, g)
  {
    if !IsPreRelease(v) && !IsPreRelease(x) && GroupKey(g, v) !in m {
      if GroupKey(g, x) == GroupKey(g, v) {
        CommuteSameGroup(m, x, v, g);
      } else {
        CommuteOtherGroup(m, x, v, g);
      }
    }
  }

  /** Adding a version below all others changes the group maxima only by opening a new group. */
  lemma {:induction false} GreatestByKeySnoc(vs: seq<Version>, v: Version, g: Grouping)
    requires Descending(vs + [v])
    ensures GreatestByKey(vs + [v], g) == FirstSeen(GreatestByKey(vs, g), v, g)
    decreases |vs|
  {
    var s := vs + [v];
    if vs == [] {
      assert s[1..] == [];
    } else {
      var rest := vs[1..];
      assert s[1..] == rest + [v];
      assert Descending(rest + [v]) by {
        assert forall i | 0 <= i < |rest| + 1 :: (rest + [v])[i] == s[i + 1];
      }
      GreatestByKeySnoc(rest, v, g);
      DescendingEverywhere(s, 0, |vs|);
      RecordFirstSeenCommute(GreatestByKey(rest, g), vs[0], v, g);
    }
  }

  /** Renders every selected version: the map the selectors return. */
  function RenderAll(m: map<string, Version>): (r: map<string, string>)
    ensures r.Keys == m.Keys
    ensures forall k | k in m :: r[k] == Render(m[k])
  {
    map k | k in m :: Render(m[k])
  }

  lemma RenderAllUpdate(m: map<string, Version>, k: string, v: Version)
    ensures RenderAll(m[k := v]) == RenderAll(m)[k := Render(v)]
  {
  }

  /** A version above its predecessor makes the whole list unsorted. */
  lemma UnsortedAt(vs: seq<Version>, i: nat)
    requires 0 < i < |vs| && Less(vs[i - 1], vs[i])
    ensures !Descending(vs)
  {
  }

  /** One step of the scan: the sorted prefix grows by vs[i] and its maxima by first sight. */
  lemma ScanStep(vs: seq<Version>, i: nat, g: Grouping)
    requires i < |vs| && Descending(vs[..i])
    requires i == 0 || !Less(vs[i - 1], vs[i])
    ensures Descending(vs[..i + 1])
    ensures GreatestByKey(vs[..i + 1], g) == FirstSeen(GreatestByKey(vs[..i], g), vs[i], g)
  {
    var done, next := vs[..i], vs[..i + 1];
    assert next == done + [vs[i]];
    forall j | 0 < j < i + 1 ensures !Less(next[j - 1], next[j]) {
      if j < i {
        assert next[j - 1] == done[j - 1] && next[j] == done[j];
      }
    }
    GreatestByKeySnoc(done, vs[i], g);
  }

  /**
   * The grouping scan: walks the versions once, fails as soon as one is above
   * its predecessor, and records the first final release seen for each key.
   */
  method GroupScan(vs: seq<Version>, g: Grouping) returns (r: Result<map<string, string>>)
    ensures r.Err? <==> !Descending(vs)
    ensures r.Err? ==> r.error == UnsortedVersions
    ensures r.Ok? ==> r.value == RenderAll(GreatestByKey(vs, g))
  {
    var latest: map<string, string> := map[];
    ghost var seen: map<string, Version> := map[];
    var i := 0;
    while i < |vs|
      invariant 0 <= i <= |vs|
      invariant Descending(vs[..i])
      invariant seen == GreatestByKey(vs[..i], g)
      invariant latest == RenderAll(seen)
    {
      var v := vs[i];
      if i > 0 && Less(vs[i - 1], v) {
        UnsortedAt(vs, i);
        return Err(UnsortedVersions);
      }
      ScanStep(vs, i, g);
      if !IsPreRelease(v) {
        var k := GroupKey(g, v);
        if k !in latest {
          RenderAllUpdate(seen, k, v);
          latest := latest[k := Render(v)];
        }
      }
      seen := FirstSeen(seen, v, g);
      i := i + 1;
    }
    assert vs[..i] == vs;
    return Ok(latest);
  }

  /**
   * The grouping selectors: the scan's answer, except that a sorted input
   * without any final release finds no versions.
   */
  method LatestGrouped(vs: seq<Version>, g: Grouping) returns (r: Result<map<string, string>>)
    ensures r.Err? <==> !Descending(vs) || !HasRelease(vs)
    ensures !Descending(vs) ==> r == Err(UnsortedVersions)
    ensures Descending(vs) && !HasRelease(vs) ==> r == Err(NoVersionsFound)
    ensures r.Ok? ==> r.value == RenderAll(GreatestByKey(vs, g))
  {
    r := GroupScan(vs, g);
    if r.Ok? {
      GreatestByKeyEmpty(vs, g);
      if r.value == map[] {
        r := Err(NoVersionsFound);
      }
    }
  }

  /** get_latest_major_versions: the latest release of every major line. */
  method LatestMajorVersions(vs: seq<Version>) returns (r: Result<map<string, string>>)
    ensures r.Err? <==> !Descending(vs) || !HasRelease(vs)
    ensures !Descending(vs) ==> r == Err(UnsortedVersions)
    ensures Descending(vs) && !HasRelease(vs) ==> r == Err(NoVersionsFound)
    ensures r.Ok? ==> r.value == RenderAll(GreatestByKey(vs, ByMajor))
  {
    r := LatestGrouped(vs, ByMajor);
  }

  /** get_latest_minor_versions: the latest release of every "major.minor" line. */
  method LatestMinorVersions(vs: seq<Version>) returns (r: Result<map<string, string>>)
    ensures r.Err? <==> !Descending(vs) || !HasRelease(vs)
    ensures !Descending(vs) ==> r == Err(UnsortedVersions)
    ensures Descending(vs) && !HasRelease(vs) ==> r == Err(NoVersionsFound)
    ensures r.Ok? ==> r.value == RenderAll(GreatestByKey(vs, ByMinor))
  {
    r := LatestGrouped(vs, ByMinor);
  }
}
