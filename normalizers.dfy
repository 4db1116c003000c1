/**
 * The tag-name normalisers of the Go and Docker checkers: total functions
 * from a raw tag name to the text handed to the version parser.
 */
module Normalizers {
  import opened Strings

  /** s without the leading p, or s itself when it does not start with p. */
  function RemovePrefix(s: string, p: string): (r: string)
    ensures HasPrefix(s, p) ==> s == p + r
    ensures !HasPrefix(s, p) ==> r == s
  {
    if HasPrefix(s, p) then
      assert s == s[..|p|] + s[|p|..];
      s[|p|..]
    else s
  }

  /** GoVersionChecker._normalize_tag_name: strips the prefix "go" (go1.8 -> 1.8). */
  function GoNormalize(name: string): (r: string)
    ensures HasPrefix(name, "go") ==> name == "go" + r
    ensures !HasPrefix(name, "go") ==> r == name
  {
    RemovePrefix(name, "go")
  }

  /** s.count(p): occurrences of p found scanning left to right, none overlapping. */
  function Count(s: string, p: string): nat
    requires p != []
  {
    if s == [] then 0
    else if HasPrefix(s, p) then 1 + Count(s[|p|..], p)
    else Count(s[1..], p)
  }

  /** s.replace(p, ""): every occurrence Count finds is cut out, the rest kept in order. */
  function RemoveAll(s: string, p: string): (r: string)
    requires p != []
    ensures |r| == |s| - |p| * Count(s, p)
  {
    if s == [] then []
    else if HasPrefix(s, p) then
      assert |p| * Count(s, p) == |p| + |p| * Count(s[|p|..], p);
      RemoveAll(s[|p|..], p)
    else
      assert Count(s, p) == Count(s[1..], p);
      [s[0]] + RemoveAll(s[1..], p)
  }

  /** There is nothing to count exactly when p does not occur: count and `in` agree. */
  lemma {:induction false} CountZeroIffAbsent(s: string, p: string)
    requires p != []
    ensures Count(s, p) == 0 <==> !Contains(s, p)
  {
    if s != [] {
      if HasPrefix(s, p) {
        assert OccursAt(s, p, 0);
      } else {
        CountZeroIffAbsent(s[1..], p);
        forall i | OccursAt(s[1..], p, i) ensures OccursAt(s, p, i + 1) {
          assert s[i + 1..i + 1 + |p|] == s[1..][i..i + |p|];
        }
        forall i | 0 <= i <= |s| && OccursAt(s, p, i) ensures i > 0 && OccursAt(s[1..], p, i - 1) {
          assert s[1..][i - 1..i - 1 + |p|] == s[i..i + |p|];
        }
      }
    }
  }

  /** Removing an absent substring changes nothing. */
  lemma {:induction false} RemoveAllAbsent(s: string, p: string)
    requires p != [] && !Contains(s, p)
    ensures RemoveAll(s, p) == s
  {
    CountZeroIffAbsent(s, p);
    if s != [] {
      assert !HasPrefix(s, p) by {
        assert !OccursAt(s, p, 0);
      }
      assert !Contains(s[1..], p) by {
        CountZeroIffAbsent(s[1..], p);
      }
      RemoveAllAbsent(s[1..], p);
    }
  }

  /** DockerVersionChecker._normalize_tag_name: drops every "-ce" (v17.03.0-ce -> v17.03.0). */
  function DockerNormalize(name: string): (r: string)
    ensures |r| == |name| - 3 * Count(name, "-ce")
    ensures !Contains(name, "-ce") ==> r == name
  {
    if Contains(name, "-ce") then RemoveAll(name, "-ce")
    else
      CountZeroIffAbsent(name, "-ce");
      name
  }

  /** The membership guard in front of replace only saves work: the result is replace's. */
  lemma DockerIsReplace(name: string)
    ensures DockerNormalize(name) == RemoveAll(name, "-ce")
  {
    if !Contains(name, "-ce") {
      RemoveAllAbsent(name, "-ce");
    }
  }

  /** The Docker normaliser never lengthens a name and shortens exactly the names holding "-ce". */
  lemma DockerShortens(name: string)
    ensures |DockerNormalize(name)| <= |name|
    ensures |DockerNormalize(name)| < |name| <==> Contains(name, "-ce")
  {
    CountZeroIffAbsent(name, "-ce");
  }

  /** The Go docstring example, go1.8 -> 1.8. */
  lemma GoExample()
    ensures GoNormalize("go1.8") == "1.8"
  {
  }

  /** A tag without the prefix is left alone. */
  lemma GoWithoutPrefix()
    ensures GoNormalize("1.8") == "1.8"
  {
    assert "1.8"[..2] == "1.";
  }

  /** A run of text in which p cannot start is kept as it is. */
  lemma {:induction false} RemoveAllSkipsRun(a: string, rest: string, p: string)
    requires p != []
    requires forall i | 0 <= i < |a| :: a[i] != p[0]
    ensures RemoveAll(a + rest, p) == a + RemoveAll(rest, p)
    decreases |a|
  {
    if a != [] {
      var s := a + rest;
      assert !HasPrefix(s, p) by {
        if |p| <= |s| {
          assert s[..|p|][0] == a[0];
        }
      }
      assert s[1..] == a[1..] + rest;
      RemoveAllSkipsRun(a[1..], rest, p);
    } else {
      assert a + rest == rest;
    }
  }

  /** "-ce" overlaps no shifted copy of itself, so a start that fails inside a still fails after "-ce" is appended. */
  lemma NoMarkAcross(a: string, b: string)
    requires a != [] && !HasPrefix(a, "-ce")
    ensures !HasPrefix(a + "-ce" + b, "-ce")
  {
    var s := a + "-ce" + b;
    if |a| >= 3 {
      assert s[..3] == a[..3];
    } else if |a| == 2 {
      assert s[..3][2] == '-' != "-ce"[2];
    } else {
      assert s[..3][1] == '-' != "-ce"[1];
    }
  }

  /** replace("-ce", "") cuts at every "-ce": the text on each side is cleaned on its own. */
  lemma {:induction false} RemoveAllSplits(a: string, b: string)
    ensures RemoveAll(a + "-ce" + b, "-ce") == RemoveAll(a, "-ce") + RemoveAll(b, "-ce")
    decreases |a|
  {
    var s := a + "-ce" + b;
    if a == [] {
      assert s[..3] == "-ce" && s[3..] == b;
    } else if HasPrefix(a, "-ce") {
      assert s[..3] == a[..3];
      assert s[3..] == a[3..] + "-ce" + b;
      calc {
        RemoveAll(s, "-ce");
        RemoveAll(a[3..] + "-ce" + b, "-ce");
        { RemoveAllSplits(a[3..], b); }
        RemoveAll(a[3..], "-ce") + RemoveAll(b, "-ce");
      }
    } else {
      NoMarkAcross(a, b);
      assert s[0] == a[0] && s[1..] == a[1..] + "-ce" + b;
      calc {
        RemoveAll(s, "-ce");
        [a[0]] + RemoveAll(a[1..] + "-ce" + b, "-ce");
        { RemoveAllSplits(a[1..], b); }
        [a[0]] + RemoveAll(a[1..], "-ce") + RemoveAll(b, "-ce");
      }
    }
  }

  /** The Docker normaliser on a name with a "-ce" in it: each side is normalised on its own. */
  lemma DockerSplits(a: string, b: string)
    ensures DockerNormalize(a + "-ce" + b) == DockerNormalize(a) + DockerNormalize(b)
  {
    DockerIsReplace(a + "-ce" + b);
    DockerIsReplace(a);
    DockerIsReplace(b);
    RemoveAllSplits(a, b);
  }

  /** The Docker docstring example, v17.03.0-ce -> v17.03.0. */
  lemma DockerExample()
    ensures DockerNormalize("v17.03.0-ce") == "v17.03.0"
  {
    var name := "v17.03.0-ce";
    assert name == "v17.03.0" + "-ce";
    assert OccursAt(name, "-ce", 8);
    RemoveAllSkipsRun("v17.03.0", "-ce", "-ce");
    assert RemoveAll("-ce", "-ce") == "";
  }

  /** The Docker normaliser is not idempotent: one pass over "--cece" leaves "-ce". */
  lemma DockerNotIdempotent()
    ensures DockerNormalize("--cece") == "-ce"
    ensures DockerNormalize(DockerNormalize("--cece")) == ""
  {
    assert OccursAt("--cece", "-ce", 1);
    assert OccursAt("-ce", "-ce", 0);
    assert "--cece"[..3] == "--c" && "--cece"[1..] == "-cece";
    assert "-cece"[..3] == "-ce" && "-cece"[3..] == "ce";
    assert RemoveAll("ce", "-ce") == "ce";
  }
}
