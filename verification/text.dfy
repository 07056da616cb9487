/**
  The string operations the publisher relies on: Java's null-and-empty test,
  string concatenation with a possibly-null left operand, the base name of a
  path (`java.io.File.getName` on a Unix file system) and `String.replace`,
  which replaces every occurrence of a target, left to right.
 */
module Text {
  import opened Wrappers

  /** `s != null && !s.isEmpty()` */
  predicate Present(s: Option<string>) {
    s.Some? && |s.value| > 0
  }

  /** What Java's `+` and `String.format("%s", …)` make of a possibly-null string. */
  function JavaString(s: Option<string>): string
  {
    s.GetOr("null")
  }

  // ---------------------------------------------------------------------------
  // Base name of a path

  /** `p` with every trailing '/' removed (the part of java.io.File's normalisation that `getName`'s result depends on). */
  function StripTrailingSlashes(p: string): (r: string)
    ensures r <= p
    ensures r == [] || r[|r| - 1] != '/'
    ensures forall k :: |r| <= k < |p| ==> p[k] == '/'
    decreases |p|
  {
    if |p| > 0 && p[|p| - 1] == '/' then StripTrailingSlashes(p[..|p| - 1]) else p
  }

  /** The longest suffix of `p` that holds no '/'. */
  function LastComponent(p: string): (r: string)
    ensures '/' !in r
    ensures |r| <= |p| && r == p[|p| - |r|..]
    ensures |r| == |p| || p[|p| - |r| - 1] == '/'
    decreases |p|
  {
    if |p| == 0 || p[|p| - 1] == '/' then ""
    else LastComponent(p[..|p| - 1]) + [p[|p| - 1]]
  }

  /** `new java.io.File(p).getName()` with '/' as the separator. */
  function BaseName(p: string): (r: string)
    ensures '/' !in r
  {
    LastComponent(StripTrailingSlashes(p))
  }

  /** A path without any '/' is its own base name. */
  lemma BaseNameOfPlainName(p: string)
    requires '/' !in p
    ensures BaseName(p) == p
  {
    assert StripTrailingSlashes(p) == p;
  }

  // ---------------------------------------------------------------------------
  // Occurrences, String.replace and its reference definition by splitting

  /** `pat` occurs in `s` at index `i`. */
  predicate OccursAt(s: string, pat: string, i: int) {
    0 <= i && i + |pat| <= |s| && s[i..i + |pat|] == pat
  }

  predicate Occurs(s: string, pat: string) {
    exists i :: 0 <= i <= |s| && OccursAt(s, pat, i)
  }

  /** An occurrence in a suffix of `s` is an occurrence in `s`. */
  lemma OccursInSuffix(s: string, pat: string, n: nat, i: int)
    requires n <= |s|
    ensures OccursAt(s[n..], pat, i) ==> OccursAt(s, pat, i + n)
  {
    if OccursAt(s[n..], pat, i) {
      assert s[i + n..i + n + |pat|] == s[n..][i..i + |pat|];
    }
  }

  /** `s.replace(pat, rep)`: every occurrence of `pat`, found left to right and
      without overlap, is replaced by `rep`. */
  function ReplaceAll(s: string, pat: string, rep: string): string
    requires |pat| > 0
    decreases |s|
  {
    if |s| < |pat| then s
    else if s[..|pat|] == pat then rep + ReplaceAll(s[|pat|..], pat, rep)
    else [s[0]] + ReplaceAll(s[1..], pat, rep)
  }

  /** `String.replace` leaves a string without the target as it is. */
  lemma {:induction false} ReplaceAllWithoutTarget(s: string, pat: string, rep: string)
    requires |pat| > 0
    requires !Occurs(s, pat)
    ensures ReplaceAll(s, pat, rep) == s
    decreases |s|
  {
    if |s| >= |pat| {
      assert !OccursAt(s, pat, 0);
      forall i | 0 <= i <= |s[1..]|
        ensures !OccursAt(s[1..], pat, i)
      {
        OccursInSuffix(s, pat, 1, i);
        assert !OccursAt(s, pat, i + 1);
      }
      ReplaceAllWithoutTarget(s[1..], pat, rep);
      assert [s[0]] + s[1..] == s;
    }
  }

  /** A leading occurrence is replaced. */
  lemma ReplaceAllHead(s: string, pat: string, rep: string)
    requires |pat| > 0
    ensures ReplaceAll(pat + s, pat, rep) == rep + ReplaceAll(s, pat, rep)
  {
    assert (pat + s)[..|pat|] == pat;
    assert (pat + s)[|pat|..] == s;
  }
  /** `parts` glued together with `sep` between neighbours. */
  function Join(parts: seq<string>, sep: string): string
    decreases |parts|
  {
    if |parts| == 0 then ""
    else if |parts| == 1 then parts[0]
    else parts[0] + sep + Join(parts[1..], sep)
  }

  /** The pieces of `s` between the occurrences of `pat` (left to right, no overlap). */
  function Split(s: string, pat: string): (r: seq<string>)
    requires |pat| > 0
    ensures |r| >= 1
    ensures r[0] <= s
    decreases |s|
  {
    if |s| < |pat| then [s]
    else if s[..|pat|] == pat then [""] + Split(s[|pat|..], pat)
    else
      var t := Split(s[1..], pat);
      [[s[0]] + t[0]] + t[1..]
  }

  lemma JoinExtendHead(a: string, t: seq<string>, sep: string)
    requires |t| >= 1
    ensures Join([a + t[0]] + t[1..], sep) == a + Join(t, sep)
  {
    var u := [a + t[0]] + t[1..];
    assert u[1..] == t[1..];
  }

  /** Gluing the pieces back together with `pat` gives back `s`. */
  lemma {:induction false} SplitJoin(s: string, pat: string)
    requires |pat| > 0
    ensures Join(Split(s, pat), pat) == s
    decreases |s|
  {
    if |s| < |pat| {
    } else if s[..|pat|] == pat {
      var t := Split(s[|pat|..], pat);
      var r := [""] + t;
      assert Split(s, pat) == r;
      assert r[0] == "" && r[1..] == t;
      SplitJoin(s[|pat|..], pat);
      assert Join(r, pat) == "" + pat + Join(t, pat);
      assert "" + pat + s[|pat|..] == s;
    } else {
      var t := Split(s[1..], pat);
      assert Split(s, pat) == [[s[0]] + t[0]] + t[1..];
      SplitJoin(s[1..], pat);
      JoinExtendHead([s[0]], t, pat);
      assert [s[0]] + s[1..] == s;
    }
  }

  /** No piece contains `pat`. */
  lemma {:induction false} SplitPartsFree(s: string, pat: string)
    requires |pat| > 0
    ensures forall k :: 0 <= k < |Split(s, pat)| ==> !Occurs(Split(s, pat)[k], pat)
    decreases |s|
  {
    var r := Split(s, pat);
    if |s| < |pat| {
    } else if s[..|pat|] == pat {
      var t := Split(s[|pat|..], pat);
      SplitPartsFree(s[|pat|..], pat);
      forall k | 0 < k < |r|
        ensures !Occurs(r[k], pat)
      {
        assert r[k] == t[k - 1];
      }
    } else {
      var t := Split(s[1..], pat);
      SplitPartsFree(s[1..], pat);
      forall k | 0 <= k < |r|
        ensures !Occurs(r[k], pat)
      {
        if k == 0 {
          var h := r[0];
          assert h == [s[0]] + t[0];
          if Occurs(h, pat) {
            var i :| 0 <= i <= |h| && OccursAt(h, pat, i);
            // an occurrence at the very start would have been a match of `s` itself
            assert i != 0;
            assert h[i..i + |pat|] == t[0][i - 1..i - 1 + |pat|];
            assert OccursAt(t[0], pat, i - 1);
            assert false;
          }
        } else {
          assert r[k] == t[k];
        }
      }
    }
  }

  /** `String.replace` is the split at `pat` glued back with `rep`. */
  lemma {:induction false} ReplaceAllIsJoin(s: string, pat: string, rep: string)
    requires |pat| > 0
    ensures ReplaceAll(s, pat, rep) == Join(Split(s, pat), rep)
    decreases |s|
  {
    if |s| < |pat| {
    } else if s[..|pat|] == pat {
      var t := Split(s[|pat|..], pat);
      ReplaceAllIsJoin(s[|pat|..], pat, rep);
      assert ([""] + t)[1..] == t;
    } else {
      var t := Split(s[1..], pat);
      ReplaceAllIsJoin(s[1..], pat, rep);
      JoinExtendHead([s[0]], t, rep);
    }
  }

  /** Changing the separator changes the length once per gap between pieces. */
  lemma {:induction false} JoinLengthDifference(parts: seq<string>, a: string, b: string)
    requires |parts| >= 1
    ensures |Join(parts, a)| - |Join(parts, b)| == (|parts| - 1) * (|a| - |b|)
    decreases |parts|
  {
    if |parts| > 1 {
      JoinLengthDifference(parts[1..], a, b);
    }
  }

  /** `s` holds `pat` exactly when splitting at `pat` yields more than one piece. */
  lemma OccursIffSeveralPieces(s: string, pat: string)
    requires |pat| > 0
    ensures Occurs(s, pat) <==> |Split(s, pat)| >= 2
  {
    var r := Split(s, pat);
    SplitJoin(s, pat);
    SplitPartsFree(s, pat);
    if |r| == 1 {
      assert Join(r, pat) == r[0];
    } else {
      assert s == r[0] + pat + Join(r[1..], pat);
      assert s[|r[0]|..|r[0]| + |pat|] == pat;
      assert OccursAt(s, pat, |r[0]|);
    }
  }

  /** Replacing `pat` by itself changes nothing. */
  lemma ReplaceAllIdentity(s: string, pat: string)
    requires |pat| > 0
    ensures ReplaceAll(s, pat, pat) == s
  {
    ReplaceAllIsJoin(s, pat, pat);
    SplitJoin(s, pat);
  }

  /** Prefixing each occurrence with `extra` adds `|extra|` once per gap between pieces. */
  lemma ReplaceAllLength(s: string, pat: string, extra: string)
    requires |pat| > 0
    ensures |ReplaceAll(s, pat, extra + pat)| == |s| + (|Split(s, pat)| - 1) * |extra|
  {
    var parts := Split(s, pat);
    var rep := extra + pat;
    ReplaceAllIsJoin(s, pat, rep);
    SplitJoin(s, pat);
    JoinLengthDifference(parts, rep, pat);
    assert |rep| - |pat| == |extra|;
  }

  /** Prefixing each occurrence with a non-empty `extra` lengthens a string that holds `pat`. */
  lemma ReplaceAllGrows(s: string, pat: string, extra: string)
    requires |pat| > 0 && |extra| > 0
    requires Occurs(s, pat)
    ensures |ReplaceAll(s, pat, extra + pat)| > |s|
  {
    var n := |Split(s, pat)| - 1;
    OccursIffSeveralPieces(s, pat);
    ReplaceAllLength(s, pat, extra);
    AtLeastOnce(n, |extra|);
  }

  /** Adding `d` at least once adds at least `d`. */
  lemma AtLeastOnce(n: int, d: int)
    requires n >= 1 && d >= 0
    ensures n * d >= d
  {
  }
}
