/** The two string primitives `replaceUrl` is built from:
    `String.prototype.includes` and `String.prototype.replace` with a
    string pattern, which replaces only the FIRST occurrence. */
module Text {
  import opened Wrappers

  /** `p` occurs in `s` starting at index `i`. */
  predicate OccursAt(s: string, p: string, i: nat) {
    i + |p| <= |s| && s[i..i + |p|] == p
  }

  /** `i` is the leftmost occurrence of `p` in `s`. */
  ghost predicate FirstOccurrence(s: string, p: string, i: nat) {
    OccursAt(s, p, i) && forall j: nat :: j < i ==> !OccursAt(s, p, j)
  }

  /** The leftmost index at or after `from` where `p` occurs in `s`. */
  function IndexOfFrom(s: string, p: string, from: nat): (r: Option<nat>)
    ensures r.Some? ==> from <= r.value && OccursAt(s, p, r.value)
    ensures r.Some? ==> forall j: nat :: from <= j < r.value ==> !OccursAt(s, p, j)
    ensures r.None? ==> forall j: nat :: from <= j ==> !OccursAt(s, p, j)
    decreases |s| - from
  {
    if |s| < from + |p| then None
    else if s[from..from + |p|] == p then Some(from)
    else IndexOfFrom(s, p, from + 1)
  }

  /** `String.prototype.indexOf(p)`, with -1 as None. */
  function IndexOf(s: string, p: string): (r: Option<nat>)
    ensures r.Some? ==> FirstOccurrence(s, p, r.value)
    ensures r.None? ==> forall j: nat :: !OccursAt(s, p, j)
  {
    IndexOfFrom(s, p, 0)
  }

  /** `String.prototype.includes(p)`. */
  predicate Includes(s: string, p: string) {
    IndexOf(s, p).Some?
  }

  /** `Includes` holds exactly when some occurrence exists. */
  lemma IncludesIff(s: string, p: string)
    ensures Includes(s, p) <==> exists i: nat :: OccursAt(s, p, i)
  {
    if Includes(s, p) {
      assert OccursAt(s, p, IndexOf(s, p).value);
    }
  }

  /** `String.prototype.replace(p, t)` for a string pattern `p` and a
      replacement `t` without `$` substitution patterns: the leftmost
      occurrence of `p` is replaced by `t`; no occurrence, no change. */
  function ReplaceFirst(s: string, p: string, t: string): (r: string)
    ensures !Includes(s, p) ==> r == s
    ensures forall i: nat :: FirstOccurrence(s, p, i) ==> r == s[..i] + t + s[i + |p|..]
  {
    match IndexOf(s, p)
    case None => s
    case Some(i) => s[..i] + t + s[i + |p|..]
  }

  /** Whatever occurs in the replacement text occurs in the result of a
      replacement that happened. */
  lemma ReplaceFirstKeeps(s: string, p: string, t: string, q: string)
    requires Includes(s, p) && Includes(t, q)
    ensures Includes(ReplaceFirst(s, p, t), q)
  {
    var i := IndexOf(s, p).value;
    var k := IndexOf(t, q).value;
    var r := ReplaceFirst(s, p, t);
    assert r == s[..i] + t + s[i + |p|..];
    assert r[i + k..i + k + |q|] == t[k..k + |q|];
    assert OccursAt(r, q, i + k);
  }

  /** The replacement text itself occurs in the result. */
  lemma ReplaceFirstIntroduces(s: string, p: string, t: string)
    requires Includes(s, p)
    ensures Includes(ReplaceFirst(s, p, t), t)
  {
    assert OccursAt(t, t, 0);
    ReplaceFirstKeeps(s, p, t, t);
  }

  /** A prefix of a string occurs in it. */
  lemma IncludesPrefix(t: string, q: string)
    requires |q| <= |t| && t[..|q|] == q
    ensures Includes(t, q)
  {
    assert OccursAt(t, q, 0);
  }

  /** A pattern holding a character the text lacks does not occur in it. */
  lemma NotIncludesByChar(s: string, p: string, c: char)
    requires c in p && c !in s
    ensures !Includes(s, p)
  {
  }

  /** In `x + p + y`, the occurrence of `p` after `x` is the leftmost one
      unless `p` already occurs in `x` extended by all but its last
      character. */
  lemma IndexOfAfterPrefix(x: string, p: string, y: string)
    requires p != [] && !Includes(x + p[..|p| - 1], p)
    ensures IndexOf(x + p + y, p) == Some(|x|)
  {
    var s := x + p + y;
    var z := x + p[..|p| - 1];
    assert OccursAt(s, p, |x|) by {
      assert s[|x|..|x| + |p|] == p;
    }
    forall j: nat | j < |x|
      ensures !OccursAt(s, p, j)
    {
      if OccursAt(s, p, j) {
        assert z[j..j + |p|] == s[j..j + |p|];
        assert OccursAt(z, p, j);
        IncludesIff(z, p);
      }
    }
  }

  /** A text lacking `q` lacks every pattern that starts with `q`. */
  lemma NotIncludesLonger(s: string, q: string, p: string)
    requires |q| <= |p| && p[..|q|] == q && !Includes(s, q)
    ensures !Includes(s, p)
  {
    if Includes(s, p) {
      var i := IndexOf(s, p).value;
      assert s[i..i + |q|] == p[..|q|];
      assert OccursAt(s, q, i);
      IncludesIff(s, q);
    }
  }

  /** An occurrence in `x + t + y` that lies wholly inside `x` or wholly
      inside `y` survives when `t` is swapped for any `p`. */
  lemma OccurrenceOutside(x: string, t: string, y: string, p: string, f: string, j: nat)
    requires OccursAt(x + t + y, f, j)
    requires j + |f| <= |x| || |x| + |t| <= j
    ensures Includes(x + p + y, f)
  {
    var r := x + t + y;
    var s := x + p + y;
    if j + |f| <= |x| {
      assert s[j..j + |f|] == x[j..j + |f|] == r[j..j + |f|];
      assert OccursAt(s, f, j);
      IncludesIff(s, f);
    } else {
      var k := j - |t| + |p|;
      assert s[k..k + |f|] == y[j - |x| - |t|..j - |x| - |t| + |f|] == r[j..j + |f|];
      assert OccursAt(s, f, k);
      IncludesIff(s, f);
    }
  }
}
