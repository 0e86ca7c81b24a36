/**
  Substring search and Python's `str.replace`, plus the placeholder-token vocabulary
  and the facts about when one replacement cannot disturb another string.
 */
module Replace {

  /** The value that marks a paragraph for deletion. */
  const Sentinel := "<REMOVE>"

  /** w occurs in s starting at position j. */
  predicate OccursAt(s: string, w: string, j: int)
  {
    0 <= j <= |s| - |w| && s[j..j + |w|] == w
  }

  /** Python's `w in s`. The empty string occurs in every string. */
  predicate Contains(s: string, w: string)
  {
    exists j | 0 <= j <= |s| - |w| :: OccursAt(s, w, j)
  }

  lemma PrefixIffOccursAt(s: string, w: string, j: nat)
    requires j <= |s|
    ensures w <= s[j..] <==> OccursAt(s, w, j)
  {
    if OccursAt(s, w, j) {
      assert s[j..][..|w|] == s[j..j + |w|];
    }
  }

  /**
    Python's `s.replace(pat, v)`: occurrences are found left to right and do not
    overlap; an empty pattern matches before every character and at the end.
   */
  function ReplaceAll(s: string, pat: string, v: string): string
    decreases |s|
  {
    if |pat| == 0 then
      if |s| == 0 then v else v + [s[0]] + ReplaceAll(s[1..], pat, v)
    else if |s| == 0 then ""
    else if pat <= s then v + ReplaceAll(s[|pat|..], pat, v)
    else [s[0]] + ReplaceAll(s[1..], pat, v)
  }

  lemma PrefixOccurs(s: string, w: string)
    requires w <= s
    ensures Contains(s, w)
  {
    assert s[0..|w|] == w;
    assert OccursAt(s, w, 0);
  }

  lemma OccursInTail(s: string, w: string)
    requires |s| > 0 && Contains(s[1..], w)
    ensures Contains(s, w)
  {
    var j :| OccursAt(s[1..], w, j);
    assert OccursAt(s[1..], w, j);
    assert s[j + 1..j + 1 + |w|] == w;
    assert OccursAt(s, w, j + 1);
  }

  lemma OccursInAppend(a: string, s: string, w: string)
    requires Contains(s, w)
    ensures Contains(a + s, w)
  {
    var j :| OccursAt(s, w, j);
    assert OccursAt(s, w, j);
    assert (a + s)[|a| + j..|a| + j + |w|] == w;
    assert OccursAt(a + s, w, |a| + j);
  }

  lemma OccursAfterPrefixFails(s: string, w: string)
    requires |s| > 0 && Contains(s, w) && !(w <= s)
    ensures Contains(s[1..], w)
  {
    var j :| OccursAt(s, w, j);
    assert OccursAt(s, w, j);
    PrefixIffOccursAt(s, w, 0);
    assert s[0..] == s;
    assert j > 0;
    assert s[1..][j - 1..j - 1 + |w|] == w;
    assert OccursAt(s[1..], w, j - 1);
  }

  /** A string without the pattern comes back unchanged. */
  lemma {:induction false} ReplaceAbsent(s: string, pat: string, v: string)
    requires |pat| > 0 && !Contains(s, pat)
    ensures ReplaceAll(s, pat, v) == s
    decreases |s|
  {
    if |s| > 0 {
      if pat <= s {
        PrefixOccurs(s, pat);
        assert false;
      }
      if Contains(s[1..], pat) {
        OccursInTail(s, pat);
        assert false;
      }
      ReplaceAbsent(s[1..], pat, v);
      assert [s[0]] + s[1..] == s;
    }
  }

  /** One step of `replace` where the pattern starts the text. */
  lemma ReplaceAtPrefix(s: string, pat: string, v: string)
    requires |pat| > 0 && pat <= s
    ensures ReplaceAll(s, pat, v) == v + ReplaceAll(s[|pat|..], pat, v)
  {
  }

  /** One step of `replace` where the pattern does not start the text. */
  lemma ReplaceCopiesFirst(s: string, pat: string, v: string)
    requires |pat| > 0 && |s| > 0 && !(pat <= s)
    ensures ReplaceAll(s, pat, v) == [s[0]] + ReplaceAll(s[1..], pat, v)
  {
  }

  lemma HeadThenTake(s: string, k: nat, v: string, rest: string)
    requires 0 < k <= |s|
    ensures [s[0]] + (s[1..][..k - 1] + v + rest) == s[..k] + v + rest
  {
    assert [s[0]] + s[1..][..k - 1] == s[..k];
  }

  lemma TailOccurrences(s: string, pat: string, k: nat)
    requires 0 < k && OccursAt(s, pat, k)
    requires forall j :: 0 <= j < k ==> !OccursAt(s, pat, j)
    ensures OccursAt(s[1..], pat, k - 1)
    ensures forall j :: 0 <= j < k - 1 ==> !OccursAt(s[1..], pat, j)
  {
    var t := s[1..];
    assert t[k - 1..k - 1 + |pat|] == s[k..k + |pat|];
    forall j | 0 <= j < k - 1 ensures !OccursAt(t, pat, j) {
      assert !OccursAt(s, pat, j + 1);
      assert t[j..j + |pat|] == s[j + 1..j + 1 + |pat|];
    }
  }

  /** The pattern does not start the text: the first character is copied and the tail is replaced. */
  lemma FirstOccurrenceLater(s: string, pat: string, v: string, k: nat)
    requires |pat| > 0 && 0 < k && k + |pat| <= |s| && !(pat <= s)
    requires ReplaceAll(s[1..], pat, v) == s[1..][..k - 1] + v + ReplaceAll(s[1..][k - 1 + |pat|..], pat, v)
    ensures ReplaceAll(s, pat, v) == s[..k] + v + ReplaceAll(s[k + |pat|..], pat, v)
  {
    ReplaceCopiesFirst(s, pat, v);
    assert s[1..][k - 1 + |pat|..] == s[k + |pat|..];
    HeadThenTake(s, k, v, ReplaceAll(s[k + |pat|..], pat, v));
  }

  /**
    The reference reading of `replace`: everything before the first occurrence is
    copied, the occurrence becomes v, and the rest is handled the same way.
   */
  lemma {:induction false} ReplaceAtFirstOccurrence(s: string, pat: string, v: string, k: nat)
    requires |pat| > 0 && OccursAt(s, pat, k)
    requires forall j :: 0 <= j < k ==> !OccursAt(s, pat, j)
    ensures ReplaceAll(s, pat, v) == s[..k] + v + ReplaceAll(s[k + |pat|..], pat, v)
    decreases k
  {
    if k == 0 {
      ReplaceAtStart(s, pat, v);
    } else {
      assert !(pat <= s) by {
        PrefixIffOccursAt(s, pat, 0);
        assert s[0..] == s;
      }
      TailOccurrences(s, pat, k);
      var t := s[1..];
      ReplaceAtFirstOccurrence(t, pat, v, k - 1);
      assert k + |pat| <= |s|;
      FirstOccurrenceLater(s, pat, v, k);
    }
  }

  /** An occurrence at position 0 is replaced first, with nothing copied before it. */
  lemma ReplaceAtStart(s: string, pat: string, v: string)
    requires |pat| > 0 && OccursAt(s, pat, 0)
    ensures ReplaceAll(s, pat, v) == s[..0] + v + ReplaceAll(s[|pat|..], pat, v)
  {
    assert s[..|pat|] == s[0..|pat|] == pat;
    ReplaceAtPrefix(s, pat, v);
    assert s[..0] + v == v;
  }

  /** A text that is exactly the pattern becomes exactly the value. */
  lemma ReplaceWhole(pat: string, v: string)
    requires |pat| > 0
    ensures ReplaceAll(pat, pat, v) == v
  {
    assert pat[|pat|..] == [];
  }

  /** Where the pattern occurs, the replacement value appears in the result. */
  lemma {:induction false} ReplaceIntroducesValue(s: string, pat: string, v: string)
    requires |pat| > 0 && Contains(s, pat)
    ensures Contains(ReplaceAll(s, pat, v), v)
    decreases |s|
  {
    if pat <= s {
      PrefixOccurs(v + ReplaceAll(s[|pat|..], pat, v), v);
    } else {
      OccursAfterPrefixFails(s, pat);
      ReplaceIntroducesValue(s[1..], pat, v);
      OccursInAppend([s[0]], ReplaceAll(s[1..], pat, v), v);
    }
  }

  /**
    No occurrence of pat can share a character with an occurrence of w: pat does not
    start inside w, and no proper suffix of pat lines up with the start of w.
   */
  ghost predicate NoOverlap(pat: string, w: string)
  {
    && (forall t :: 0 < t < |pat| ==> !(pat[t..] <= w) && !(w <= pat[t..]))
    && (forall u :: 0 <= u < |w| ==> !(w[u..] <= pat) && !(pat <= w[u..]))
  }

  lemma NoOverlapNotInside(pat: string, w: string)
    requires |pat| > 0 && NoOverlap(pat, w)
    ensures !Contains(w, pat)
  {
    if Contains(w, pat) {
      var j :| OccursAt(w, pat, j);
      assert OccursAt(w, pat, j);
      PrefixIffOccursAt(w, pat, j);
      assert false;
    }
  }

  lemma {:induction false} ReplaceSkipsBarrier(w: string, u: nat, b: string, pat: string, v: string)
    requires |pat| > 0 && u <= |w| && NoOverlap(pat, w)
    ensures ReplaceAll(w[u..] + b, pat, v) == w[u..] + ReplaceAll(b, pat, v)
    decreases |w| - u
  {
    var s := w[u..] + b;
    if u == |w| {
      assert s == b;
    } else {
      assert !(pat <= s) by {
        if pat <= s {
          assert false;
        }
      }
      assert s[1..] == w[u + 1..] + b;
      ReplaceSkipsBarrier(w, u + 1, b, pat, v);
      assert [s[0]] + w[u + 1..] == w[u..];
    }
  }

  lemma PrefixStraddles(pat: string, a: string, w: string, b: string)
    requires pat <= a + w + b && |a| < |pat|
    ensures pat[|a|..] <= w || w <= pat[|a|..]
  {
    var s := a + w + b;
    assert pat[|a|..] == s[|a|..|pat|];
    assert s[|a|..] == w + b;
  }

  /** How a + w + b begins and continues when a is not empty. */
  lemma ConcatFront(a: string, w: string, b: string, pat: string)
    requires |a| > 0
    ensures (a + w + b)[0] == a[0] && (a + w + b)[1..] == a[1..] + w + b
    ensures pat <= a ==> pat <= a + w + b && (a + w + b)[|pat|..] == a[|pat|..] + w + b
    ensures |pat| <= |a| && pat <= a + w + b ==> pat <= a
  {
    var s := a + w + b;
    assert s[1..] == a[1..] + w + b;
    if |pat| <= |a| {
      assert s[..|pat|] == a[..|pat|];
    }
    if pat <= a {
      assert s[..|pat|] == a[..|pat|];
      assert s[|pat|..] == a[|pat|..] + w + b;
    }
  }

  lemma ConcatRegroup(x: string, y: string, w: string, z: string)
    ensures x + (y + w + z) == (x + y) + w + z
  {
  }

  /** The pattern starts a: it is replaced there, and the rest of a is handled on its own. */
  lemma BarrierMatchStep(a: string, w: string, b: string, pat: string, v: string)
    requires |pat| > 0 && pat <= a
    requires ReplaceAll(a[|pat|..] + w + b, pat, v) == ReplaceAll(a[|pat|..], pat, v) + w + ReplaceAll(b, pat, v)
    ensures ReplaceAll(a + w + b, pat, v) == ReplaceAll(a, pat, v) + w + ReplaceAll(b, pat, v)
  {
    ConcatFront(a, w, b, pat);
    ReplaceAtPrefix(a + w + b, pat, v);
    ReplaceAtPrefix(a, pat, v);
    ConcatRegroup(v, ReplaceAll(a[|pat|..], pat, v), w, ReplaceAll(b, pat, v));
  }

  /** The pattern does not start a + w + b: the first character of a is copied. */
  lemma BarrierCopyStep(a: string, w: string, b: string, pat: string, v: string)
    requires |pat| > 0 && |a| > 0 && !(pat <= a + w + b)
    requires ReplaceAll(a[1..] + w + b, pat, v) == ReplaceAll(a[1..], pat, v) + w + ReplaceAll(b, pat, v)
    ensures ReplaceAll(a + w + b, pat, v) == ReplaceAll(a, pat, v) + w + ReplaceAll(b, pat, v)
  {
    ConcatFront(a, w, b, pat);
    ReplaceCopiesFirst(a + w + b, pat, v);
    ReplaceCopiesFirst(a, pat, v);
    ConcatRegroup([a[0]], ReplaceAll(a[1..], pat, v), w, ReplaceAll(b, pat, v));
  }

  /**
    A string w that no occurrence of pat can overlap is a barrier for `replace`:
    the parts on either side are rewritten independently and w is kept as it is.
   */
  lemma {:induction false} ReplaceAcrossBarrier(a: string, w: string, b: string, pat: string, v: string)
    requires |pat| > 0 && NoOverlap(pat, w)
    ensures ReplaceAll(a + w + b, pat, v) == ReplaceAll(a, pat, v) + w + ReplaceAll(b, pat, v)
    decreases |a|
  {
    var s := a + w + b;
    if |a| == 0 {
      assert s == w[0..] + b;
      ReplaceSkipsBarrier(w, 0, b, pat, v);
    } else if pat <= s {
      ConcatFront(a, w, b, pat);
      if |pat| <= |a| {
        ReplaceAcrossBarrier(a[|pat|..], w, b, pat, v);
        BarrierMatchStep(a, w, b, pat, v);
      } else {
        PrefixStraddles(pat, a, w, b);
        assert false;
      }
    } else {
      ReplaceAcrossBarrier(a[1..], w, b, pat, v);
      BarrierCopyStep(a, w, b, pat, v);
    }
  }

  /** An occurrence of w that no occurrence of pat can overlap survives the replacement. */
  lemma ReplaceKeeps(s: string, w: string, pat: string, v: string)
    requires |pat| > 0 && NoOverlap(pat, w) && Contains(s, w)
    ensures Contains(ReplaceAll(s, pat, v), w)
  {
    var j :| OccursAt(s, w, j);
    assert OccursAt(s, w, j);
    assert s == s[..j] + w + s[j + |w|..];
    ReplaceAcrossBarrier(s[..j], w, s[j + |w|..], pat, v);
    var r := ReplaceAll(s[..j], pat, v);
    assert (r + w + ReplaceAll(s[j + |w|..], pat, v))[|r|..|r| + |w|] == w;
    assert OccursAt(r + w + ReplaceAll(s[j + |w|..], pat, v), w, |r|);
  }

  /** A text without the first character of w cannot contain w. */
  lemma MissingFirstChar(s: string, w: string)
    requires |w| > 0 && w[0] !in s
    ensures !Contains(s, w)
  {
  }

  predicate IsLetter(c: char)
  {
    'a' <= c <= 'z' || 'A' <= c <= 'Z'
  }

  /** A placeholder token of the template vocabulary: a letters-only name between braces. */
  predicate IsToken(t: string)
  {
    && |t| >= 3
    && t[0] == '{'
    && t[|t| - 1] == '}'
    && forall i :: 0 < i < |t| - 1 ==> IsLetter(t[i])
  }

  /** Two different tokens can never overlap in any text. */
  lemma TokensNoOverlap(k: string, w: string)
    requires IsToken(k) && IsToken(w) && k != w
    ensures NoOverlap(k, w)
  {
    forall t | 0 < t < |k| ensures !(k[t..] <= w) && !(w <= k[t..]) {
      assert k[t..][0] == k[t];
    }
    forall u | 0 <= u < |w| ensures !(w[u..] <= k) && !(k <= w[u..]) {
      if u == 0 {
        assert w[u..] == w;
        if w <= k {
          assert false;
        }
        if k <= w {
          assert false;
        }
      } else {
        assert w[u..][0] == w[u];
      }
    }
  }

  /** A token can never overlap the sentinel. */
  lemma TokenSentinelNoOverlap(k: string)
    requires IsToken(k)
    ensures NoOverlap(k, Sentinel)
  {
    forall t | 0 < t < |k| ensures !(k[t..] <= Sentinel) && !(Sentinel <= k[t..]) {
      assert k[t..][0] == k[t];
    }
    forall u | 0 <= u < |Sentinel| ensures !(Sentinel[u..] <= k) && !(k <= Sentinel[u..]) {
      assert Sentinel[u..][0] == Sentinel[u];
    }
  }
}
