/** Strings as sequences of characters, and the handful of JavaScript string
    operations the synchroniser relies on: prefix and suffix tests, substring
    search and global replacement of a fixed pattern. */
module Text {

  /** `\d` in a JavaScript regular expression: an ASCII digit and nothing else. */
  predicate IsDigit(c: char) {
    '0' <= c <= '9'
  }

  /** The characters `.` in a JavaScript regular expression refuses to match. */
  predicate IsLineTerminator(c: char) {
    c == '\n' || c == '\r' || c == '\U{2028}' || c == '\U{2029}'
  }

  predicate StartsWith(s: string, p: string) {
    |p| <= |s| && s[..|p|] == p
  }

  predicate EndsWith(s: string, p: string) {
    |p| <= |s| && s[|s| - |p|..] == p
  }

  /** `p` occurs in `s` starting at index `i`. */
  predicate OccursAt(s: string, p: string, i: nat) {
    i + |p| <= |s| && s[i..i + |p|] == p
  }

  /** `String.prototype.includes`. */
  predicate Contains(s: string, p: string) {
    exists i: nat | i <= |s| :: OccursAt(s, p, i)
  }

  lemma StartsWithOccursAtZero(s: string, p: string)
    ensures StartsWith(s, p) <==> OccursAt(s, p, 0)
  {
  }

  /** A string lacking one of the characters of `p` neither opens with `p` nor
      contains it. */
  lemma AbsentCharExcludes(s: string, p: string, c: char)
    requires c in p && c !in s
    ensures !StartsWith(s, p) && !Contains(s, p)
  {
  }

  /** A suffix no longer than the second part is decided by that part alone. */
  lemma EndsWithAppend(a: string, b: string, p: string)
    requires |p| <= |b|
    ensures EndsWith(a + b, p) <==> EndsWith(b, p)
  {
    assert (a + b)[|a + b| - |p|..] == b[|b| - |p|..];
  }

  /** Equal tails stay equal behind a common head. */
  lemma Regroup(p: string, a: string, b: string, c: string, d: string)
    requires a + b == c + d
    ensures p + a + b == p + c + d
  {
    assert p + a + b == p + (a + b);
    assert p + c + d == p + (c + d);
  }

  /** `_Alt` inserted after text that already ends in `_Alt` gives `_Alt_Alt`. */
  lemma AltAltJoin(a: string, b: string, altExt: string, ext: string)
    requires altExt == "_Alt" + ext
    ensures a + (b + "_Alt") + altExt == a + b + "_Alt_Alt" + ext
  {
    assert "_Alt" + "_Alt" == "_Alt_Alt";
    assert a + (b + "_Alt") + ("_Alt" + ext) == (a + b) + ("_Alt" + "_Alt") + ext;
  }

  /** `p` occurs where it was put. */
  lemma OccursInMiddle(a: string, p: string, b: string)
    ensures OccursAt(a + p + b, p, |a|) && Contains(a + p + b, p)
  {
    var i: nat := |a|;
    assert (a + p + b)[i..i + |p|] == p;
    assert i <= |a + p + b| && OccursAt(a + p + b, p, i);
  }

  /** A prefix of a prefix is a prefix. */
  lemma StartsWithChain(s: string, p: string, q: string)
    requires StartsWith(s, p) && StartsWith(p, q)
    ensures StartsWith(s, q)
  {
    assert s[..|q|] == s[..|p|][..|q|];
  }

  /** Appending keeps every prefix. */
  lemma StartsWithAppend(a: string, b: string, q: string)
    requires StartsWith(a, q)
    ensures StartsWith(a + b, q)
  {
    assert (a + b)[..|q|] == a[..|q|];
  }

  /** End of the run of digits that starts at `i`: the greedy extent of `\d+`. */
  function DigitRunEnd(s: string, i: nat): (j: nat)
    requires i <= |s|
    ensures i <= j <= |s|
    ensures forall k :: i <= k < j ==> IsDigit(s[k])
    ensures j == |s| || !IsDigit(s[j])
    decreases |s| - i
  {
    if i < |s| && IsDigit(s[i]) then DigitRunEnd(s, i + 1) else i
  }

  /** A digit run starting at `i` that a non-digit at `j` closes ends at `j`. */
  lemma DigitRunTo(s: string, i: nat, j: nat)
    requires i <= j < |s| && !IsDigit(s[j])
    requires forall k | i <= k < j :: IsDigit(s[k])
    ensures DigitRunEnd(s, i) == j
  {
  }

  /** `s.replace(/pattern/g, replacement)` for a non-empty fixed pattern: occurrences
      are found from left to right and never overlap. */
  function ReplaceAll(s: string, pattern: string, replacement: string): (r: string)
    requires |pattern| > 0
    ensures |replacement| == |pattern| ==> |r| == |s|
    decreases |s|
  {
    if |s| == 0 then s
    else if StartsWith(s, pattern) then replacement + ReplaceAll(s[|pattern|..], pattern, replacement)
    else [s[0]] + ReplaceAll(s[1..], pattern, replacement)
  }

  /** A global replacement whose pattern needs a character the subject lacks
      changes nothing. */
  lemma {:induction false} ReplaceAllWithout(s: string, pattern: string, replacement: string, c: char)
    requires |pattern| > 0 && c in pattern && c !in s
    ensures ReplaceAll(s, pattern, replacement) == s
    decreases |s|
  {
    if |s| > 0 {
      ReplaceAllWithout(s[1..], pattern, replacement, c);
    }
  }

  /** The first character of a global replacement is either the first character of
      the replacement (when the string opens with the pattern) or its own. */
  lemma ReplaceAllHead(s: string, pattern: string, replacement: string)
    requires |pattern| > 0 && |replacement| > 0 && |s| > 0
    ensures |ReplaceAll(s, pattern, replacement)| > 0
    ensures ReplaceAll(s, pattern, replacement)[0]
            == if StartsWith(s, pattern) then replacement[0] else s[0]
  {
  }

  /** After a global replacement of a three-character pattern, a three-character
      string `q` whose middle character the replacement never writes cannot occur,
      provided it did not occur before or is the pattern itself. The two side
      conditions keep the edges of an inserted replacement from completing `q`. */
  lemma {:induction false} ReplaceAllLeavesNoOccurrence(s: string, pattern: string, replacement: string, q: string)
    requires |pattern| == 3 && |replacement| == 3 && |q| == 3
    requires q[1] !in replacement
    requires replacement[2] != q[0] && replacement[0] != q[2]
    requires q == pattern || !Contains(s, q)
    ensures !Contains(ReplaceAll(s, pattern, replacement), q)
    decreases |s|
  {
    var r := ReplaceAll(s, pattern, replacement);
    if |s| == 0 {
      return;
    }
    if StartsWith(s, pattern) {
      var t := s[3..];
      if q != pattern {
        NoOccurrenceInSuffix(s, q, 3);
      }
      ReplaceAllLeavesNoOccurrence(t, pattern, replacement, q);
      assert r == replacement + ReplaceAll(t, pattern, replacement);
      NoOccurrenceAfterReplacement(replacement, ReplaceAll(t, pattern, replacement), q);
    } else {
      var t := s[1..];
      if q != pattern {
        NoOccurrenceInSuffix(s, q, 1);
      }
      ReplaceAllLeavesNoOccurrence(t, pattern, replacement, q);
      assert r == [s[0]] + ReplaceAll(t, pattern, replacement);
      OpeningOccurrenceComesFromSource(s, pattern, replacement, q);
      StartsWithOccursAtZero(s, pattern);
      var z: nat := 0;
      assert !OccursAt(s, q, z) by {
        if q != pattern && OccursAt(s, q, z) {
          assert Contains(s, q);
        }
      }
      NoOccurrenceAfterChar(s[0], ReplaceAll(t, pattern, replacement), q);
    }
  }

  /** An inserted replacement followed by text free of `q` is free of `q`. */
  lemma NoOccurrenceAfterReplacement(replacement: string, rt: string, q: string)
    requires |replacement| == 3 && |q| == 3
    requires q[1] !in replacement && replacement[2] != q[0]
    requires !Contains(rt, q)
    ensures !Contains(replacement + rt, q)
  {
    var r := replacement + rt;
    forall k: nat | k <= |r|
      ensures !OccursAt(r, q, k)
    {
      if OccursAt(r, q, k) {
        if k >= 3 {
          assert rt[k - 3..k - 3 + 3] == r[k..k + 3];
          assert OccursAt(rt, q, k - 3);
        }
      }
    }
  }

  /** A character followed by text free of `q` is free of `q` unless `q`
      opens it. */
  lemma NoOccurrenceAfterChar(c: char, rt: string, q: string)
    requires |q| == 3 && !Contains(rt, q) && !OccursAt([c] + rt, q, 0)
    ensures !Contains([c] + rt, q)
  {
    var r := [c] + rt;
    forall k: nat | k <= |r|
      ensures !OccursAt(r, q, k)
    {
      if k >= 1 && OccursAt(r, q, k) {
        assert rt[k - 1..k - 1 + 3] == r[k..k + 3];
        assert OccursAt(rt, q, k - 1);
      }
    }
  }

  /** When the string does not open with the pattern, an occurrence of `q` at the
      very start of the replaced string was already at the start of the original. */
  lemma OpeningOccurrenceComesFromSource(s: string, pattern: string, replacement: string, q: string)
    requires |pattern| == 3 && |replacement| == 3 && |q| == 3
    requires q[1] !in replacement && replacement[0] != q[2]
    requires |s| > 0 && !StartsWith(s, pattern)
    ensures OccursAt(ReplaceAll(s, pattern, replacement), q, 0) ==> OccursAt(s, q, 0)
  {
    var r := ReplaceAll(s, pattern, replacement);
    var t := s[1..];
    var rt := ReplaceAll(t, pattern, replacement);
    assert r == [s[0]] + rt;
    if OccursAt(r, q, 0) {
      assert rt[0] == q[1] && rt[1] == q[2];
      ReplaceAllHead(t, pattern, replacement);
      assert !StartsWith(t, pattern) && t[0] == q[1];
      var u := t[1..];
      assert rt == [t[0]] + ReplaceAll(u, pattern, replacement);
      ReplaceAllHead(u, pattern, replacement);
      assert s[..3] == q;
    }
  }

  /** An occurrence-free string stays occurrence-free once a prefix is dropped. */
  lemma NoOccurrenceInSuffix(s: string, q: string, n: nat)
    requires n <= |s| && !Contains(s, q)
    ensures !Contains(s[n..], q)
  {
    forall k: nat | k <= |s[n..]|
      ensures !OccursAt(s[n..], q, k)
    {
      if OccursAt(s[n..], q, k) {
        assert s[n..][k..k + |q|] == s[n + k..n + k + |q|];
        assert OccursAt(s, q, n + k);
      }
    }
  }
}
