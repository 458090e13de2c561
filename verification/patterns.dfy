/** The search-and-replace rules of the filename pipeline. Each rule is either a
    fixed string (JavaScript `String.prototype.replace` with a string pattern) or
    one of the four regular expressions the pipeline uses without the `g` flag.
    All of them replace only the leftmost match. */
module Patterns {
  import opened Optional
  import opened Text

  datatype Rule =
    | Literal(pattern: string, replacement: string)
      /** `/Tokens\/Spirits\/Creature[ _]Spirits_Pack_\d+/` replaced by `Tokens/Spirits/Creatures` */
    | SpiritsPack
      /** `/Spirits\/Spirits_(Adversaries|Creatures|Heroes|NPCs)\//` replaced by `Spirits/<group>/` */
    | SpiritsGroup
      /** `/CR (.)/` replaced by `CR_<the captured character>` */
    | ChallengeRating
      /** `/Townsfolk_(\d+)/` replaced by `Townsfolk` */
    | TownsfolkNumber

  /** A match: where it ends in the subject, and the text that takes its place. */
  datatype Hit = Hit(end: nat, text: string)

  /** A leftmost match: where it starts, and the match itself. */
  datatype Found = Found(start: nat, hit: Hit)

  const SpiritGroupsToUnwrap: seq<string> := ["Adversaries", "Creatures", "Heroes", "NPCs"]

  /** The first alternative, in the order written, that occurs at `i` followed by `/`. */
  function FirstAlternative(s: string, i: nat, alternatives: seq<string>): (g: Option<string>)
    ensures g.Some? ==> g.value in alternatives && OccursAt(s, g.value + "/", i)
    ensures g.None? ==> forall a :: a in alternatives ==> !OccursAt(s, a + "/", i)
    ensures g.Some? ==> exists k | 0 <= k < |alternatives| ::
      (alternatives[k] == g.value && forall j | 0 <= j < k :: !OccursAt(s, alternatives[j] + "/", i))
  {
    if |alternatives| == 0 then None
    else if OccursAt(s, alternatives[0] + "/", i) then Some(alternatives[0])
    else
      var g := FirstAlternative(s, i, alternatives[1..]);
      if g.Some? then
        var k :| 0 <= k < |alternatives| - 1 &&
          (alternatives[1..][k] == g.value && forall j | 0 <= j < k :: !OccursAt(s, alternatives[1..][j] + "/", i));
        assert alternatives[k + 1] == g.value;
        assert forall j | 0 <= j < k + 1 :: !OccursAt(s, alternatives[j] + "/", i) by {
          forall j | 0 <= j < k + 1
            ensures !OccursAt(s, alternatives[j] + "/", i)
          {
            if j > 0 {
              assert alternatives[j] == alternatives[1..][j - 1];
            }
          }
        }
        g
      else g
  }

  /** Whether `r` matches `s` starting exactly at `i`, and if so how far the
      match extends (digit runs are greedy) and what replaces it. */
  function MatchAt(r: Rule, s: string, i: nat): (h: Option<Hit>)
    requires i <= |s|
    ensures h.Some? ==> i <= h.value.end <= |s|
    ensures h.Some? ==> OccursAt(s, Anchor(r), i)
  {
    match r
    case Literal(p, rep) =>
      if OccursAt(s, p, i) then Some(Hit(i + |p|, rep)) else None
    case SpiritsPack =>
      var j := i + |"Tokens/Spirits/Creature"|;
      var k := j + 1 + |"Spirits_Pack_"|;
      if OccursAt(s, "Tokens/Spirits/Creature", i) && j < |s| && (s[j] == ' ' || s[j] == '_')
         && OccursAt(s, "Spirits_Pack_", j + 1) && k < |s| && IsDigit(s[k])
      then Some(Hit(DigitRunEnd(s, k), "Tokens/Spirits/Creatures"))
      else None
    case SpiritsGroup =>
      var j := i + |"Spirits/Spirits_"|;
      if OccursAt(s, "Spirits/Spirits_", i) then
        match FirstAlternative(s, j, SpiritGroupsToUnwrap)
        case Some(g) => Some(Hit(j + |g| + 1, "Spirits/" + g + "/"))
        case None => None
      else None
    case ChallengeRating =>
      if OccursAt(s, "CR ", i) && i + 3 < |s| && !IsLineTerminator(s[i + 3])
      then Some(Hit(i + 4, "CR_" + [s[i + 3]]))
      else None
    case TownsfolkNumber =>
      var k := i + |"Townsfolk_"|;
      if OccursAt(s, "Townsfolk_", i) && k < |s| && IsDigit(s[k])
      then Some(Hit(DigitRunEnd(s, k), "Townsfolk"))
      else None
  }

  /** The fixed text every match of the rule begins with. */
  function Anchor(r: Rule): string {
    match r
    case Literal(p, _) => p
    case SpiritsPack => "Tokens/Spirits/Creature"
    case SpiritsGroup => "Spirits/Spirits_"
    case ChallengeRating => "CR "
    case TownsfolkNumber => "Townsfolk_"
  }

  /** A rule cannot match before `j` when a character its anchor needs at offset `d`
      is absent from the first `j + d` characters. */
  lemma NoMatchBefore(r: Rule, s: string, j: nat, d: nat)
    requires j <= |s| && d < |Anchor(r)| && j + d <= |s|
    requires Anchor(r)[d] !in s[..j + d]
    ensures forall k :: 0 <= k < j ==> MatchAt(r, s, k).None?
  {
    forall k | 0 <= k < j
      ensures MatchAt(r, s, k).None?
    {
    }
  }

  /** A rule whose anchor needs a character the subject lacks changes nothing. */
  lemma UnchangedWithout(r: Rule, s: string, c: char)
    requires c in Anchor(r) && c !in s
    ensures ReplaceFirst(r, s) == s
  {
    forall k | 0 <= k <= |s|
      ensures MatchAt(r, s, k).None?
    {
    }
  }

  /** The leftmost position at or after `from` where `r` matches. */
  function Search(r: Rule, s: string, from: nat): (f: Option<Found>)
    requires from <= |s|
    ensures f.Some? ==> from <= f.value.start <= |s| && MatchAt(r, s, f.value.start) == Some(f.value.hit)
    ensures f.Some? ==> forall k :: from <= k < f.value.start ==> MatchAt(r, s, k).None?
    ensures f.None? ==> forall k :: from <= k <= |s| ==> MatchAt(r, s, k).None?
    decreases |s| - from
  {
    match MatchAt(r, s, from)
    case Some(h) => Some(Found(from, h))
    case None => if from == |s| then None else Search(r, s, from + 1)
  }

  /** `s.replace(r, …)`: the leftmost match, if any, is replaced; the rest of the
      string is left alone. */
  function ReplaceFirst(r: Rule, s: string): (out: string)
    ensures (forall k | 0 <= k <= |s| :: MatchAt(r, s, k).None?) ==> out == s
  {
    match Search(r, s, 0)
    case None => s
    case Some(Found(start, Hit(end, text))) => s[..start] + text + s[end..]
  }

  /** Only the leftmost match is rewritten: everything before it and everything
      after it is kept as it was. */
  lemma ReplaceFirstAtLeftmost(r: Rule, s: string, j: nat)
    requires j <= |s| && MatchAt(r, s, j).Some?
    requires forall k :: 0 <= k < j ==> MatchAt(r, s, k).None?
    ensures ReplaceFirst(r, s) == s[..j] + MatchAt(r, s, j).value.text + s[MatchAt(r, s, j).value.end..]
  {
    var f := Search(r, s, 0);
    assert f.Some?;
    assert f.value.start == j;
  }

  /** For a fixed string the leftmost match is the first occurrence. */
  lemma LiteralFirstOccurrence(p: string, rep: string, s: string, j: nat)
    requires OccursAt(s, p, j)
    requires forall k: nat :: k < j ==> !OccursAt(s, p, k)
    ensures ReplaceFirst(Literal(p, rep), s) == s[..j] + rep + s[j + |p|..]
  {
    forall k | 0 <= k < j
      ensures MatchAt(Literal(p, rep), s, k).None?
    {
      assert !OccursAt(s, p, k);
    }
    ReplaceFirstAtLeftmost(Literal(p, rep), s, j);
  }

  /** A fixed string placed after text that lacks its first character is
      the first occurrence, and is the one replaced. */
  lemma LiteralAfterClearPrefix(a: string, p: string, rep: string, b: string)
    requires |p| > 0 && p[0] !in a
    ensures ReplaceFirst(Literal(p, rep), a + p + b) == a + rep + b
  {
    var s := a + p + b;
    forall k: nat | k < |a|
      ensures !OccursAt(s, p, k)
    {
      assert s[k] == a[k];
    }
    OccursInMiddle(a, p, b);
    LiteralFirstOccurrence(p, rep, s, |a|);
    assert s[..|a|] == a;
    assert s[|a| + |p|..] == b;
  }

  /** A fixed string that does not occur leaves the subject unchanged. */
  lemma LiteralAbsent(p: string, rep: string, s: string)
    requires !Contains(s, p)
    ensures ReplaceFirst(Literal(p, rep), s) == s
  {
    forall k | 0 <= k <= |s|
      ensures MatchAt(Literal(p, rep), s, k).None?
    {
      assert !OccursAt(s, p, k);
    }
  }

  /** Replacing a fixed string `p` by `ins + p` inserts `ins` right in front of
      the first occurrence of `p`, and changes nothing when `p` does not occur. */
  lemma InsertBeforeFirst(p: string, ins: string, s: string)
    ensures !Contains(s, p) ==> ReplaceFirst(Literal(p, ins + p), s) == s
    ensures Contains(s, p) ==> exists j: nat | j + |p| <= |s| ::
      (OccursAt(s, p, j) && (forall k: nat | k < j :: !OccursAt(s, p, k))
       && ReplaceFirst(Literal(p, ins + p), s) == s[..j] + ins + s[j..])
  {
    if !Contains(s, p) {
      LiteralAbsent(p, ins + p, s);
    } else {
      var k0: nat :| k0 <= |s| && OccursAt(s, p, k0);
      assert MatchAt(Literal(p, ins + p), s, k0).Some?;
      var j := InsertAtFirst(p, ins, s);
    }
  }

  /** The first occurrence of `p`, where `ins` is inserted. */
  lemma InsertAtFirst(p: string, ins: string, s: string) returns (j: nat)
    requires Search(Literal(p, ins + p), s, 0).Some?
    ensures j + |p| <= |s| && OccursAt(s, p, j) && forall k: nat | k < j :: !OccursAt(s, p, k)
    ensures ReplaceFirst(Literal(p, ins + p), s) == s[..j] + ins + s[j..]
  {
    var r := Literal(p, ins + p);
    var f := Search(r, s, 0);
    j := f.value.start;
    assert OccursAt(s, p, j) && f.value.hit == Hit(j + |p|, ins + p);
    forall k: nat | k < j
      ensures !OccursAt(s, p, k)
    {
      assert MatchAt(r, s, k).None?;
    }
    assert s[j..] == p + s[j + |p|..];
    assert s[..j] + (ins + p) + s[j + |p|..] == s[..j] + ins + s[j..];
  }
}
