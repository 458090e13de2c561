/** What the filename mapping guarantees: where accepted names go, which names
    fail, and how individual rewrites behave, with the two worked examples the
    source documents in its comments. */
module FilenameFacts {
  import opened Optional
  import opened Text
  import opened Patterns
  import opened FilenameHandling

  /** Every prefix the entry tests opens with `Tokens/`. */
  predicate Rooted(e: Entry) {
    match e
    case Fixed(p) => StartsWith(p, "Tokens/")
    case Rating(ps, _) => forall p | p in ps :: StartsWith(p, "Tokens/")
    case Folder(p, _) => StartsWith(p, "Tokens/")
  }

  /** Each whitelist entry is rooted under `Tokens/`. */
  lemma WhitelistRooted(i: nat)
    requires i < |Whitelist|
    ensures Rooted(Whitelist[i])
  {
    if i < 4 { EarlyEntriesRooted(i); } else { LateEntriesRooted(i); }
  }

  lemma EarlyEntriesRooted(i: nat)
    requires i < 4
    ensures Rooted(Whitelist[i])
  {
    if i == 1 {
      assert Whitelist[1].prefixes == ["Tokens/Creatures/CR_"];
    } else if i == 2 {
      assert Whitelist[2].prefixes == ["Tokens/Base/CR_", "Tokens/Baseless/CR_"];
      assert StartsWith("Tokens/Base/CR_", "Tokens/");
      assert StartsWith("Tokens/Baseless/CR_", "Tokens/");
    }
  }

  lemma LateEntriesRooted(i: nat)
    requires 4 <= i < |Whitelist|
    ensures Rooted(Whitelist[i])
  {
    if i == 8 {
      LastEntryRooted();
    }
  }

  lemma LastEntryRooted()
    ensures Rooted(Whitelist[8])
  {
    var p := "Tokens/Spirits/Catch-All_Heroes_Spirits/";
    assert Whitelist[8] == Fixed(p);
    assert p[..7] == "Tokens/";
  }

  /** A rooted entry only accepts names under `Tokens/`. */
  lemma EntryUnderTokens(e: Entry, s: string)
    requires Rooted(e) && Admits(e, s)
    ensures StartsWith(s, "Tokens/")
  {
    match e
    case Fixed(p) =>
      StartsWithChain(s, p, "Tokens/");
    case Rating(ps, _) =>
      var p :| p in ps && StartsWith(s, p) && RatingFolderAt(s, |p|, e.digitFirst);
      StartsWithChain(s, p, "Tokens/");
    case Folder(p, names) =>
      var n :| n in names && StartsWith(s, p + n + "/");
      StartsWithAppend(p, n + "/", "Tokens/");
      assert p + n + "/" == p + (n + "/");
      StartsWithChain(s, p + n + "/", "Tokens/");
  }

  /** Every whitelisted name lies under `Tokens/`. */
  lemma WhitelistUnderTokens(s: string)
    requires Whitelisted(s)
    ensures StartsWith(s, "Tokens/")
  {
    var e :| e in Whitelist && Admits(e, s);
    var i :| 0 <= i < |Whitelist| && Whitelist[i] == e;
    WhitelistRooted(i);
    EntryUnderTokens(e, s);
  }

  /** Whatever is accepted is placed under `Tokens/`; whatever is not skipped and
      not accepted makes the function fail. */
  lemma AcceptedNamesUnderTokens(filename: string)
    ensures DetermineOutputFilename(filename).Ok? ==> StartsWith(DetermineOutputFilename(filename).name, "Tokens/")
    ensures !Skipped(filename) && !Whitelisted(Rewrite(filename)) ==> DetermineOutputFilename(filename).Error?
  {
    var r := DetermineOutputFilename(filename);
    if r.Ok? {
      WhitelistUnderTokens(r.name);
    }
  }

  /** The anchored `FA_Tokens/` rewrite agrees with a first-occurrence replacement
      when the name opens with it, and otherwise leaves the name alone. */
  lemma FaPrefixOnlyAtStart(s: string)
    ensures StartsWith(s, "FA_Tokens/") ==> DropFaPrefix(s) == ReplaceFirst(Literal("FA_Tokens/", "Tokens/"), s)
    ensures !StartsWith(s, "FA_Tokens/") ==> DropFaPrefix(s) == s
  {
    if StartsWith(s, "FA_Tokens/") {
      LiteralFirstOccurrence("FA_Tokens/", "Tokens/", s, 0);
    }
  }

  /** A later `FA_Tokens/` is not rewritten, although an unanchored replacement would. */
  lemma FaPrefixIgnoredLater()
    ensures DropFaPrefix("x/" + "FA_Tokens/" + "a") == "x/" + "FA_Tokens/" + "a"
    ensures ReplaceFirst(Literal("FA_Tokens/", "Tokens/"), "x/" + "FA_Tokens/" + "a") == "x/" + "Tokens/" + "a"
  {
    var s := "x/" + "FA_Tokens/" + "a";
    assert !StartsWith(s, "FA_Tokens/") by { assert s[0] != 'F'; }
    UnanchoredRewrite(s);
  }

  lemma UnanchoredRewrite(s: string)
    requires s == "x/" + "FA_Tokens/" + "a"
    ensures ReplaceFirst(Literal("FA_Tokens/", "Tokens/"), s) == "x/" + "Tokens/" + "a"
  {
    assert "FA_Tokens/"[0] == 'F' && 'F' !in "x/";
    LiteralAfterClearPrefix("x/", "FA_Tokens/", "Tokens/", "a");
  }

  /** After the fraction rewrites no fraction-slash `1⁄8`, `1⁄4` or `1⁄2` remains:
      every occurrence was replaced, and no replacement creates a new one. */
  lemma FractionsNormalised(s: string)
    ensures !Contains(NormaliseFractions(s), ['1', FractionSlash, '8'])
    ensures !Contains(NormaliseFractions(s), ['1', FractionSlash, '4'])
    ensures !Contains(NormaliseFractions(s), ['1', FractionSlash, '2'])
  {
    var e, q, h := ['1', FractionSlash, '8'], ['1', FractionSlash, '4'], ['1', FractionSlash, '2'];
    var e', q', h' := ['1', DivisionSlash, '8'], ['1', DivisionSlash, '4'], ['1', DivisionSlash, '2'];
    var s1 := ReplaceAll(s, e, e');
    var s2 := ReplaceAll(s1, q, q');
    ReplaceAllLeavesNoOccurrence(s, e, e', e);
    ReplaceAllLeavesNoOccurrence(s1, q, q', e);
    ReplaceAllLeavesNoOccurrence(s2, h, h', e);
    ReplaceAllLeavesNoOccurrence(s1, q, q', q);
    ReplaceAllLeavesNoOccurrence(s2, h, h', q);
    ReplaceAllLeavesNoOccurrence(s2, h, h', h);
  }

  lemma QuietAppend(a: string, b: string)
    requires Quiet(a) && Quiet(b)
    ensures Quiet(a + b)
  {
  }

  lemma EntryWhitelists(i: nat, s: string)
    requires i < |Whitelist| && Admits(Whitelist[i], s)
    ensures Whitelisted(s)
  {
  }

  /** The mapping accepts a name exactly when it is not skipped and its rewrite
      is whitelisted. */
  lemma AcceptedWhen(filename: string, name: string)
    requires !Skipped(filename) && Rewrite(filename) == name && Whitelisted(name)
    ensures DetermineOutputFilename(filename) == Ok(name)
  {
  }

  /** A `.png` name cannot be a link, a document or a map-making asset unless its
      fixed opening is `Mapmaking/`. */
  lemma PngNotSkipped(head: string, tail: string)
    requires EndsWith(tail, ".png")
    requires |head| > 0 && head[0] != 'M'
    ensures !Skipped(head + tail)
  {
    EndsWithAppend(head, tail, ".url");
    EndsWithAppend(head, tail, ".pdf");
    EndsWithAppend(head, tail, ".png");
    assert (head + tail)[0] == head[0];
  }

  /** A run of decimal digits, one or more: the number of a Townsfolk folder. */
  predicate Digits(n: string) {
    |n| > 0 && forall k | 0 <= k < |n| :: IsDigit(n[k])
  }

  /** Digits contain none of the characters any rewrite starts from. */
  lemma DigitsCalm(n: string)
    requires Digits(n)
    ensures Quiet(n) && 'U' !in n && 'w' !in n
  {
    forall c | c in n
      ensures IsDigit(c)
    {
      var k :| 0 <= k < |n| && n[k] == c;
    }
  }

  /** The numbered Townsfolk folders merge into one: the digits after `Townsfolk_`
      are dropped at the first occurrence. */
  lemma TownsfolkNumberDropped(n: string, tail: string)
    requires Digits(n)
    ensures ReplaceFirst(TownsfolkNumber, "Tokens/NPCs/Townsfolk_" + n + "/" + tail) == "Tokens/NPCs/Townsfolk/" + tail
  {
    var s := "Tokens/NPCs/Townsfolk_" + n + "/" + tail;
    TownsfolkFirstMatch(n, tail);
    ReplaceFirstAtLeftmost(TownsfolkNumber, s, 12);
    TownsfolkSlices(n, tail);
    TownsfolkJoin(tail);
  }

  lemma TownsfolkSlices(n: string, tail: string)
    ensures ("Tokens/NPCs/Townsfolk_" + n + "/" + tail)[..12] == "Tokens/NPCs/"
    ensures ("Tokens/NPCs/Townsfolk_" + n + "/" + tail)[22 + |n|..] == "/" + tail
  {
    var s := "Tokens/NPCs/Townsfolk_" + n + "/" + tail;
    assert s == "Tokens/NPCs/Townsfolk_" + n + ("/" + tail);
  }

  lemma TownsfolkJoin(tail: string)
    ensures "Tokens/NPCs/" + "Townsfolk" + ("/" + tail) == "Tokens/NPCs/Townsfolk/" + tail
  {
    var a := "Tokens/NPCs/" + "Townsfolk";
    assert a + ("/" + tail) == (a + "/") + tail;
    assert a + "/" == "Tokens/NPCs/Townsfolk/";
  }

  /** The first match of the Townsfolk pattern covers `Townsfolk_` and the whole
      folder number. */
  lemma TownsfolkFirstMatch(n: string, tail: string)
    requires Digits(n)
    ensures MatchAt(TownsfolkNumber, "Tokens/NPCs/Townsfolk_" + n + "/" + tail, 12) == Some(Hit(22 + |n|, "Townsfolk"))
    ensures forall k :: 0 <= k < 12 ==> MatchAt(TownsfolkNumber, "Tokens/NPCs/Townsfolk_" + n + "/" + tail, k).None?
  {
    var s := "Tokens/NPCs/Townsfolk_" + n + "/" + tail;
    TownsfolkShape(n, tail);
    assert s[..14] == s[..22][..14] == "Tokens/NPCs/To";
    NoMatchBefore(TownsfolkNumber, s, 12, 2);
    assert s[12..22] == s[..22][12..] == "Townsfolk_";
    DigitRunTo(s, 22, 22 + |n|);
  }

  /** Where the parts of a numbered Townsfolk token sit. */
  lemma TownsfolkShape(n: string, tail: string)
    ensures var s := "Tokens/NPCs/Townsfolk_" + n + "/" + tail;
      && |s| == 23 + |n| + |tail|
      && s[..22] == "Tokens/NPCs/Townsfolk_"
      && (forall k | 22 <= k < 22 + |n| :: s[k] == n[k - 22])
      && s[22 + |n|] == '/'
  {
    var p := "Tokens/NPCs/Townsfolk_";
    var s := p + n + "/" + tail;
    assert s == p + (n + ("/" + tail));
  }

  /** The rewrites before the Townsfolk one leave a numbered Townsfolk token alone. */
  lemma TownsfolkTidyIdle(n: string, tail: string)
    requires Digits(n) && Quiet(tail)
    ensures Tidy("Tokens/NPCs/Townsfolk_" + n + "/" + tail) == "Tokens/NPCs/Townsfolk_" + n + "/" + tail
  {
    TownsfolkFolderQuiet();
    DigitsCalm(n);
    QuietAppend("Tokens/NPCs/Townsfolk_", n);
    QuietAppend("Tokens/NPCs/Townsfolk_" + n, "/");
    QuietAppend("Tokens/NPCs/Townsfolk_" + n + "/", tail);
  }

  lemma TownsfolkFolderQuiet()
    ensures Quiet("Tokens/NPCs/Townsfolk_") && Quiet("/")
  {
    var a, b, c, d := "Tokens/", "NPCs/", "Townsf", "olk_";
    assert Quiet(a);
    assert Quiet(b);
    assert Quiet(c);
    assert Quiet(d);
    QuietAppend(a, b);
    QuietAppend(a + b, c);
    QuietAppend(a + b + c, d);
    assert a + b + c + d == "Tokens/NPCs/Townsfolk_";
  }

  /** The names after the Townsfolk rewrite are neither root creatures nor unknown ratings. */
  lemma TownsfolkLaterRulesIdle(tail: string)
    requires 'U' !in tail
    ensures ReplaceFirst(Literal("Unknown_CR", "CR_unknown"), RootCreatures("Tokens/NPCs/Townsfolk/" + tail))
         == "Tokens/NPCs/Townsfolk/" + tail
  {
    var t := "Tokens/NPCs/Townsfolk/" + tail;
    assert !StartsWith(t, "Creatures") by { assert t[0] != 'C'; }
    assert 'U' !in t;
    UnchangedWithout(Literal("Unknown_CR", "CR_unknown"), t, 'U');
  }

  lemma TownsfolkRewrite(n: string, tail: string)
    requires Digits(n) && Quiet(tail) && 'U' !in tail
    ensures Rewrite("Tokens/NPCs/Townsfolk_" + n + "/" + tail) == "Tokens/NPCs/Townsfolk/" + tail
  {
    TownsfolkTidyIdle(n, tail);
    TownsfolkNumberDropped(n, tail);
    TownsfolkLaterRulesIdle(tail);
  }

  /** The merged Townsfolk folder is one of the accepted NPC folders. */
  lemma TownsfolkWhitelisted(tail: string)
    ensures Whitelisted("Tokens/NPCs/Townsfolk/" + tail)
  {
    var t := "Tokens/NPCs/Townsfolk/" + tail;
    assert StartsWith(t, "Tokens/NPCs/" + "Townsfolk" + "/");
    assert Whitelist[7] == Folder("Tokens/NPCs/", NpcGroups) && Admits(Whitelist[7], t);
    EntryWhitelists(7, t);
  }

  /** A token in any numbered Townsfolk folder is accepted into the single
      `Tokens/NPCs/Townsfolk/` folder, whatever its own name (provided that name
      triggers no other rewrite). */
  lemma TownsfolkFolderMerged(n: string, tail: string)
    requires Digits(n) && Quiet(tail) && 'U' !in tail
    requires EndsWith(tail, ".png")
    ensures DetermineOutputFilename("Tokens/NPCs/Townsfolk_" + n + "/" + tail) == Ok("Tokens/NPCs/Townsfolk/" + tail)
  {
    var s := "Tokens/NPCs/Townsfolk_" + n + "/" + tail;
    TownsfolkRewrite(n, tail);
    var head := "Tokens/NPCs/Townsfolk_" + n + "/";
    assert head[0] == 'T';
    PngNotSkipped(head, tail);
    TownsfolkWhitelisted(tail);
    AcceptedWhen(s, "Tokens/NPCs/Townsfolk/" + tail);
  }

  lemma TownsfolkExample()
    ensures DetermineOutputFilename("Tokens/NPCs/Townsfolk_02/" + "Townsfolk_AA1_01.png")
         == Ok("Tokens/NPCs/Townsfolk/" + "Townsfolk_AA1_01.png")
  {
    var tail := "Townsfolk_AA1_01.png";
    TownsfolkNameQuiet();
    assert EndsWith(tail, ".png") by { assert tail[|tail| - 4..] == ".png"; }
    assert Digits("02");
    assert "Tokens/NPCs/Townsfolk_" + "02" + "/" == "Tokens/NPCs/Townsfolk_02/";
    TownsfolkFolderMerged("02", tail);
  }

  lemma TownsfolkNameQuiet()
    ensures Quiet("Townsfolk_AA1_01.png") && 'U' !in "Townsfolk_AA1_01.png"
  {
    var a, b, c := "Townsf", "olk_AA", "1_01.png";
    assert Quiet(a) && 'U' !in a;
    assert Quiet(b) && 'U' !in b;
    assert Quiet(c) && 'U' !in c;
    QuietAppend(a, b);
    QuietAppend(a + b, c);
    assert a + b + c == "Townsfolk_AA1_01.png";
  }

  /** A challenge-rating folder of one or two digits, such as `1` or `10`. */
  predicate RatingNumber(r: string) {
    Digits(r) && |r| <= 2
  }

  /** The rewrites before the root-creatures one leave such a name alone. */
  lemma RootCreaturesTidyIdle(r: string, tail: string)
    requires RatingNumber(r) && Quiet(tail) && 'w' !in tail
    ensures ReplaceFirst(TownsfolkNumber, Tidy("Creatures/CR_" + r + "/" + tail)) == "Creatures/CR_" + r + "/" + tail
  {
    var s := "Creatures/CR_" + r + "/" + tail;
    RootCreaturesCharsAbsent(r, tail);
    UnchangedWithout(TownsfolkNumber, s, 'w');
  }

  lemma RootCreaturesCharsAbsent(r: string, tail: string)
    requires RatingNumber(r) && Quiet(tail) && 'w' !in tail
    ensures Quiet("Creatures/CR_" + r + "/" + tail) && 'w' !in "Creatures/CR_" + r + "/" + tail
  {
    DigitsCalm(r);
    assert Quiet("Creatures/CR_") && Quiet("/");
    QuietAppend("Creatures/CR_", r);
    QuietAppend("Creatures/CR_" + r, "/");
    QuietAppend("Creatures/CR_" + r + "/", tail);
  }

  /** The unknown-rating rewrite does not fire on the moved name. */
  lemma RootCreaturesUnknownIdle(r: string, tail: string)
    requires RatingNumber(r) && 'U' !in tail
    ensures ReplaceFirst(Literal("Unknown_CR", "CR_unknown"), "Tokens/" + ("Creatures/CR_" + r + "/" + tail))
         == "Tokens/" + ("Creatures/CR_" + r + "/" + tail)
  {
    var t := "Tokens/" + ("Creatures/CR_" + r + "/" + tail);
    MovedFolderLacksU();
    DigitsCalm(r);
    assert 'U' !in t;
    UnchangedWithout(Literal("Unknown_CR", "CR_unknown"), t, 'U');
  }

  lemma MovedFolderLacksU()
    ensures 'U' !in "Tokens/" && 'U' !in "Creatures/CR_" && 'U' !in "/"
  {
    assert "Creatures/CR_" == "Creatures/" + "CR_";
    assert 'U' !in "Creatures/" && 'U' !in "CR_";
  }

  lemma RootCreaturesRewrite(r: string, tail: string)
    requires RatingNumber(r) && Quiet(tail)
    requires 'U' !in tail && 'w' !in tail
    ensures Rewrite("Creatures/CR_" + r + "/" + tail) == "Tokens/Creatures/CR_" + r + "/" + tail
  {
    var s := "Creatures/CR_" + r + "/" + tail;
    RootCreaturesTidyIdle(r, tail);
    RootCreaturesPrefix(r, tail);
    assert RootCreatures(ReplaceFirst(TownsfolkNumber, Tidy(s))) == "Tokens/" + s;
    RootCreaturesUnknownIdle(r, tail);
    MovedJoin(r, tail);
  }

  lemma RootCreaturesPrefix(r: string, tail: string)
    ensures StartsWith("Creatures/CR_" + r + "/" + tail, "Creatures")
  {
    var s := "Creatures/CR_" + r + "/" + tail;
    assert s[..9] == "Creatures/CR_"[..9];
  }

  lemma MovedJoin(r: string, tail: string)
    ensures "Tokens/" + ("Creatures/CR_" + r + "/" + tail) == "Tokens/Creatures/CR_" + r + "/" + tail
  {
    assert "Tokens/" + "Creatures/CR_" == "Tokens/Creatures/CR_";
  }

  /** A one- or two-digit folder after `CR_` is a challenge-rating folder. */
  lemma RatingFolder(r: string, tail: string)
    requires RatingNumber(r)
    ensures RatingFolderAt("Tokens/Creatures/CR_" + r + "/" + tail, 20, true)
  {
    var t := "Tokens/Creatures/CR_" + r + "/" + tail;
    var k := 20 + |r|;
    assert t[k] == '/';
    assert t[20..k] == r;
    assert RatingShape(t, 20, k, true);
  }

  /** The creature entry's pattern admits a name in such a folder. */
  lemma RatingAdmitted(r: string, tail: string)
    requires RatingNumber(r)
    ensures Admits(Rating(["Tokens/Creatures/CR_"], true), "Tokens/Creatures/CR_" + r + "/" + tail)
  {
    var p := "Tokens/Creatures/CR_";
    RatingFolder(r, tail);
    assert p + r + "/" + tail == p + (r + "/" + tail);
    StartsWithAppend(p, r + "/" + tail, p);
    assert p in [p] && |p| == 20;
  }

  lemma CreatureRatingEntry()
    ensures Whitelist[1] == Rating(["Tokens/Creatures/CR_"], true)
  {
  }

  /** A name in a one- or two-digit challenge-rating folder is accepted by the
      creature entry. */
  lemma RatingWhitelisted(r: string, tail: string)
    requires RatingNumber(r)
    ensures Whitelisted("Tokens/Creatures/CR_" + r + "/" + tail)
  {
    RatingAdmitted(r, tail);
    CreatureRatingEntry();
    EntryWhitelists(1, "Tokens/Creatures/CR_" + r + "/" + tail);
  }

  /** A creature pack packed without the `Tokens/` folder is moved under it, into
      its challenge-rating folder. */
  lemma RootCreaturesMoved(r: string, tail: string)
    requires RatingNumber(r) && Quiet(tail)
    requires 'U' !in tail && 'w' !in tail
    requires EndsWith(tail, ".png")
    ensures DetermineOutputFilename("Creatures/CR_" + r + "/" + tail) == Ok("Tokens/Creatures/CR_" + r + "/" + tail)
  {
    RootCreaturesRewrite(r, tail);
    var head := "Creatures/CR_" + r + "/";
    assert head[0] == 'C';
    PngNotSkipped(head, tail);
    RatingWhitelisted(r, tail);
    AcceptedWhen("Creatures/CR_" + r + "/" + tail, "Tokens/Creatures/CR_" + r + "/" + tail);
  }

  lemma CalmAppend(a: string, b: string)
    requires Calm(a) && Calm(b)
    ensures Calm(a + b)
  {
    QuietAppend(a, b);
  }

  lemma GiantCalm()
    ensures Calm("Giant_Bearded_")
  {
    assert Calm("Giant_");
    assert Calm("Bearded_");
    CalmAppend("Giant_", "Bearded_");
  }

  lemma VultureCalm()
    ensures Calm("Vulture_Large_")
  {
    assert Calm("Vulture_");
    assert Calm("Large_");
    CalmAppend("Vulture_", "Large_");
  }

  lemma BeastCalm()
    ensures Calm("Beast_01.png")
  {
    assert Calm("Beast_");
    assert Calm("01.png");
    CalmAppend("Beast_", "01.png");
  }

  /** The name in the documented example triggers none of the other rewrites. */
  lemma VultureNameClean()
    ensures var tail := "Giant_Bearded_" + "Vulture_Large_" + "Beast_01.png";
      Quiet(tail)
      && 'U' !in tail && 'w' !in tail && EndsWith(tail, ".png")
  {
    var a, b, c := "Giant_Bearded_", "Vulture_Large_", "Beast_01.png";
    GiantCalm();
    VultureCalm();
    BeastCalm();
    QuietAppend(a, b);
    QuietAppend(a + b, c);
    EndsWithAppend(a + b, c, ".png");
  }

  lemma RootCreaturesExample()
    ensures DetermineOutputFilename("Creatures/CR_1/" + ("Giant_Bearded_" + "Vulture_Large_" + "Beast_01.png"))
         == Ok("Tokens/Creatures/CR_1/" + ("Giant_Bearded_" + "Vulture_Large_" + "Beast_01.png"))
  {
    var tail := "Giant_Bearded_" + "Vulture_Large_" + "Beast_01.png";
    VultureNameClean();
    assert RatingNumber("1");
    assert "Creatures/CR_" + "1" + "/" == "Creatures/CR_1/";
    assert "Tokens/Creatures/CR_" + "1" + "/" == "Tokens/Creatures/CR_1/";
    RootCreaturesMoved("1", tail);
  }
}
