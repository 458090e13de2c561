/** The mapping from a file's path inside a token archive to its path in the
    bucket: a fixed chain of rewrites that tidies up the naming of the different
    packs, followed by a whitelist of known folders. Unknown paths are an error
    so that a new pack cannot be uploaded to an unexpected place. */
module FilenameHandling {
  import opened Text
  import opened Patterns
  import opened Optional

  /** `null` (skip the file), the rewritten name, or the thrown error with the
      name it complains about. */
  datatype Outcome = Skip | Ok(name: string) | Error(name: string)

  const DivisionSlash: char := '\U{2215}'
  const FractionSlash: char := '\U{2044}'

  /** Links, documents and the map-making assets are not tokens. */
  predicate Skipped(filename: string)
    ensures EndsWith(filename, ".png") && !StartsWith(filename, "Mapmaking/") ==> !Skipped(filename)
  {
    EndsWith(filename, ".url") || EndsWith(filename, ".pdf") || StartsWith(filename, "Mapmaking/")
  }

  /** `/^FA_Tokens\//` replaced by `Tokens/`: the pattern is anchored, so only a
      leading occurrence is rewritten. */
  function DropFaPrefix(s: string): (r: string)
    ensures StartsWith(s, "FA_Tokens/") ==> "FA_" + r == s
    ensures !StartsWith(s, "FA_Tokens/") ==> r == s
  {
    if StartsWith(s, "FA_Tokens/") then "Tokens/" + s[|"FA_Tokens/"|..] else s
  }

  /** The three global rewrites of `1⁄8`, `1⁄4` and `1⁄2` (fraction slash) into
      `1∕8`, `1∕4` and `1∕2` (division slash). */
  function NormaliseFractions(s: string): (r: string)
    ensures |r| == |s|
    ensures FractionSlash !in s ==> r == s
  {
    var eighths := ReplaceAll(s, ['1', FractionSlash, '8'], ['1', DivisionSlash, '8']);
    var quarters := ReplaceAll(eighths, ['1', FractionSlash, '4'], ['1', DivisionSlash, '4']);
    if FractionSlash in s then ReplaceAll(quarters, ['1', FractionSlash, '2'], ['1', DivisionSlash, '2'])
    else
      ReplaceAllWithout(s, ['1', FractionSlash, '8'], ['1', DivisionSlash, '8'], FractionSlash);
      ReplaceAllWithout(s, ['1', FractionSlash, '4'], ['1', DivisionSlash, '4'], FractionSlash);
      ReplaceAllWithout(s, ['1', FractionSlash, '2'], ['1', DivisionSlash, '2'], FractionSlash);
      ReplaceAll(quarters, ['1', FractionSlash, '2'], ['1', DivisionSlash, '2'])
  }

  /** Packs whose creature folder sits directly under the root get `Tokens/` in front. */
  function RootCreatures(s: string): (r: string)
    ensures StartsWith(s, "Creatures") ==> StartsWith(r, "Tokens/Creatures") && r[|"Tokens/"|..] == s
    ensures !StartsWith(s, "Creatures") ==> r == s
  {
    if StartsWith(s, "Creatures") then "Tokens/" + s else s
  }

  /** None of the characters that the rewrites before the Townsfolk one
      start from. */
  predicate Quiet(s: string) {
    'S' !in s && ' ' !in s && '-' !in s && 'F' !in s && FractionSlash !in s
  }

  /** No character that any rewrite before the whitelist starts from. */
  predicate Calm(s: string) {
    Quiet(s) && 'U' !in s && 'w' !in s
  }

  /** The rewrites that reconcile the folder names of the different packs, in
      source order. */
  function RenameFolders(filename: string): (r: string)
    ensures Quiet(filename) ==> r == filename
  {
    var s1 := DropFaPrefix(filename);
    var s2 := ReplaceFirst(SpiritsPack, s1);
    var s3 := ReplaceFirst(Literal("Spirits/Creature_Spirits/", "Spirits/Creatures/"), s2);
    var s4 := ReplaceFirst(SpiritsGroup, s3);
    var s5 := ReplaceFirst(Literal("Spirits/Commoner_Spirits/", "Spirits/Commoners/"), s4);
    if !Quiet(filename) then ReplaceFirst(Literal("Creature Tokens Pack 2/", "Tokens/"), s5)
    else
      AbsentCharExcludes(filename, "FA_Tokens/", 'F');
      UnchangedWithout(SpiritsPack, filename, 'S');
      UnchangedWithout(Literal("Spirits/Creature_Spirits/", "Spirits/Creatures/"), filename, 'S');
      UnchangedWithout(SpiritsGroup, filename, 'S');
      UnchangedWithout(Literal("Spirits/Commoner_Spirits/", "Spirits/Commoners/"), filename, 'S');
      UnchangedWithout(Literal("Creature Tokens Pack 2/", "Tokens/"), filename, ' ');
      ReplaceFirst(Literal("Creature Tokens Pack 2/", "Tokens/"), s5)
  }

  /** The rewrites of fractions, ratings and the heroes' spirit folder that
      follow, in source order. */
  function FixNames(s: string): (r: string)
    ensures Quiet(s) ==> r == s
  {
    var s7 := NormaliseFractions(s);
    var s8 := ReplaceFirst(ChallengeRating, s7);
    var s9 := ReplaceFirst(Literal("_Catch-All_Heroes", "Catch-All_Heroes"), s8);
    if !Quiet(s) then
      ReplaceFirst(Literal("Tokens/Spirits/Catch-All_Heroes_Spirits", "Tokens/Spirits/Catch-All_Heroes"), s9)
    else
      UnchangedWithout(ChallengeRating, s, ' ');
      UnchangedWithout(Literal("_Catch-All_Heroes", "Catch-All_Heroes"), s, '-');
      UnchangedWithout(Literal("Tokens/Spirits/Catch-All_Heroes_Spirits", "Tokens/Spirits/Catch-All_Heroes"), s, 'S');
      ReplaceFirst(Literal("Tokens/Spirits/Catch-All_Heroes_Spirits", "Tokens/Spirits/Catch-All_Heroes"), s9)
  }

  /** Both groups of rewrites before the Townsfolk one. */
  function Tidy(filename: string): (r: string)
    ensures Quiet(filename) ==> r == filename
  {
    FixNames(RenameFolders(filename))
  }

  /** Every rewrite between the skip tests and the whitelist, in source order. */
  function Rewrite(filename: string): (r: string)
    ensures Calm(filename) && !StartsWith(filename, "Creatures") ==> r == filename
  {
    var townsfolk := ReplaceFirst(TownsfolkNumber, Tidy(filename));
    if Calm(filename) && !StartsWith(filename, "Creatures") then
      CalmPassesLaterRules(filename);
      ReplaceFirst(Literal("Unknown_CR", "CR_unknown"), RootCreatures(townsfolk))
    else ReplaceFirst(Literal("Unknown_CR", "CR_unknown"), RootCreatures(townsfolk))
  }

  lemma CalmPassesLaterRules(filename: string)
    requires Calm(filename) && !StartsWith(filename, "Creatures")
    ensures ReplaceFirst(Literal("Unknown_CR", "CR_unknown"),
                         RootCreatures(ReplaceFirst(TownsfolkNumber, Tidy(filename)))) == filename
  {
    assert Tidy(filename) == filename;
    UnchangedWithout(TownsfolkNumber, filename, 'w');
    assert RootCreatures(filename) == filename;
    UnchangedWithout(Literal("Unknown_CR", "CR_unknown"), filename, 'U');
  }

  const CreatureTypes: seq<string> :=
    ["Aberration", "Beast", "Celestial", "Construct", "Dragon", "Elemental", "Fey", "Fiend",
     "Giant", "Guards_Desert", "Humanoid", "Monstrosity", "Ooze", "Plant", "Undead"]

  const SpiritGroups: seq<string> :=
    ["Adversaries", "Catch-All_Heroes", "Commoners", "Creatures", "Heroes", "NPCs"]

  const HeroAncestries: seq<string> :=
    ["Bearfolk", "Catch-All_Heroes", "Dragonborn", "Dwarf", "Elf", "Firbolg", "Gnome", "Goliath",
     "Halfling", "Half_Elf", "Half_Orc", "Human", "Gnoll", "Kenku", "Kitsune", "Planetouched",
     "Tabaxi", "Tiefling", "Tortle", "Trollkin", "Warforged"]

  const NpcGroups: seq<string> := ["Commoners", "Townsfolk"]

  /** The text between `i` and a slash at `k` has the shape `\d?∕?\d?` (or
      `\d∕?\d?` when `digitFirst`), choosing each optional part either way. */
  predicate RatingShape(s: string, i: nat, k: nat, digitFirst: bool)
    requires i <= k <= |s|
  {
    var t := s[i..k];
    match |t|
    case 0 => !digitFirst
    case 1 => IsDigit(t[0]) || (!digitFirst && t[0] == DivisionSlash)
    case 2 => (IsDigit(t[0]) && (t[1] == DivisionSlash || IsDigit(t[1])))
              || (!digitFirst && t[0] == DivisionSlash && IsDigit(t[1]))
    case 3 => IsDigit(t[0]) && t[1] == DivisionSlash && IsDigit(t[2])
    case _ => false
  }

  /** A challenge-rating folder such as `1/`, `1∕2/` or `10/` starts at `i`. */
  predicate RatingFolderAt(s: string, i: nat, digitFirst: bool) {
    exists k: nat | i <= k < |s| && k <= i + 3 :: s[k] == '/' && RatingShape(s, i, k, digitFirst)
  }

  /** One element of the whitelist: a plain prefix (matched with `startsWith`), or
      one of the anchored regular expressions, which open with one of a few fixed
      prefixes and continue with a challenge-rating folder or one of a list of
      folder names. */
  datatype Entry =
    | Fixed(prefix: string)
    | Rating(prefixes: seq<string>, digitFirst: bool)
    | Folder(prefix: string, names: seq<string>)

  /** Whether the whitelist entry accepts the name. */
  predicate Admits(e: Entry, s: string) {
    match e
    case Fixed(p) => StartsWith(s, p)
    case Rating(ps, digitFirst) => exists p :: p in ps && StartsWith(s, p) && RatingFolderAt(s, |p|, digitFirst)
    case Folder(p, names) => exists n :: n in names && StartsWith(s, p + n + "/")
  }

  /** The known-good prefixes, in source order. */
  const Whitelist: seq<Entry> := [
    Fixed("Tokens/Adversaries/"),
    Rating(["Tokens/Creatures/CR_"], true),
    Rating(["Tokens/Base/CR_", "Tokens/Baseless/CR_"], false),
    Fixed("Tokens/Creatures/CR_unknown/"),
    Folder("Tokens/Creatures/", CreatureTypes),
    Folder("Tokens/Spirits/", SpiritGroups),
    Folder("Tokens/Heroes/", HeroAncestries),
    Folder("Tokens/NPCs/", NpcGroups),
    Fixed("Tokens/Spirits/Catch-All_Heroes_Spirits/")
  ]

  /** `goodKnownPrefixes.some(…)`. */
  predicate Whitelisted(s: string)
    ensures StartsWith(s, "Tokens/Adversaries/") ==> Whitelisted(s)
    ensures StartsWith(s, "Tokens/Creatures/CR_unknown/") ==> Whitelisted(s)
    ensures StartsWith(s, "Tokens/Spirits/Catch-All_Heroes_Spirits/") ==> Whitelisted(s)
  {
    assert Admits(Whitelist[0], s) <==> StartsWith(s, "Tokens/Adversaries/");
    assert Admits(Whitelist[3], s) <==> StartsWith(s, "Tokens/Creatures/CR_unknown/");
    assert Admits(Whitelist[8], s) <==> StartsWith(s, "Tokens/Spirits/Catch-All_Heroes_Spirits/");
    exists e :: e in Whitelist && Admits(e, s)
  }

  function DetermineOutputFilename(filename: string): (r: Outcome)
    ensures r.Skip? <==> Skipped(filename)
    ensures r.Ok? ==> Whitelisted(r.name)
    ensures r.Error? ==> !Whitelisted(r.name)
    ensures !r.Skip? ==> r.name == Rewrite(filename)
  {
    if Skipped(filename) then Skip
    else
      var s := Rewrite(filename);
      if Whitelisted(s) then Ok(s) else Error(s)
  }
}
