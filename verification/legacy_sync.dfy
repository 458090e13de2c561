/** The decisions of the older `index.js` synchroniser. It stored the `.png`
    files themselves, tiered by their own size, gave later copies a `_Alt.png`
    key, and knew only one content type. Its `fixFilename` is the same
    procedure as `determineOutputFilename`. */
module LegacySync {
  import opened Optional
  import opened Text
  import opened Patterns
  import opened FilenameHandling
  import opened SyncRules

  /** `fixFilename`: skipped (`null`), accepted, or refused (the thrown error)
      exactly as the current name pipeline decides. */
  function FixFilename(filename: string): (r: Outcome)
    ensures r.Skip? <==> Skipped(filename)
    ensures r.Ok? ==> Whitelisted(r.name)
    ensures r.Error? ==> !Whitelisted(r.name)
    ensures !r.Skip? ==> r.name == Rewrite(filename)
  {
    DetermineOutputFilename(filename)
  }

  // ---- Storage class ----

  /** The older tiering: one-zone infrequent access from 96 KiB up to 128 KiB,
      intelligent tiering below and above. */
  function LegacyStorageClassFor(size: int): (c: StorageClass)
    ensures c == OnezoneIa <==> 96 * KiB <= size < 128 * KiB
    ensures c == IntelligentTiering <==> size < 96 * KiB || 128 * KiB <= size
  {
    var c := IntelligentTiering;
    var c := if size < 128 * KiB then OnezoneIa else c;
    if size < 96 * KiB then IntelligentTiering else c
  }

  /** The older rule and the current one agree exactly from 96 KiB on; below,
      the older one chose intelligent tiering where the current one chooses
      standard or one-zone infrequent access. */
  lemma LegacyAgreesFrom96KiB(size: int)
    ensures LegacyStorageClassFor(size) == StorageClassFor(size) <==> 96 * KiB <= size
  {
  }

  /** The older tiering is not ordered by size: a small object lands in a
      higher tier than a slightly larger one. */
  lemma LegacyNotMonotone()
    ensures Tier(LegacyStorageClassFor(95 * KiB)) > Tier(LegacyStorageClassFor(96 * KiB))
  {
  }

  // ---- Keys ----

  /** The key of an output name: the name itself under the bucket folder. */
  function LegacyKey(name: string): (k: string)
    ensures StartsWith(k, KeyPrefix) && k[|KeyPrefix|..] == name
  {
    KeyPrefix + name
  }

  /** The key of a later copy: the first `.png` becomes `_Alt.png`. */
  function LegacyAltKey(key: string): (r: string)
    ensures !Contains(key, ".png") ==> r == key
    ensures Contains(key, ".png") ==> |r| == |key| + 4
  {
    LegacyAltKeyInsertsAlt(key);
    ReplaceFirst(Literal(".png", "_Alt.png"), key)
  }

  /** `_Alt` goes in right before the first `.png` of the key. */
  lemma LegacyAltKeyInsertsAlt(key: string)
    ensures Contains(key, ".png") ==> exists j: nat | j + 4 <= |key| ::
      (OccursAt(key, ".png", j) && (forall i: nat | i < j :: !OccursAt(key, ".png", i))
       && ReplaceFirst(Literal(".png", "_Alt.png"), key) == key[..j] + "_Alt" + key[j..])
    ensures !Contains(key, ".png") ==> ReplaceFirst(Literal(".png", "_Alt.png"), key) == key
  {
    assert "_Alt" + ".png" == "_Alt.png";
    InsertBeforeFirst(".png", "_Alt", key);
  }

  /** The key for a token given the keys already taken: the plain key if free,
      otherwise its `_Alt` form, which aborts the run if it contains
      `_Alt_Alt`. */
  function LegacyKeyFor(expected: map<string, string>, name: string): (r: Keyed)
    ensures LegacyKey(name) !in expected ==> r == Keyed(LegacyKey(name))
    ensures LegacyKey(name) in expected ==> r.key == LegacyAltKey(LegacyKey(name))
    ensures r.DoubleAlt? <==> LegacyKey(name) in expected && Contains(LegacyAltKey(LegacyKey(name)), "_Alt_Alt")
  {
    var key := LegacyKey(name);
    if key !in expected then Keyed(key)
    else
      var alt := LegacyAltKey(key);
      if Contains(alt, "_Alt_Alt") then DoubleAlt(alt) else Keyed(alt)
  }

  /** When no dot comes before the final `.png`, the `_Alt` goes right
      before it. */
  lemma LegacyAltKeyBeforeExtension(s: string)
    requires '.' !in s
    ensures LegacyAltKey(s + ".png") == s + "_Alt.png"
  {
    var k := s + ".png";
    forall i: nat | i < |s|
      ensures !OccursAt(k, ".png", i)
    {
      assert k[i] == s[i];
    }
    assert OccursAt(k, ".png", |s|);
    LiteralFirstOccurrence(".png", "_Alt.png", k, |s|);
    assert k[..|s|] == s;
    assert k[|s| + 4..] == [];
  }

  /** The `_Alt` key of a name without dots before its extension. */
  lemma LegacyAltKeyOfPlainName(stem: string)
    requires '.' !in stem
    ensures LegacyAltKey(LegacyKey(stem + ".png")) == KeyPrefix + stem + "_Alt.png"
  {
    PrefixDotFree(stem);
    assert LegacyKey(stem + ".png") == (KeyPrefix + stem) + ".png";
    LegacyAltKeyBeforeExtension(KeyPrefix + stem);
  }

  /** A second copy of a token whose name already ends in `_Alt` aborts the
      run, as in the current synchroniser. */
  lemma LegacyAltNamedCopyAborts(expected: map<string, string>, stem: string)
    requires '.' !in stem && LegacyKey(stem + "_Alt.png") in expected
    ensures LegacyKeyFor(expected, stem + "_Alt.png").DoubleAlt?
  {
    LegacyAltOfAltName(stem);
    OccursInMiddle(KeyPrefix + stem, "_Alt_Alt", ".png");
  }

  /** The `_Alt` key of a name already ending in `_Alt` doubles it. */
  lemma LegacyAltOfAltName(stem: string)
    requires '.' !in stem
    ensures LegacyAltKey(LegacyKey(stem + "_Alt.png")) == KeyPrefix + stem + "_Alt_Alt" + ".png"
  {
    AltAltJoin(KeyPrefix, stem, "_Alt.png", ".png");
    LegacyAltKeyOfAltNamed(stem);
  }

  lemma LegacyAltKeyOfAltNamed(stem: string)
    requires '.' !in stem
    ensures LegacyAltKey(LegacyKey(stem + "_Alt.png")) == KeyPrefix + (stem + "_Alt") + "_Alt.png"
  {
    var s := stem + "_Alt";
    assert stem + "_Alt.png" == s + ".png";
    assert '.' !in s;
    LegacyAltKeyOfPlainName(s);
  }

  /** An encoded name never ends in `.png`. */
  lemma AvifNameNotPng(n: string)
    ensures !EndsWith(AvifName(n), ".png")
  {
    if EndsWith(n, ".png") {
      var r := AvifName(n);
      assert r[|r| - 1] == 'f';
    }
  }

  /** No key the current synchroniser proposes is the key the older one gave
      a `.png` token, so those objects are never claimed under their own
      name again. */
  lemma LegacyKeyNeverProposed(name: string, n: string)
    requires EndsWith(name, ".png")
    ensures LegacyKey(name) != ProposedKey(n)
  {
    if LegacyKey(name) == ProposedKey(n) {
      assert (KeyPrefix + name)[|KeyPrefix|..] == name;
      assert (KeyPrefix + AvifName(n))[|KeyPrefix|..] == AvifName(n);
      AvifNameNotPng(n);
      assert false;
    }
  }

  // ---- Decision and content type ----

  /** The action for a token of `size` bytes, given the object under its key:
      upload if absent, delete and upload if the size differs, otherwise copy
      to the right class if it differs. */
  function LegacyDecide(existing: Option<Listed>, size: int): (a: Action)
    ensures existing.None? ==> a == Upload(LegacyStorageClassFor(size))
    ensures existing.Some? && existing.value.size != size ==> a == ReplaceThenUpload(LegacyStorageClassFor(size))
    ensures existing.Some? && existing.value.size == size ==>
      (a == Unchanged <==> existing.value.storageClass == LegacyStorageClassFor(size))
    ensures existing.Some? && existing.value.size == size && a != Unchanged ==>
      a == ChangeClass(LegacyStorageClassFor(size))
  {
    var c := LegacyStorageClassFor(size);
    match existing
    case None => Upload(c)
    case Some(o) =>
      if o.size != size then ReplaceThenUpload(c)
      else if c != o.storageClass then ChangeClass(c)
      else Unchanged
  }

  /** The older run compared the real size, so a second run always does
      nothing. */
  lemma LegacySecondRunIdle(key: string, existing: Option<Listed>, size: int)
    requires existing.Some? ==> existing.value.key == key
    ensures LegacyDecide(Effect(key, existing, LegacyDecide(existing, size), size), size) == Unchanged
  {
  }

  /** The content type of an upload: `image/png` for a `.png` extension, and
      the thrown error otherwise. */
  function LegacyContentType(key: string): (r: Option<string>)
    ensures r.Some? <==> Extname(key) == ".png"
    ensures r.Some? ==> r.value == "image/png"
  {
    if Extname(key) == ".png" then Some("image/png") else None
  }

  /** A last segment `stem.png` with a non-empty stem is uploaded as
      `image/png`. */
  lemma PngSegmentType(dir: string)
    requires |dir| > 0 && dir[|dir| - 1] != '/'
    ensures LegacyContentType(dir + ".png") == Some("image/png")
  {
    var e := ".png";
    assert '.' !in e[1..] && '/' !in e;
    ExtnameOfSegment(dir, e);
  }

  /** Every plain key of a `.png` token with a non-empty stem is uploaded as
      `image/png`. */
  lemma LegacyKeyIsPng(stem: string)
    requires |stem| > 0 && stem[|stem| - 1] != '/'
    ensures LegacyContentType(LegacyKey(stem + ".png")) == Some("image/png")
  {
    var dir := KeyPrefix + stem;
    assert dir[|dir| - 1] == stem[|stem| - 1];
    assert LegacyKey(stem + ".png") == dir + ".png";
    PngSegmentType(dir);
  }

  /** So is every `_Alt` key of one whose stem has no dot. */
  lemma LegacyAltKeyIsPng(stem: string)
    requires '.' !in stem
    ensures LegacyContentType(LegacyAltKey(LegacyKey(stem + ".png"))) == Some("image/png")
  {
    LegacyAltKeyOfPlainName(stem);
    var alt := KeyPrefix + stem + "_Alt";
    assert KeyPrefix + stem + "_Alt.png" == alt + ".png";
    assert alt[|alt| - 1] == 't';
    PngSegmentType(alt);
  }
}
