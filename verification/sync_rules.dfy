/** The decisions `index.ts` takes while synchronising the token packs with the
    bucket, pulled out of the I/O around them: which listed objects count, the
    key each token is stored under, the storage class for its size, what to do
    about the object already there, which objects to delete at the end, and the
    content type of an upload. */
module SyncRules {
  import opened Optional
  import opened Text
  import opened Patterns
  import opened FilenameHandling

  /** The storage classes the synchroniser chooses, and any other class an
      existing object may have. */
  datatype StorageClass = Standard | OnezoneIa | IntelligentTiering | Other(name: string)

  /** A listed object: its key, byte size and storage class. */
  datatype Listed = Listed(key: string, size: int, storageClass: StorageClass)

  const KiB := 1024

  /** Every key lies under this folder of the bucket. */
  const KeyPrefix := "forgottenadventures/"

  // ---- Listing ----

  /** The objects of the listing (all pages, in order) that count as known:
      those of positive size, the later of two with the same key winning. */
  function KnownObjects(listing: seq<Listed>): (m: map<string, Listed>)
    ensures forall k | k in m :: m[k].key == k && m[k].size > 0 && m[k] in listing
    ensures forall o | o in listing && o.size > 0 :: o.key in m
  {
    if |listing| == 0 then map[]
    else
      var known := KnownObjects(listing[..|listing| - 1]);
      var o := listing[|listing| - 1];
      assert listing == listing[..|listing| - 1] + [o];
      if o.size > 0 then known[o.key := o] else known
  }

  // ---- Storage class ----

  /** The storage class for an encoded size: standard below 90 KiB, one-zone
      infrequent access below 128 KiB, intelligent tiering from there on. */
  function StorageClassFor(size: int): (c: StorageClass)
    ensures c == Standard <==> size < 90 * KiB
    ensures c == OnezoneIa <==> 90 * KiB <= size < 128 * KiB
    ensures c == IntelligentTiering <==> 128 * KiB <= size
  {
    var c := if size < 128 * KiB then OnezoneIa else IntelligentTiering;
    if size < 90 * KiB then Standard else c
  }

  /** The order of the three classes by the size they are chosen for. */
  function Tier(c: StorageClass): nat {
    match c
    case Standard => 0
    case OnezoneIa => 1
    case IntelligentTiering => 2
    case Other(_) => 3
  }

  /** A larger object never gets a lower tier. */
  lemma StorageClassMonotone(a: int, b: int)
    requires a <= b
    ensures Tier(StorageClassFor(a)) <= Tier(StorageClassFor(b))
  {
  }

  // ---- Keys ----

  /** `/\.png$/` replaced by `.avif`: only a trailing `.png` is renamed. */
  function AvifName(name: string): (r: string)
    ensures EndsWith(name, ".png") ==> |r| == |name| + 1 && EndsWith(r, ".avif")
    ensures EndsWith(name, ".png") ==> r[..|r| - 5] == name[..|name| - 4]
    ensures !EndsWith(name, ".png") ==> r == name
  {
    if EndsWith(name, ".png") then name[..|name| - 4] + ".avif" else name
  }

  /** Two different `.png` names never share an encoded name. */
  lemma AvifNameInjective(a: string, b: string)
    requires EndsWith(a, ".png") && EndsWith(b, ".png") && AvifName(a) == AvifName(b)
    ensures a == b
  {
    assert a == a[..|a| - 4] + ".png";
    assert b == b[..|b| - 4] + ".png";
  }

  /** A name already ending in `.avif` and the `.png` of the same stem do
      share one, which is one way two tokens collide. */
  lemma AvifNameCollision(stem: string)
    ensures AvifName(stem + ".avif") == AvifName(stem + ".png")
  {
    assert !EndsWith(stem + ".avif", ".png") by {
      assert (stem + ".avif")[|stem| + 4] == 'f';
    }
    assert (stem + ".png")[..|stem|] == stem;
  }

  /** The key proposed for an output name. */
  function ProposedKey(name: string): (k: string)
    ensures StartsWith(k, KeyPrefix)
    ensures EndsWith(name, ".png") ==> EndsWith(k, ".avif") && |k| == |KeyPrefix| + |name| + 1
    ensures !EndsWith(name, ".png") ==> k[|KeyPrefix|..] == name
  {
    KeyPrefix + AvifName(name)
  }

  /** The key of a later copy: the first `.avif` becomes `_Alt.avif`. */
  function AltKey(key: string): (r: string)
    ensures !Contains(key, ".avif") ==> r == key
    ensures Contains(key, ".avif") ==> |r| == |key| + 4
  {
    AltKeyInsertsAlt(key);
    ReplaceFirst(Literal(".avif", "_Alt.avif"), key)
  }

  /** `_Alt` goes in right before the first `.avif` of the key. */
  lemma AltKeyInsertsAlt(key: string)
    ensures Contains(key, ".avif") ==> exists j: nat | j + 5 <= |key| ::
      (OccursAt(key, ".avif", j) && (forall i: nat | i < j :: !OccursAt(key, ".avif", i))
       && ReplaceFirst(Literal(".avif", "_Alt.avif"), key) == key[..j] + "_Alt" + key[j..])
    ensures !Contains(key, ".avif") ==> ReplaceFirst(Literal(".avif", "_Alt.avif"), key) == key
  {
    assert "_Alt" + ".avif" == "_Alt.avif";
    InsertBeforeFirst(".avif", "_Alt", key);
  }

  /** The key a token gets, or the doubled `_Alt` that aborts the run. */
  datatype Keyed = Keyed(key: string) | DoubleAlt(key: string)

  /** The key for a token, given the keys already taken (with the pack each
      came from): the proposed key if free, otherwise its `_Alt` form, which
      aborts the run if it contains `_Alt_Alt`. A key already taken by an
      earlier `_Alt` is not looked at again. */
  function KeyFor(expected: map<string, string>, name: string): (r: Keyed)
    ensures ProposedKey(name) !in expected ==> r == Keyed(ProposedKey(name))
    ensures ProposedKey(name) in expected ==> r.key == AltKey(ProposedKey(name))
    ensures r.DoubleAlt? <==> ProposedKey(name) in expected && Contains(AltKey(ProposedKey(name)), "_Alt_Alt")
  {
    var proposed := ProposedKey(name);
    if proposed !in expected then Keyed(proposed)
    else
      var alt := AltKey(proposed);
      if Contains(alt, "_Alt_Alt") then DoubleAlt(alt) else Keyed(alt)
  }

  /** The proposed key of a `.png` name ends in `.avif` instead. */
  lemma ProposedKeyOfPng(stem: string)
    ensures ProposedKey(stem + ".png") == KeyPrefix + stem + ".avif"
  {
    var n := stem + ".png";
    assert EndsWith(n, ".png");
    assert n[..|n| - 4] == stem;
  }

  /** When no dot comes before the final `.avif`, the `_Alt` goes right
      before it. */
  lemma AltKeyBeforeExtension(s: string)
    requires '.' !in s
    ensures AltKey(s + ".avif") == s + "_Alt.avif"
  {
    var k := s + ".avif";
    forall i: nat | i < |s|
      ensures !OccursAt(k, ".avif", i)
    {
      assert k[i] == s[i];
    }
    assert OccursAt(k, ".avif", |s|);
    LiteralFirstOccurrence(".avif", "_Alt.avif", k, |s|);
    assert k[..|s|] == s;
    assert k[|s| + 5..] == [];
  }

  /** The `_Alt` key of a name without dots before its extension puts `_Alt`
      right before `.avif`. */
  lemma AltKeyOfPlainName(stem: string)
    requires '.' !in stem
    ensures AltKey(ProposedKey(stem + ".png")) == KeyPrefix + stem + "_Alt.avif"
  {
    ProposedKeyOfPng(stem);
    PrefixDotFree(stem);
    AltKeyBeforeExtension(KeyPrefix + stem);
  }

  /** The key prefix holds no dot. */
  lemma PrefixDotFree(stem: string)
    requires '.' !in stem
    ensures '.' !in KeyPrefix + stem
  {
    assert forall i | 0 <= i < |KeyPrefix| :: KeyPrefix[i] != '.';
  }

  /** A second copy of a token whose name already ends in `_Alt` aborts the
      run. */
  lemma AltNamedCopyAborts(expected: map<string, string>, stem: string)
    requires '.' !in stem && ProposedKey(stem + "_Alt.png") in expected
    ensures KeyFor(expected, stem + "_Alt.png").DoubleAlt?
  {
    AltOfAltName(stem);
    OccursInMiddle(KeyPrefix + stem, "_Alt_Alt", ".avif");
  }

  /** The `_Alt` key of a name already ending in `_Alt` doubles it. */
  lemma AltOfAltName(stem: string)
    requires '.' !in stem
    ensures AltKey(ProposedKey(stem + "_Alt.png")) == KeyPrefix + stem + "_Alt_Alt" + ".avif"
  {
    AltAltJoin(KeyPrefix, stem, "_Alt.avif", ".avif");
    AltKeyOfAltNamed(stem);
  }

  lemma AltKeyOfAltNamed(stem: string)
    requires '.' !in stem
    ensures AltKey(ProposedKey(stem + "_Alt.png")) == KeyPrefix + (stem + "_Alt") + "_Alt.avif"
  {
    var s := stem + "_Alt";
    assert stem + "_Alt.png" == s + ".png";
    assert '.' !in s;
    AltKeyOfPlainName(s);
  }

  /** A third copy of a token gets the same `_Alt` key as the second, without
      aborting: the key is reused and its record overwritten. */
  lemma ThirdCopyReusesAltKey(expected: map<string, string>, name: string, zip: string)
    requires ProposedKey(name) in expected && KeyFor(expected, name).Keyed?
    ensures var k := KeyFor(expected, name).key;
      KeyFor(expected[k := zip], name) == Keyed(k)
  {
  }

  // ---- Planning the keys of all tokens ----

  /** A zip entry: the pack it came from and its name there. */
  datatype Source = Source(zip: string, name: string)

  /** Why a run stops: a name the whitelist refuses, or a doubled `_Alt`. */
  datatype Abort = BadName(name: string) | DoubleAltKey(key: string)

  /** The keys taken so far (each with its pack), in the order the tokens
      came, or the reason the run stopped. */
  datatype Plan = Planned(expected: map<string, string>, keys: seq<string>) | Aborted(reason: Abort)

  /** One zip entry: skipped, refused, or given a key that is then recorded
      with the pack it came from. */
  function Step(p: Plan, s: Source): (r: Plan)
    ensures p.Aborted? ==> r == p
    ensures p.Planned? && r.Planned? ==> forall k | k in p.expected :: k in r.expected
    ensures p.Planned? && r.Planned? && DetermineOutputFilename(s.name).Ok? ==>
      var k := KeyFor(p.expected, DetermineOutputFilename(s.name).name).key;
      r.keys == p.keys + [k] && k in r.expected && r.expected[k] == s.zip
    ensures p.Planned? && DetermineOutputFilename(s.name).Skip? ==> r == p
    ensures p.Planned? && DetermineOutputFilename(s.name).Error? ==> r == Aborted(BadName(DetermineOutputFilename(s.name).name))
    ensures p.Planned? && DetermineOutputFilename(s.name).Ok? ==>
      var k := KeyFor(p.expected, DetermineOutputFilename(s.name).name);
      (r.Aborted? <==> k.DoubleAlt?) && (k.DoubleAlt? ==> r == Aborted(DoubleAltKey(k.key)))
  {
    match p
    case Aborted(_) => p
    case Planned(expected, keys) =>
      match DetermineOutputFilename(s.name)
      case Skip => p
      case Error(n) => Aborted(BadName(n))
      case Ok(n) =>
        match KeyFor(expected, n)
        case DoubleAlt(k) => Aborted(DoubleAltKey(k))
        case Keyed(k) => Planned(expected[k := s.zip], keys + [k])
  }

  /** All the entries of all the packs, in order. The keys recorded are exactly
      the keys handed out. */
  function PlanAll(sources: seq<Source>): (r: Plan)
    ensures r.Planned? ==> forall k | k in r.keys :: k in r.expected
    ensures r.Planned? ==> forall k | k in r.expected :: k in r.keys
  {
    if |sources| == 0 then Planned(map[], [])
    else Step(PlanAll(sources[..|sources| - 1]), sources[|sources| - 1])
  }

  // ---- Deleting what is not expected ----

  /** The known keys no token was given: the objects deleted at the end. */
  function Orphans(known: map<string, Listed>, expected: map<string, string>): (r: set<string>)
    ensures forall k | k in r :: k in known && k !in expected
    ensures forall k | k in known && k !in expected :: k in r
  {
    set k | k in known && k !in expected
  }

  /** What the run deletes is exactly what was listed with a positive size
      and given to no token; in particular an object listed only with size 0
      is never deleted, and neither is any key handed out. */
  lemma DeletedExactlyUnclaimed(listing: seq<Listed>, sources: seq<Source>, k: string)
    requires PlanAll(sources).Planned?
    ensures k in Orphans(KnownObjects(listing), PlanAll(sources).expected)
        <==> (exists o | o in listing :: o.key == k && o.size > 0) && k !in PlanAll(sources).keys
  {
    var known := KnownObjects(listing);
    if exists o | o in listing :: o.key == k && o.size > 0 {
      var o :| o in listing && o.key == k && o.size > 0;
      assert k in known;
    }
    if k in known {
      assert known[k] in listing;
    }
  }

  // ---- The per-object decision ----

  /** What is done about one token's object. */
  datatype Action =
    | Upload(storageClass: StorageClass)
    | ReplaceThenUpload(storageClass: StorageClass)
    | ChangeClass(storageClass: StorageClass)
    | Unchanged

  /** The decision for a token whose cached encoded size is `cached`, given the
      object listed under its key, if any. The class is chosen from the cached
      size and is not chosen again after a size mismatch forces the size to be
      recomputed. */
  function Decide(existing: Option<Listed>, cached: int): (a: Action)
    ensures existing.None? ==> a == Upload(StorageClassFor(cached))
    ensures existing.Some? && existing.value.size != cached ==> a == ReplaceThenUpload(StorageClassFor(cached))
    ensures existing.Some? && existing.value.size == cached ==>
      (a == Unchanged <==> existing.value.storageClass == StorageClassFor(cached))
    ensures existing.Some? && existing.value.size == cached && a != Unchanged ==>
      a == ChangeClass(StorageClassFor(cached))
  {
    var c := StorageClassFor(cached);
    match existing
    case None => Upload(c)
    case Some(o) =>
      if o.size != cached then ReplaceThenUpload(c)
      else if c != o.storageClass then ChangeClass(c)
      else Unchanged
  }

  /** The object under the key after the action, when the encoded content is
      `actual` bytes long. */
  function Effect(key: string, existing: Option<Listed>, a: Action, actual: int): (r: Option<Listed>)
    ensures a.Upload? || a.ReplaceThenUpload? ==> r == Some(Listed(key, actual, a.storageClass))
    ensures a.ChangeClass? && existing.Some? ==> r == Some(existing.value.(storageClass := a.storageClass))
    ensures a == Unchanged ==> r == existing
  {
    match a
    case Upload(c) => Some(Listed(key, actual, c))
    case ReplaceThenUpload(c) => Some(Listed(key, actual, c))
    case ChangeClass(c) => if existing.Some? then Some(existing.value.(storageClass := c)) else existing
    case Unchanged => existing
  }

  /** With a correct cached size, a second run does nothing. */
  lemma SecondRunIdle(key: string, existing: Option<Listed>, size: int)
    requires existing.Some? ==> existing.value.key == key
    ensures Decide(Effect(key, existing, Decide(existing, size), size), size) == Unchanged
  {
  }

  /** After a mismatch the upload keeps the class of the stale size; the next
      run, with the cache corrected, changes the class when the two sizes call
      for different ones, and the run after that does nothing. */
  lemma StaleClassFixedNextRun(key: string, prior: Listed, stale: int, recomputed: int)
    requires prior.key == key && prior.size != stale
    ensures var after := Effect(key, Some(prior), Decide(Some(prior), stale), recomputed);
      && after == Some(Listed(key, recomputed, StorageClassFor(stale)))
      && (StorageClassFor(stale) != StorageClassFor(recomputed) ==>
            Decide(after, recomputed) == ChangeClass(StorageClassFor(recomputed)))
      && Decide(Effect(key, after, Decide(after, recomputed), recomputed), recomputed) == Unchanged
  {
  }

  /** A concrete case: an object of 100 KiB and a stale cached size of 50 KiB
      give a standard-class upload of the true 100 KiB body; the next run,
      with the size recomputed, moves it to one-zone infrequent access, and
      the run after that leaves it alone. */
  lemma StaleClassExample()
    ensures var prior := Some(Listed("k", 100 * KiB, IntelligentTiering));
      var first := Decide(prior, 50 * KiB);
      var after := Effect("k", prior, first, 100 * KiB);
      var second := Decide(after, 100 * KiB);
      && first == ReplaceThenUpload(Standard)
      && after == Some(Listed("k", 100 * KiB, Standard))
      && second == ChangeClass(OnezoneIa)
      && Decide(Effect("k", after, second, 100 * KiB), 100 * KiB) == Unchanged
  {
    StaleClassFixedNextRun("k", Listed("k", 100 * KiB, IntelligentTiering), 50 * KiB, 100 * KiB);
  }

  // ---- Content type ----

  /** The key with trailing slashes removed. */
  function TrimSlashes(p: string): (r: string)
    ensures |r| <= |p| && r == p[..|r|]
    ensures |r| > 0 ==> r[|r| - 1] != '/'
  {
    if |p| > 0 && p[|p| - 1] == '/' then TrimSlashes(p[..|p| - 1]) else p
  }

  /** The text after the last slash. */
  function Basename(p: string): (r: string)
    ensures '/' !in r && EndsWith(p, r)
    ensures |r| < |p| ==> p[|p| - |r| - 1] == '/'
  {
    if |p| == 0 || p[|p| - 1] == '/' then []
    else
      var r := Basename(p[..|p| - 1]) + [p[|p| - 1]];
      assert p == p[..|p| - 1] + [p[|p| - 1]];
      r
  }

  /** The index of the last `c` in `s`, if any. */
  function LastIndexOf(s: string, c: char): (r: Option<nat>)
    ensures r.None? <==> c !in s
    ensures r.Some? ==> r.value < |s| && s[r.value] == c && c !in s[r.value + 1..]
  {
    if |s| == 0 then None
    else if s[|s| - 1] == c then Some(|s| - 1)
    else
      var r := LastIndexOf(s[..|s| - 1], c);
      assert s == s[..|s| - 1] + [s[|s| - 1]];
      r
  }

  /** `path.extname` on POSIX: after trailing slashes are dropped, the last
      path segment from its last dot on, unless it has no dot, the dot opens
      the segment, or the segment is `..`. */
  function Extname(p: string): (r: string)
    ensures r == "" || (r[0] == '.' && '.' !in r[1..] && '/' !in r)
  {
    var b := Basename(TrimSlashes(p));
    match LastIndexOf(b, '.')
    case None => ""
    case Some(d) =>
      if d == 0 || b == ".." then ""
      else
        assert b[d..][1..] == b[d + 1..];
        b[d..]
  }

  /** The last dot of `a + e`, where `e` is a dot followed by no dot, is the
      one opening `e`. */
  lemma LastDotOpensSuffix(a: string, e: string)
    requires |e| >= 1 && e[0] == '.' && '.' !in e[1..]
    ensures LastIndexOf(a + e, '.') == Some(|a|)
  {
    var s := a + e;
    var r := LastIndexOf(s, '.');
    assert s[|a|] == '.';
  }

  /** A segment ending in anything but a slash has a non-empty last segment. */
  lemma BasenameNonEmpty(dir: string)
    requires |dir| > 0 && dir[|dir| - 1] != '/'
    ensures |Basename(dir)| > 0
  {
  }

  /** A final segment `stem + ext` with a non-empty stem has extension `ext`,
      when `ext` is a dot followed by no dot or slash. */
  lemma ExtnameOfSegment(dir: string, ext: string)
    requires |dir| > 0 && dir[|dir| - 1] != '/'
    requires |ext| >= 2 && ext[0] == '.' && '.' !in ext[1..] && '/' !in ext
    ensures Extname(dir + ext) == ext
  {
    SegmentBasename(dir, ext);
    BasenameNonEmpty(dir);
    var b := Basename(dir) + ext;
    LastDotOpensSuffix(Basename(dir), ext);
    assert b[|Basename(dir)|..] == ext;
    ExtnameAtDot(dir + ext, b, |Basename(dir)|);
  }

  /** The last segment of `dir + ext`, for a slash-free `ext`, is `dir`'s last
      segment followed by `ext`. */
  lemma SegmentBasename(dir: string, ext: string)
    requires |ext| >= 1 && '/' !in ext
    ensures Basename(TrimSlashes(dir + ext)) == Basename(dir) + ext
  {
    var p := dir + ext;
    assert p[|p| - 1] == ext[|ext| - 1] && ext[|ext| - 1] in ext;
    assert TrimSlashes(p) == p;
    BasenameOfAppend(dir, ext);
  }

  /** The extension is read off at the last dot of the last segment, when that
      dot does not open the segment and the segment is not `..`. */
  lemma ExtnameAtDot(p: string, b: string, d: nat)
    requires Basename(TrimSlashes(p)) == b && LastIndexOf(b, '.') == Some(d)
    requires d != 0 && |b| >= 3
    ensures Extname(p) == b[d..]
  {
  }

  /** Appending slash-free text extends the last segment. */
  lemma {:induction false} BasenameOfAppend(dir: string, ext: string)
    requires '/' !in ext
    ensures Basename(dir + ext) == Basename(dir) + ext
    decreases |ext|
  {
    if |ext| > 0 {
      var p := dir + ext;
      assert p[..|p| - 1] == dir + ext[..|ext| - 1];
      assert ext[|ext| - 1] in ext;
      BasenameOfAppend(dir, ext[..|ext| - 1]);
      assert ext == ext[..|ext| - 1] + [ext[|ext| - 1]];
    } else {
      assert dir + ext == dir;
    }
  }

  /** The content type of an upload from the extension of its key. */
  function ContentType(key: string): (r: Option<string>)
    ensures r == Some("image/png") <==> Extname(key) == ".png"
    ensures r == Some("image/avif") <==> Extname(key) == ".avif"
    ensures r.None? <==> Extname(key) != ".png" && Extname(key) != ".avif"
  {
    match Extname(key)
    case ".png" => Some("image/png")
    case ".avif" => Some("image/avif")
    case _ => None
  }

  /** Every key proposed for a `.png` token that is not itself called `.png`
      is uploaded as `image/avif`. */
  lemma ProposedKeysAreAvif(name: string)
    requires EndsWith(name, ".png") && |name| > 4 && name[|name| - 5] != '/'
    ensures ContentType(ProposedKey(name)) == Some("image/avif")
  {
    ProposedKeyExtname(name);
  }

  lemma ProposedKeyExtname(name: string)
    requires EndsWith(name, ".png") && |name| > 4 && name[|name| - 5] != '/'
    ensures Extname(ProposedKey(name)) == ".avif"
  {
    var dir := KeyPrefix + name[..|name| - 4];
    ProposedKeySplit(name);
    assert dir[|dir| - 1] == name[|name| - 5];
    AvifSuffixShape();
    ExtnameOfSegment(dir, ".avif");
  }

  lemma AvifSuffixShape()
    ensures |".avif"| >= 2 && ".avif"[0] == '.' && '.' !in ".avif"[1..] && '/' !in ".avif"
  {
    assert ".avif"[1..] == "avif";
  }

  lemma ProposedKeySplit(name: string)
    requires EndsWith(name, ".png")
    ensures ProposedKey(name) == (KeyPrefix + name[..|name| - 4]) + ".avif"
  {
  }

  /** A token file called just `.png` gets a key with no extension, and its
      upload fails for want of a content type. */
  lemma BarePngHasNoContentType(folder: string)
    ensures ContentType(ProposedKey(folder + "/.png")) == None
  {
    var dir := KeyPrefix + folder + "/";
    BarePngKey(folder);
    assert dir[|dir| - 1] == '/';
    AvifSuffixShape();
    BareSegmentHasNoExtension(dir, ".avif");
  }

  lemma BarePngKey(folder: string)
    ensures ProposedKey(folder + "/.png") == (KeyPrefix + folder + "/") + ".avif"
  {
    assert folder + "/.png" == (folder + "/") + ".png";
    ProposedKeyOfPng(folder + "/");
  }

  /** A segment that is only a dot and a name has no extension. */
  lemma BareSegmentHasNoExtension(dir: string, ext: string)
    requires |dir| > 0 && dir[|dir| - 1] == '/'
    requires |ext| >= 2 && ext[0] == '.' && '.' !in ext[1..] && '/' !in ext
    ensures Extname(dir + ext) == ""
  {
    SegmentBasename(dir, ext);
    assert Basename(dir) == [];
    assert [] + ext == ext;
    LastDotOpensSuffix([], ext);
  }
}
