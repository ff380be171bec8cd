/**
 The assembly of a gift catalog: gifts, upgrade attribute sets, the documents they reference and the
 totals over them, whatever order the download workers finish in.
 */
module GiftCatalog {
  import opened Wrappers
  import opened Ordering
  import opened GiftDocuments

  const MAX_CATALOG_GIFTS := 5000
  const MAX_UPGRADE_ATTRS := 10000
  const MAX_DOCUMENTS := 50000

  datatype Rarity = Permille(permille: int) | Uncommon | Rare | Epic | Legendary | UnknownRarity

  datatype Attribute =
    | Model(name: string, document: DocumentClass, crafted: bool, rarity: Rarity)
    | Pattern(name: string, document: DocumentClass, rarity: Rarity)
    | Backdrop(name: string, backdrop: int, rarity: Rarity)
    | UnknownAttribute

  datatype Gift =
    | Regular(id: int, sticker: DocumentClass, upgradeStars: int, upgradeVariants: int)
    | Unique(id: int, attributes: seq<Attribute>)
    | UnknownGift

  datatype GiftManifest = GiftManifest(index: nat, unique: bool, id: int, documentIDs: seq<int>)

  datatype ModelManifest = ModelManifest(name: string, documentID: int, crafted: bool, rarity: Rarity)

  datatype PatternManifest = PatternManifest(name: string, documentID: int, rarity: Rarity)

  datatype BackdropManifest = BackdropManifest(name: string, backdrop: int, rarity: Rarity)

  datatype AttributeSet = AttributeSet(
    giftID: int, attributeCount: nat, models: seq<ModelManifest>, patterns: seq<PatternManifest>,
    backdrops: seq<BackdropManifest>, documentIDs: seq<int>)

  predicate Below(a: int, b: int) {
    a < b
  }

  lemma BelowIsStrictTotalOrder()
    ensures StrictTotalOrder(Below)
  {
  }

  function Ids(refs: seq<Reference>): seq<int> {
    seq(|refs|, i requires 0 <= i < |refs| => IdOf(refs[i]))
  }

  /** The references of several things one after another. */
  function Flatten<T>(things: seq<T>, refsOf: T -> seq<Reference>): seq<Reference> {
    if things == [] then [] else Flatten(things[..|things| - 1], refsOf) + refsOf(things[|things| - 1])
  }

  lemma FlattenOne<T>(things: seq<T>, thing: T, refsOf: T -> seq<Reference>)
    ensures Flatten(things + [thing], refsOf) == Flatten(things, refsOf) + refsOf(thing)
  {
    assert (things + [thing])[..|things|] == things;
  }

  lemma {:induction false} FlattenHas<T>(things: seq<T>, refsOf: T -> seq<Reference>, r: Reference)
    ensures r in Flatten(things, refsOf) <==> exists i | 0 <= i < |things| :: r in refsOf(things[i])
  {
    if things != [] {
      var init, last := things[..|things| - 1], things[|things| - 1];
      FlattenHas(init, refsOf, r);
      assert things == init + [last];
      assert r in refsOf(last) ==> r in refsOf(things[|things| - 1]);
      assert forall i | 0 <= i < |init| :: things[i] == init[i];
    }
  }

  // ----- which documents a gift and an attribute set refer to

  /** A unique gift refers to the documents of its models and patterns; its other attributes are passed over. */
  function UniqueReferences(gift: int): Attribute -> seq<Reference> {
    (a: Attribute) =>
      match a
      case Model(name, document, _, _) => [Reference(document, UniqueModel(gift, name))]
      case Pattern(name, document, _) => [Reference(document, UniquePattern(gift, name))]
      case _ => []
  }

  function UpgradeReferences(gift: int): Attribute -> seq<Reference> {
    (a: Attribute) =>
      match a
      case Model(name, document, _, _) => [Reference(document, UpgradeModel(gift, name))]
      case Pattern(name, document, _) => [Reference(document, UpgradePattern(gift, name))]
      case _ => []
  }

  function GiftReferences(g: Gift): seq<Reference> {
    match g
    case Regular(id, sticker, _, _) => [Reference(sticker, Sticker(id))]
    case Unique(id, attributes) => Flatten(attributes, UniqueReferences(id))
    case UnknownGift => []
  }

  function SetReferences(gift: int, attributes: seq<Attribute>): seq<Reference> {
    Flatten(attributes, UpgradeReferences(gift))
  }

  // ----- attribute sets

  predicate Known(a: Attribute) {
    !a.UnknownAttribute? && !a.rarity.UnknownRarity?
  }

  /** Every attribute is understood and there is one of each kind. */
  predicate Complete(attributes: seq<Attribute>) {
    && (forall i | 0 <= i < |attributes| :: Known(attributes[i]))
    && (exists i | 0 <= i < |attributes| :: attributes[i].Model?)
    && (exists i | 0 <= i < |attributes| :: attributes[i].Pattern?)
    && (exists i | 0 <= i < |attributes| :: attributes[i].Backdrop?)
  }

  function TargetId(d: DocumentClass): int {
    if d.Doc? then d.document.id else 0
  }

  function Models(attributes: seq<Attribute>): seq<ModelManifest> {
    if attributes == [] then []
    else
      var a := attributes[|attributes| - 1];
      Models(attributes[..|attributes| - 1]) +
      if a.Model? then [ModelManifest(a.name, TargetId(a.document), a.crafted, a.rarity)] else []
  }

  function Patterns(attributes: seq<Attribute>): seq<PatternManifest> {
    if attributes == [] then []
    else
      var a := attributes[|attributes| - 1];
      Patterns(attributes[..|attributes| - 1]) +
      if a.Pattern? then [PatternManifest(a.name, TargetId(a.document), a.rarity)] else []
  }

  function Backdrops(attributes: seq<Attribute>): seq<BackdropManifest> {
    if attributes == [] then []
    else
      var a := attributes[|attributes| - 1];
      Backdrops(attributes[..|attributes| - 1]) +
      if a.Backdrop? then [BackdropManifest(a.name, a.backdrop, a.rarity)] else []
  }

  function SortedIds(ids: set<int>): (r: seq<int>)
    ensures Ascending(r, Below) && forall id :: id in r <==> id in ids
  {
    BelowIsStrictTotalOrder();
    Sorted(ids, Below)
  }

  function SetOf(gift: int, attributes: seq<Attribute>): AttributeSet {
    AttributeSet(gift, |attributes|, Models(attributes), Patterns(attributes), Backdrops(attributes),
      SortedIds(IdSet(SetReferences(gift, attributes))))
  }

  lemma KindsOne(attributes: seq<Attribute>, a: Attribute)
    ensures Models(attributes + [a]) ==
            Models(attributes) +
            if a.Model? then [ModelManifest(a.name, TargetId(a.document), a.crafted, a.rarity)] else []
    ensures Patterns(attributes + [a]) ==
            Patterns(attributes) + if a.Pattern? then [PatternManifest(a.name, TargetId(a.document), a.rarity)] else []
    ensures Backdrops(attributes + [a]) ==
            Backdrops(attributes) + if a.Backdrop? then [BackdropManifest(a.name, a.backdrop, a.rarity)] else []
  {
    assert (attributes + [a])[..|attributes|] == attributes;
  }

  /** Each attribute is filed under exactly one kind, so the source's comparison of the three counts with
      the number of attributes never fails; and a kind is empty exactly when no attribute has it. */
  lemma {:induction false} KindsPartition(attributes: seq<Attribute>)
    requires forall i | 0 <= i < |attributes| :: !attributes[i].UnknownAttribute?
    ensures |Models(attributes)| + |Patterns(attributes)| + |Backdrops(attributes)| == |attributes|
    ensures Models(attributes) != [] <==> exists i | 0 <= i < |attributes| :: attributes[i].Model?
    ensures Patterns(attributes) != [] <==> exists i | 0 <= i < |attributes| :: attributes[i].Pattern?
    ensures Backdrops(attributes) != [] <==> exists i | 0 <= i < |attributes| :: attributes[i].Backdrop?
  {
    if attributes != [] {
      var init, a := attributes[..|attributes| - 1], attributes[|attributes| - 1];
      assert attributes == init + [a];
      assert forall i | 0 <= i < |init| :: init[i] == attributes[i];
      KindsPartition(init);
      KindsOne(init, a);
      assert a.Model? || a.Pattern? || a.Backdrop?;
    }
  }

  predicate InModels(models: seq<ModelManifest>, id: int) {
    exists i | 0 <= i < |models| :: models[i].documentID == id
  }

  predicate InPatterns(patterns: seq<PatternManifest>, id: int) {
    exists i | 0 <= i < |patterns| :: patterns[i].documentID == id
  }

  predicate NamesDocument(s: AttributeSet, id: int) {
    InModels(s.models, id) || InPatterns(s.patterns, id)
  }

  /** The document ids of a set are the distinct ids of its models and patterns in ascending order. */
  lemma SetDocumentIDs(gift: int, attributes: seq<Attribute>)
    ensures Ascending(SetOf(gift, attributes).documentIDs, Below)
    ensures forall id :: id in SetOf(gift, attributes).documentIDs <==> NamesDocument(SetOf(gift, attributes), id)
  {
    forall id: int
      ensures id in IdSet(SetReferences(gift, attributes)) <==> NamesDocument(SetOf(gift, attributes), id)
    {
      ReferencedByKinds(gift, attributes, id);
    }
  }

  lemma {:induction false} ReferencedByKinds(gift: int, attributes: seq<Attribute>, id: int)
    ensures id in IdSet(SetReferences(gift, attributes)) <==>
            InModels(Models(attributes), id) || InPatterns(Patterns(attributes), id)
  {
    if attributes != [] {
      var init, a := attributes[..|attributes| - 1], attributes[|attributes| - 1];
      ReferencedByKinds(gift, init, id);
      IdSetConcat(SetReferences(gift, init), UpgradeReferences(gift)(a));
      if a.Model? {
        IdSetSingle(Reference(a.document, UpgradeModel(gift, a.name)));
        InModelsOne(Models(init), ModelManifest(a.name, TargetId(a.document), a.crafted, a.rarity), id);
        assert Patterns(attributes) == Patterns(init);
      } else if a.Pattern? {
        IdSetSingle(Reference(a.document, UpgradePattern(gift, a.name)));
        InPatternsOne(Patterns(init), PatternManifest(a.name, TargetId(a.document), a.rarity), id);
        assert Models(attributes) == Models(init);
      } else {
        assert Models(attributes) == Models(init) && Patterns(attributes) == Patterns(init);
      }
    }
  }

  lemma InModelsOne(models: seq<ModelManifest>, m: ModelManifest, id: int)
    ensures InModels(models + [m], id) <==> InModels(models, id) || m.documentID == id
  {
    var longer := models + [m];
    assert longer[|models|] == m && forall i | 0 <= i < |models| :: longer[i] == models[i];
  }

  lemma InPatternsOne(patterns: seq<PatternManifest>, p: PatternManifest, id: int)
    ensures InPatterns(patterns + [p], id) <==> InPatterns(patterns, id) || p.documentID == id
  {
    var longer := patterns + [p];
    assert longer[|patterns|] == p && forall i | 0 <= i < |patterns| :: longer[i] == patterns[i];
  }

  lemma IdSetSingle(r: Reference)
    ensures IdSet([r]) == {IdOf(r)}
  {
    assert [r][0] == r;
  }

  lemma IdSetConcat(a: seq<Reference>, b: seq<Reference>)
    ensures IdSet(a + b) == IdSet(a) + IdSet(b)
  {
    var c := a + b;
    forall id | id in IdSet(a) + IdSet(b)
      ensures id in IdSet(c)
    {
      if id in IdSet(a) {
        var i :| 0 <= i < |a| && IdOf(a[i]) == id;
        assert c[i] == a[i];
      } else {
        var i :| 0 <= i < |b| && IdOf(b[i]) == id;
        assert c[|a| + i] == b[i];
      }
    }
  }

  // ----- the manifest

  predicate IsUpgradeable(g: Gift) {
    g.Regular? && g.id != 0 && (g.upgradeStars > 0 || g.upgradeVariants > 0)
  }

  function Upgradeable(gifts: seq<Gift>): seq<int> {
    if gifts == [] then []
    else
      var g := gifts[|gifts| - 1];
      Upgradeable(gifts[..|gifts| - 1]) + if IsUpgradeable(g) then [g.id] else []
  }

  /** What a download brings back: its size, the sizes of its thumbnails, how many of those are missing. */
  datatype Fetched = Fetched(size: int, thumbs: seq<int>, missing: nat)

  datatype DocumentManifest = DocumentManifest(id: int, size: int, purposes: set<Purpose>, thumbs: seq<int>,
                                               missing: nat)

  datatype Manifest = Manifest(
    gifts: seq<GiftManifest>, upgradeableGiftCount: nat, sets: seq<AttributeSet>, setCount: nat,
    attributeCount: int, modelCount: int, patternCount: int, backdropCount: int,
    documents: seq<DocumentManifest>, totalBytes: int, missingThumbCount: int)

  /** The catalog, the server's answer to the i-th question about an upgradeable gift, the size limit, and what
      the download of each document brings.  Unless the fetch is calm, a worker may end with anything else. */
  datatype Inputs = Inputs(gifts: seq<Gift>, answers: nat -> Option<seq<Attribute>>, maxBytes: int,
                           arrives: int -> Option<Fetched>, calm: bool)

  /** An upgradeable gift and what the server answered when asked about it. */
  datatype Upgrade = Upgrade(gift: int, answer: Option<seq<Attribute>>)

  /** What each document's worker ended with. */
  type Downloads = map<int, Option<Fetched>>

  function Total<T>(things: seq<T>, measure: T -> int): int {
    if things == [] then 0 else Total(things[..|things| - 1], measure) + measure(things[|things| - 1])
  }

  lemma TotalOne<T>(things: seq<T>, thing: T, measure: T -> int)
    ensures Total(things + [thing], measure) == Total(things, measure) + measure(thing)
  {
    assert (things + [thing])[..|things|] == things;
  }

  function Itself(n: int): int { n }
  function BytesOf(d: DocumentManifest): int { d.size + Total(d.thumbs, Itself) }
  function MissingOf(d: DocumentManifest): int { d.missing }
  function AttributesOf(s: AttributeSet): int { s.attributeCount }
  function ModelsOf(s: AttributeSet): int { |s.models| }
  function PatternsOf(s: AttributeSet): int { |s.patterns| }
  function BackdropsOf(s: AttributeSet): int { |s.backdrops| }

  function ManifestOfGift(index: nat, g: Gift): GiftManifest {
    GiftManifest(index, g.Unique?, if g.UnknownGift? then 0 else g.id, Ids(GiftReferences(g)))
  }

  function GiftManifests(gifts: seq<Gift>): seq<GiftManifest> {
    seq(|gifts|, i requires 0 <= i < |gifts| => ManifestOfGift(i, gifts[i]))
  }

  function Upgrades(gifts: seq<Gift>, answers: nat -> Option<seq<Attribute>>): seq<Upgrade> {
    var ids := Upgradeable(gifts);
    seq(|ids|, i requires 0 <= i < |ids| => Upgrade(ids[i], answers(i)))
  }

  function AttributesIn(u: Upgrade): seq<Attribute> {
    if u.answer.Some? then u.answer.value else []
  }

  /** The server's answer for a gift is usable: some attributes, not too many, and complete. */
  predicate Answered(u: Upgrade) {
    && u.answer.Some?
    && |u.answer.value| <= MAX_UPGRADE_ATTRS
    && Complete(u.answer.value)
  }

  function SetFor(u: Upgrade): AttributeSet {
    SetOf(u.gift, AttributesIn(u))
  }

  function Sets(upgrades: seq<Upgrade>): seq<AttributeSet> {
    seq(|upgrades|, i requires 0 <= i < |upgrades| => SetFor(upgrades[i]))
  }

  function ReferencesFor(u: Upgrade): seq<Reference> {
    SetReferences(u.gift, AttributesIn(u))
  }

  function AllReferences(inputs: Inputs): seq<Reference> {
    Flatten(inputs.gifts, GiftReferences) + Flatten(Upgrades(inputs.gifts, inputs.answers), ReferencesFor)
  }

  /** A document has to have an acceptable size and arrive with exactly that size. */
  function FetchDocument(source: Source, got: Option<Fetched>, maxBytes: int): Option<DocumentManifest> {
    var doc := source.document;
    if doc.size <= 0 || doc.size > maxBytes || got.None? || got.value.size != doc.size then None
    else Some(DocumentManifest(doc.id, got.value.size, source.purposes, got.value.thumbs, got.value.missing))
  }

  predicate Collectable(inputs: Inputs) {
    && |inputs.gifts| <= MAX_CATALOG_GIFTS
    && (forall i | 0 <= i < |inputs.gifts| :: !inputs.gifts[i].UnknownGift?)
    && (forall u | u in Upgrades(inputs.gifts, inputs.answers) :: Answered(u))
    && Consistent(AllReferences(inputs))
    && |IdSet(AllReferences(inputs))| <= MAX_DOCUMENTS
  }

  function Collected(inputs: Inputs): (documents: Documents)
    requires Collectable(inputs)
    ensures Describes(documents, AllReferences(inputs))
  {
    CollectedIff(AllReferences(inputs));
    AddAll(map[], AllReferences(inputs)).value
  }

  /** The worker of this document brought it back. */
  predicate Fetches(documents: Documents, downloads: Downloads, maxBytes: int, id: int) {
    id in documents && id in downloads && FetchDocument(documents[id], downloads[id], maxBytes).Some?
  }

  predicate AllFetch(documents: Documents, downloads: Downloads, maxBytes: int) {
    forall id | id in documents :: Fetches(documents, downloads, maxBytes, id)
  }

  /** All that is needed arrives. */
  predicate AllArrive(documents: Documents, arrives: int -> Option<Fetched>, maxBytes: int) {
    forall id | id in documents :: FetchDocument(documents[id], arrives(id), maxBytes).Some?
  }

  predicate Fetchable(inputs: Inputs, downloads: Downloads) {
    Collectable(inputs) && AllFetch(Collected(inputs), downloads, inputs.maxBytes)
  }

  /** The manifests of all documents in ascending order of ids. */
  function Listing(documents: Documents, downloads: Downloads, maxBytes: int): seq<DocumentManifest>
    requires AllFetch(documents, downloads, maxBytes)
  {
    var ids := SortedIds(documents.Keys);
    assert forall i | 0 <= i < |ids| :: ids[i] in ids && Fetches(documents, downloads, maxBytes, ids[i]);
    seq(|ids|, i requires 0 <= i < |ids| => FetchDocument(documents[ids[i]], downloads[ids[i]], maxBytes).value)
  }

  /** The one manifest that a set of inputs and downloads can produce. */
  function CatalogOf(inputs: Inputs, downloads: Downloads): Manifest
    requires Fetchable(inputs, downloads)
  {
    var sets := Sets(Upgrades(inputs.gifts, inputs.answers));
    var listed := Listing(Collected(inputs), downloads, inputs.maxBytes);
    Manifest(GiftManifests(inputs.gifts), |Upgradeable(inputs.gifts)|, sets, |sets|,
      Total(sets, AttributesOf), Total(sets, ModelsOf), Total(sets, PatternsOf), Total(sets, BackdropsOf),
      listed, Total(listed, BytesOf), Total(listed, MissingOf))
  }

  // ----- what a written manifest says

  predicate InGifts(gifts: seq<GiftManifest>, id: int) {
    exists i | 0 <= i < |gifts| :: id in gifts[i].documentIDs
  }

  predicate InSets(sets: seq<AttributeSet>, id: int) {
    exists i | 0 <= i < |sets| :: id in sets[i].documentIDs
  }

  predicate Listed(documents: seq<DocumentManifest>, id: int) {
    exists i | 0 <= i < |documents| :: documents[i].id == id
  }

  /** A document is listed exactly when some gift or attribute set of the manifest names it; each is listed
      once, in ascending order of ids. */
  lemma ListsExactlyTheNamed(inputs: Inputs, downloads: Downloads)
    requires Fetchable(inputs, downloads)
    ensures var m := CatalogOf(inputs, downloads);
            forall id :: Listed(m.documents, id) <==> InGifts(m.gifts, id) || InSets(m.sets, id)
    ensures var m := CatalogOf(inputs, downloads);
            forall i, j | 0 <= i < j < |m.documents| :: m.documents[i].id < m.documents[j].id
  {
    var m := CatalogOf(inputs, downloads);
    var ids := SortedIds(Collected(inputs).Keys);
    DescribedIds(Collected(inputs), AllReferences(inputs));
    ListedAt(Collected(inputs), downloads, inputs.maxBytes);
    forall i, j | 0 <= i < j < |m.documents|
      ensures m.documents[i].id < m.documents[j].id
    {
      assert Below(ids[i], ids[j]);
    }
    forall id: int
      ensures Listed(m.documents, id) <==> InGifts(m.gifts, id) || InSets(m.sets, id)
    {
      ListedIff(inputs, downloads, id);
      NamedIff(inputs, downloads, id);
    }
  }

  lemma ListedIff(inputs: Inputs, downloads: Downloads, id: int)
    requires Fetchable(inputs, downloads)
    ensures Listed(CatalogOf(inputs, downloads).documents, id) <==> id in IdSet(AllReferences(inputs))
  {
    var ids, documents := SortedIds(Collected(inputs).Keys), CatalogOf(inputs, downloads).documents;
    DescribedIds(Collected(inputs), AllReferences(inputs));
    ListedAt(Collected(inputs), downloads, inputs.maxBytes);
    if Listed(documents, id) {
      var i :| 0 <= i < |documents| && documents[i].id == id;
      assert ids[i] in ids;
    }
    if id in ids {
      var i :| 0 <= i < |ids| && ids[i] == id;
      assert documents[i].id == id;
    }
  }

  lemma NamedIff(inputs: Inputs, downloads: Downloads, id: int)
    requires Fetchable(inputs, downloads)
    ensures id in IdSet(AllReferences(inputs)) <==>
            InGifts(CatalogOf(inputs, downloads).gifts, id) || InSets(CatalogOf(inputs, downloads).sets, id)
  {
    IdSetConcat(Flatten(inputs.gifts, GiftReferences), Flatten(Upgrades(inputs.gifts, inputs.answers), ReferencesFor));
    NamedByGift(inputs.gifts, id);
    NamedBySet(Upgrades(inputs.gifts, inputs.answers), id);
  }

  lemma ListedAt(documents: Documents, downloads: Downloads, maxBytes: int)
    requires AllFetch(documents, downloads, maxBytes)
    requires forall id | id in documents :: documents[id].document.id == id
    ensures var ids, listed := SortedIds(documents.Keys), Listing(documents, downloads, maxBytes);
            |ids| == |listed| && forall i | 0 <= i < |ids| :: listed[i].id == ids[i]
  {
    var ids := SortedIds(documents.Keys);
    assert forall i | 0 <= i < |ids| :: ids[i] in ids && Fetches(documents, downloads, maxBytes, ids[i]);
  }

  lemma DescribedIds(documents: Documents, refs: seq<Reference>)
    requires Describes(documents, refs)
    ensures forall id | id in documents :: documents[id].document.id == id
  {
    forall id | id in documents
      ensures documents[id].document.id == id
    {
      assert IsFirst(refs, id, documents[id].document);
    }
  }

  lemma InIds(refs: seq<Reference>, id: int)
    ensures id in Ids(refs) <==> id in IdSet(refs)
  {
    if id in IdSet(refs) {
      var i :| 0 <= i < |refs| && IdOf(refs[i]) == id;
      assert Ids(refs)[i] == id;
    }
  }

  lemma {:induction false} NamedByGift(gifts: seq<Gift>, id: int)
    ensures id in IdSet(Flatten(gifts, GiftReferences)) <==> InGifts(GiftManifests(gifts), id)
  {
    if gifts != [] {
      var init, last := gifts[..|gifts| - 1], gifts[|gifts| - 1];
      NamedByGift(init, id);
      IdSetConcat(Flatten(init, GiftReferences), GiftReferences(last));
      InIds(GiftReferences(last), id);
      assert GiftManifests(gifts) == GiftManifests(init) + [ManifestOfGift(|init|, last)];
      InGiftsOne(GiftManifests(init), ManifestOfGift(|init|, last), id);
    }
  }

  lemma InGiftsOne(gifts: seq<GiftManifest>, g: GiftManifest, id: int)
    ensures InGifts(gifts + [g], id) <==> InGifts(gifts, id) || id in g.documentIDs
  {
    var longer := gifts + [g];
    assert longer[|gifts|] == g && forall i | 0 <= i < |gifts| :: longer[i] == gifts[i];
  }

  lemma {:induction false} NamedBySet(upgrades: seq<Upgrade>, id: int)
    ensures id in IdSet(Flatten(upgrades, ReferencesFor)) <==> InSets(Sets(upgrades), id)
  {
    if upgrades != [] {
      var init, last := upgrades[..|upgrades| - 1], upgrades[|upgrades| - 1];
      NamedBySet(init, id);
      assert upgrades == init + [last];
      SetsOne(init, last);
      NamedStep(Flatten(init, ReferencesFor), ReferencesFor(last), Sets(init), SetFor(last), id);
    }
  }

  lemma SetsOne(upgrades: seq<Upgrade>, u: Upgrade)
    ensures Sets(upgrades + [u]) == Sets(upgrades) + [SetFor(u)]
  {
  }

  lemma NamedStep(before: seq<Reference>, more: seq<Reference>, sets: seq<AttributeSet>, s: AttributeSet, id: int)
    requires id in IdSet(before) <==> InSets(sets, id)
    requires id in IdSet(more) <==> id in s.documentIDs
    ensures id in IdSet(before + more) <==> InSets(sets + [s], id)
  {
    IdSetConcat(before, more);
    InSetsOne(sets, s, id);
  }

  lemma InSetsOne(sets: seq<AttributeSet>, s: AttributeSet, id: int)
    ensures InSets(sets + [s], id) <==> InSets(sets, id) || id in s.documentIDs
  {
    var longer := sets + [s];
    assert longer[|sets|] == s && forall i | 0 <= i < |sets| :: longer[i] == sets[i];
  }

  /** Models, patterns and backdrops over all sets add up to the number of attributes received, and there
      is one set for every upgradeable gift. */
  lemma AttributeTotals(inputs: Inputs, downloads: Downloads)
    requires Fetchable(inputs, downloads)
    ensures var m := CatalogOf(inputs, downloads); m.modelCount + m.patternCount + m.backdropCount == m.attributeCount
    ensures CatalogOf(inputs, downloads).setCount == CatalogOf(inputs, downloads).upgradeableGiftCount
  {
    var upgrades := Upgrades(inputs.gifts, inputs.answers);
    assert forall i | 0 <= i < |upgrades| :: upgrades[i] in upgrades;
    SetsAddUp(upgrades);
  }

  lemma SetsAddUp(upgrades: seq<Upgrade>)
    requires forall i | 0 <= i < |upgrades| :: Answered(upgrades[i])
    ensures var sets := Sets(upgrades);
            Total(sets, ModelsOf) + Total(sets, PatternsOf) + Total(sets, BackdropsOf) == Total(sets, AttributesOf)
  {
    var sets := Sets(upgrades);
    forall i | 0 <= i < |sets|
      ensures ModelsOf(sets[i]) + PatternsOf(sets[i]) + BackdropsOf(sets[i]) == AttributesOf(sets[i])
    {
      SetAddsUp(upgrades[i]);
    }
    SetTotals(sets);
  }

  lemma SetAddsUp(u: Upgrade)
    requires Answered(u)
    ensures ModelsOf(SetFor(u)) + PatternsOf(SetFor(u)) + BackdropsOf(SetFor(u)) == AttributesOf(SetFor(u))
  {
    KindsPartition(AttributesIn(u));
  }

  lemma {:induction false} SetTotals(sets: seq<AttributeSet>)
    requires forall i | 0 <= i < |sets| ::
               ModelsOf(sets[i]) + PatternsOf(sets[i]) + BackdropsOf(sets[i]) == AttributesOf(sets[i])
    ensures Total(sets, ModelsOf) + Total(sets, PatternsOf) + Total(sets, BackdropsOf) == Total(sets, AttributesOf)
  {
    if sets != [] {
      SetTotals(sets[..|sets| - 1]);
    }
  }

  /** What is listed about a document: every purpose it is referenced for, and the size declared by the
      first reference to it, which is also what was downloaded. */
  lemma ListedDocuments(inputs: Inputs, downloads: Downloads)
    requires Fetchable(inputs, downloads)
    ensures var listed, refs := CatalogOf(inputs, downloads).documents, AllReferences(inputs);
            forall i | 0 <= i < |listed| ::
              && listed[i].purposes == PurposesOf(refs, listed[i].id)
              && 0 < listed[i].size <= inputs.maxBytes
              && exists doc :: IsFirst(refs, listed[i].id, doc) && doc.size == listed[i].size
  {
    var documents, refs := Collected(inputs), AllReferences(inputs);
    var listed := Listing(documents, downloads, inputs.maxBytes);
    DescribedIds(documents, refs);
    forall i | 0 <= i < |listed|
      ensures listed[i].purposes == PurposesOf(refs, listed[i].id) && 0 < listed[i].size <= inputs.maxBytes
      ensures exists doc :: IsFirst(refs, listed[i].id, doc) && doc.size == listed[i].size
    {
      ListedAtFetches(documents, downloads, inputs.maxBytes, i);
      var id := SortedIds(documents.Keys)[i];
      assert IsFirst(refs, id, documents[id].document);
    }
  }

  lemma ListedAtFetches(documents: Documents, downloads: Downloads, maxBytes: int, i: nat)
    requires AllFetch(documents, downloads, maxBytes) && i < |Listing(documents, downloads, maxBytes)|
    ensures var id, d := SortedIds(documents.Keys)[i], Listing(documents, downloads, maxBytes)[i];
            && id in documents && d.id == documents[id].document.id && d.purposes == documents[id].purposes
            && d.size == documents[id].document.size && 0 < d.size <= maxBytes
  {
    var id := SortedIds(documents.Keys)[i];
    assert id in SortedIds(documents.Keys);
    assert Fetches(documents, downloads, maxBytes, id);
  }
}
