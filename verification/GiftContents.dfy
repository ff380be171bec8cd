/**
 What a written gift manifest says, entry by entry, in terms of the catalog, the server's answers and the
 downloads; and for which of these there is one.
 */
module GiftContents {
  import opened Wrappers
  import opened GiftDocuments
  import opened GiftCatalog

  /** What `one` gives for each thing, one after the other. */
  function Each<A, B>(things: seq<A>, one: A -> seq<B>): seq<B> {
    if things == [] then [] else Each(things[..|things| - 1], one) + one(things[|things| - 1])
  }

  /** What comes from thing j stands behind what comes from the things before it. */
  lemma {:induction false} EachAt<A, B>(things: seq<A>, one: A -> seq<B>, j: nat)
    requires j < |things|
    ensures Each(things[..j], one) + one(things[j]) <= Each(things, one)
    decreases |things|
  {
    var n := |things| - 1;
    if j < n {
      EachAt(things[..n], one, j);
      assert things[..n][..j] == things[..j];
    }
  }

  function DocumentIdOf(target: DocumentClass): int {
    match target
    case Doc(document) => document.id
    case NoDocument => 0
  }

  // ----- the lists, each with the positions its entries come from

  /** A regular gift with an id and something to upgrade to is upgradeable. */
  function OneUpgradeable(g: Gift): seq<int> {
    match g
    case Regular(id, _, upgradeStars, upgradeVariants) =>
      if id == 0 || (upgradeStars <= 0 && upgradeVariants <= 0) then [] else [id]
    case _ => []
  }

  lemma {:induction false} UpgradeableAre(gifts: seq<Gift>)
    ensures Upgradeable(gifts) == Each(gifts, OneUpgradeable)
  {
    if gifts != [] {
      UpgradeableAre(gifts[..|gifts| - 1]);
    }
  }

  function OneModel(a: Attribute): seq<ModelManifest> {
    match a
    case Model(name, document, crafted, rarity) => [ModelManifest(name, DocumentIdOf(document), crafted, rarity)]
    case _ => []
  }

  function OnePattern(a: Attribute): seq<PatternManifest> {
    match a
    case Pattern(name, document, rarity) => [PatternManifest(name, DocumentIdOf(document), rarity)]
    case _ => []
  }

  function OneBackdrop(a: Attribute): seq<BackdropManifest> {
    match a
    case Backdrop(name, backdrop, rarity) => [BackdropManifest(name, backdrop, rarity)]
    case _ => []
  }

  lemma {:induction false} KindsAre(attributes: seq<Attribute>)
    ensures Models(attributes) == Each(attributes, OneModel)
    ensures Patterns(attributes) == Each(attributes, OnePattern)
    ensures Backdrops(attributes) == Each(attributes, OneBackdrop)
  {
    if attributes != [] {
      KindsAre(attributes[..|attributes| - 1]);
    }
  }

  /** Models and patterns have a document, other attributes have none. */
  function OneDocument(a: Attribute): seq<int> {
    match a
    case Model(_, document, _, _) => [DocumentIdOf(document)]
    case Pattern(_, document, _) => [DocumentIdOf(document)]
    case _ => []
  }

  lemma {:induction false} UniqueDocumentsAre(gift: int, attributes: seq<Attribute>)
    ensures Ids(Flatten(attributes, UniqueReferences(gift))) == Each(attributes, OneDocument)
  {
    if attributes != [] {
      var init, a := attributes[..|attributes| - 1], attributes[|attributes| - 1];
      UniqueDocumentsAre(gift, init);
      LastDocument(Flatten(init, UniqueReferences(gift)), gift, a);
    }
  }

  lemma LastDocument(refs: seq<Reference>, gift: int, a: Attribute)
    ensures Ids(refs + UniqueReferences(gift)(a)) == Ids(refs) + OneDocument(a)
  {
  }

  // ----- the entries of the manifest

  /** One entry for every gift, under its place in the catalog: a regular gift names its sticker, a unique one the
      documents of its models and patterns. */
  lemma GiftEntry(inputs: Inputs, downloads: Downloads, i: nat)
    requires Fetchable(inputs, downloads) && i < |inputs.gifts|
    ensures |CatalogOf(inputs, downloads).gifts| == |inputs.gifts|
    ensures CatalogOf(inputs, downloads).gifts[i] ==
            match inputs.gifts[i]
            case Regular(id, sticker, _, _) => GiftManifest(i, false, id, [DocumentIdOf(sticker)])
            case Unique(id, attributes) => GiftManifest(i, true, id, Each(attributes, OneDocument))
            case UnknownGift => GiftManifest(i, false, 0, [])
  {
    if inputs.gifts[i].Unique? {
      UniqueDocumentsAre(inputs.gifts[i].id, inputs.gifts[i].attributes);
    }
  }

  /** The set is made of the server's answer for a gift. */
  predicate IsSetOf(set': AttributeSet, gift: int, answer: Option<seq<Attribute>>) {
    && answer.Some? && set'.giftID == gift && set'.attributeCount == |answer.value|
    && set'.models == Each(answer.value, OneModel)
    && set'.patterns == Each(answer.value, OnePattern)
    && set'.backdrops == Each(answer.value, OneBackdrop)
  }

  /** One set for every upgradeable gift, in their order. */
  lemma SetEntries(inputs: Inputs, downloads: Downloads)
    requires Fetchable(inputs, downloads)
    ensures var m := CatalogOf(inputs, downloads);
            var ids := Each(inputs.gifts, OneUpgradeable);
            && m.upgradeableGiftCount == m.setCount == |m.sets| == |ids|
            && forall i: nat | i < |ids| :: IsSetOf(m.sets[i], ids[i], inputs.answers(i))
  {
    var upgrades := Upgrades(inputs.gifts, inputs.answers);
    UpgradeableAre(inputs.gifts);
    forall i: nat | i < |upgrades|
      ensures IsSetOf(SetFor(upgrades[i]), upgrades[i].gift, inputs.answers(i))
    {
      assert upgrades[i] in upgrades;
      assert Answered(upgrades[i]);
      KindsAre(inputs.answers(i).value);
    }
  }

  /** The document is listed with what its download brought. */
  predicate IsEntry(inputs: Inputs, downloads: Downloads, d: DocumentManifest) {
    && d.id in downloads && downloads[d.id].Some?
    && var got := downloads[d.id].value;
       d == DocumentManifest(d.id, got.size, PurposesOf(AllReferences(inputs), d.id), got.thumbs, got.missing)
  }

  lemma DocumentEntries(inputs: Inputs, downloads: Downloads)
    requires Fetchable(inputs, downloads)
    ensures forall d | d in CatalogOf(inputs, downloads).documents :: IsEntry(inputs, downloads, d)
  {
    var documents := Collected(inputs);
    var ids := SortedIds(documents.Keys);
    DescribedIds(documents, AllReferences(inputs));
    var listed := Listing(documents, downloads, inputs.maxBytes);
    forall d | d in listed
      ensures IsEntry(inputs, downloads, d)
    {
      var i :| 0 <= i < |listed| && listed[i] == d;
      assert ids[i] in ids;
      FetchedEntry(documents, downloads, inputs.maxBytes, ids[i]);
    }
  }

  lemma FetchedEntry(documents: Documents, downloads: Downloads, maxBytes: int, id: int)
    requires AllFetch(documents, downloads, maxBytes) && id in documents && documents[id].document.id == id
    ensures id in downloads && downloads[id].Some?
    ensures var got := downloads[id].value;
            FetchDocument(documents[id], downloads[id], maxBytes) ==
            Some(DocumentManifest(id, got.size, documents[id].purposes, got.thumbs, got.missing))
  {
    assert Fetches(documents, downloads, maxBytes, id);
  }

  // ----- the purposes

  /** An attribute of the given kind, name and document. */
  predicate Has(a: Attribute, model: bool, name: string, id: int) {
    match a
    case Model(n, document, _, _) => model && n == name && DocumentIdOf(document) == id
    case Pattern(n, document, _) => !model && n == name && DocumentIdOf(document) == id
    case _ => false
  }

  predicate OneHas(attributes: seq<Attribute>, model: bool, name: string, id: int) {
    exists j | 0 <= j < |attributes| :: Has(attributes[j], model, name, id)
  }

  /** The gift wants the document for this purpose. */
  predicate GiftWants(g: Gift, id: int, p: Purpose) {
    match g
    case Regular(gift, sticker, _, _) => p == Sticker(gift) && DocumentIdOf(sticker) == id
    case Unique(gift, attributes) =>
      || (p.UniqueModel? && p.gift == gift && OneHas(attributes, true, p.name, id))
      || (p.UniquePattern? && p.gift == gift && OneHas(attributes, false, p.name, id))
    case UnknownGift => false
  }

  /** The answer to a question about an upgradeable gift wants it. */
  predicate AnswerWants(gift: int, attributes: seq<Attribute>, id: int, p: Purpose) {
    || (p.UpgradeModel? && p.gift == gift && OneHas(attributes, true, p.name, id))
    || (p.UpgradePattern? && p.gift == gift && OneHas(attributes, false, p.name, id))
  }

  lemma GiftWantsIff(g: Gift, id: int, p: Purpose)
    ensures (exists r :: r in GiftReferences(g) && IdOf(r) == id && r.purpose == p) <==> GiftWants(g, id, p)
  {
    if g.Unique? {
      WantedAmong(g.attributes, UniqueReferences(g.id), id, p);
      forall i | 0 <= i < |g.attributes|
        ensures (exists r :: r in UniqueReferences(g.id)(g.attributes[i]) && IdOf(r) == id && r.purpose == p) <==>
                || (p.UniqueModel? && p.gift == g.id && Has(g.attributes[i], true, p.name, id))
                || (p.UniquePattern? && p.gift == g.id && Has(g.attributes[i], false, p.name, id))
      {
        OneReference(UniqueReferences(g.id)(g.attributes[i]), id, p);
      }
    } else {
      OneReference(GiftReferences(g), id, p);
    }
  }

  lemma OneReference(refs: seq<Reference>, id: int, p: Purpose)
    requires |refs| <= 1
    ensures (exists r :: r in refs && IdOf(r) == id && r.purpose == p) <==>
            |refs| == 1 && IdOf(refs[0]) == id && refs[0].purpose == p
  {
    if |refs| == 1 {
      assert refs[0] in refs;
    }
  }

  lemma WantedAmong<T>(things: seq<T>, refsOf: T -> seq<Reference>, id: int, p: Purpose)
    ensures (exists r :: r in Flatten(things, refsOf) && IdOf(r) == id && r.purpose == p) <==>
            exists i | 0 <= i < |things| :: exists r :: r in refsOf(things[i]) && IdOf(r) == id && r.purpose == p
  {
    if r :| r in Flatten(things, refsOf) && IdOf(r) == id && r.purpose == p {
      FlattenHas(things, refsOf, r);
    }
    if i :| 0 <= i < |things| && exists r :: r in refsOf(things[i]) && IdOf(r) == id && r.purpose == p {
      var r :| r in refsOf(things[i]) && IdOf(r) == id && r.purpose == p;
      FlattenHas(things, refsOf, r);
    }
  }

  lemma AnswerWantsIff(gift: int, attributes: seq<Attribute>, id: int, p: Purpose)
    ensures (exists r :: r in SetReferences(gift, attributes) && IdOf(r) == id && r.purpose == p) <==>
            AnswerWants(gift, attributes, id, p)
  {
    WantedAmong(attributes, UpgradeReferences(gift), id, p);
    forall i | 0 <= i < |attributes|
      ensures (exists r :: r in UpgradeReferences(gift)(attributes[i]) && IdOf(r) == id && r.purpose == p) <==>
              || (p.UpgradeModel? && p.gift == gift && Has(attributes[i], true, p.name, id))
              || (p.UpgradePattern? && p.gift == gift && Has(attributes[i], false, p.name, id))
    {
      OneReference(UpgradeReferences(gift)(attributes[i]), id, p);
    }
  }

  predicate SomeGiftWants(gifts: seq<Gift>, id: int, p: Purpose) {
    exists i | 0 <= i < |gifts| :: GiftWants(gifts[i], id, p)
  }

  predicate SomeAnswerWants(ids: seq<int>, answers: nat -> Option<seq<Attribute>>, id: int, p: Purpose) {
    exists i: nat | i < |ids| :: answers(i).Some? && AnswerWants(ids[i], answers(i).value, id, p)
  }

  /** A document is listed with exactly the purposes that some gift or some upgradeable gift's answer has for it. */
  lemma PurposesAre(inputs: Inputs, id: int, p: Purpose)
    ensures p in PurposesOf(AllReferences(inputs), id) <==>
            || SomeGiftWants(inputs.gifts, id, p)
            || SomeAnswerWants(Each(inputs.gifts, OneUpgradeable), inputs.answers, id, p)
  {
    var fromGifts := Flatten(inputs.gifts, GiftReferences);
    var fromAnswers := Flatten(Upgrades(inputs.gifts, inputs.answers), ReferencesFor);
    PurposeInEither(fromGifts, fromAnswers, id, p);
    WantedAmong(inputs.gifts, GiftReferences, id, p);
    forall i | 0 <= i < |inputs.gifts|
      ensures (exists r :: r in GiftReferences(inputs.gifts[i]) && IdOf(r) == id && r.purpose == p) <==>
              GiftWants(inputs.gifts[i], id, p)
    {
      GiftWantsIff(inputs.gifts[i], id, p);
    }
    AnswersWantIff(inputs, id, p);
  }

  lemma AnswersWantIff(inputs: Inputs, id: int, p: Purpose)
    ensures (exists r :: r in Flatten(Upgrades(inputs.gifts, inputs.answers), ReferencesFor) && IdOf(r) == id
                         && r.purpose == p) <==>
            SomeAnswerWants(Each(inputs.gifts, OneUpgradeable), inputs.answers, id, p)
  {
    var upgrades := Upgrades(inputs.gifts, inputs.answers);
    UpgradeableAre(inputs.gifts);
    WantedAmong(upgrades, ReferencesFor, id, p);
    forall i: nat | i < |upgrades|
      ensures (exists r :: r in ReferencesFor(upgrades[i]) && IdOf(r) == id && r.purpose == p) <==>
              inputs.answers(i).Some? && AnswerWants(upgrades[i].gift, inputs.answers(i).value, id, p)
    {
      AnswerWantsIff(upgrades[i].gift, AttributesIn(upgrades[i]), id, p);
      assert SetReferences(upgrades[i].gift, []) == [];
    }
  }

  lemma PurposeInEither(a: seq<Reference>, b: seq<Reference>, id: int, p: Purpose)
    ensures p in PurposesOf(a + b, id) <==>
            || (exists r :: r in a && IdOf(r) == id && r.purpose == p)
            || (exists r :: r in b && IdOf(r) == id && r.purpose == p)
  {
    var c := a + b;
    if p in PurposesOf(c, id) {
      var i :| 0 <= i < |c| && IdOf(c[i]) == id && c[i].purpose == p;
      assert c[i] in a || c[i] in b;
    }
    if r :| r in a && IdOf(r) == id && r.purpose == p {
      var i :| 0 <= i < |a| && a[i] == r;
      assert c[i] == r;
    }
    if r :| r in b && IdOf(r) == id && r.purpose == p {
      var i :| 0 <= i < |b| && b[i] == r;
      assert c[|a| + i] == r;
    }
  }

  // ----- the totals

  function Sum(numbers: seq<int>): int {
    if numbers == [] then 0 else Sum(numbers[..|numbers| - 1]) + numbers[|numbers| - 1]
  }

  lemma {:induction false} SumConcat(a: seq<int>, b: seq<int>)
    ensures Sum(a + b) == Sum(a) + Sum(b)
  {
    if b == [] {
      assert a + b == a;
    } else {
      assert (a + b)[..|a + b| - 1] == a + b[..|b| - 1];
      SumConcat(a, b[..|b| - 1]);
    }
  }

  /** The sizes of a document's files: its own and its thumbnails'. */
  function FileSizes(d: DocumentManifest): seq<int> {
    [d.size] + d.thumbs
  }

  function MissingThumbs(d: DocumentManifest): seq<int> {
    [d.missing]
  }

  function SetSizes(s: AttributeSet): seq<int> {
    [s.attributeCount]
  }

  function SetModels(s: AttributeSet): seq<int> {
    [|s.models|]
  }

  function SetPatterns(s: AttributeSet): seq<int> {
    [|s.patterns|]
  }

  function SetBackdrops(s: AttributeSet): seq<int> {
    [|s.backdrops|]
  }

  lemma SumOne(n: int)
    ensures Sum([n]) == n
  {
    assert [n][..0] == [];
  }

  lemma {:induction false} SameTotal<T>(things: seq<T>, measure: T -> int, parts: T -> seq<int>)
    requires forall thing | thing in things :: Sum(parts(thing)) == measure(thing)
    ensures Total(things, measure) == Sum(Each(things, parts))
  {
    if things != [] {
      var init, last := things[..|things| - 1], things[|things| - 1];
      SameTotal(init, measure, parts);
      SumConcat(Each(init, parts), parts(last));
    }
  }

  lemma {:induction false} ThumbBytes(thumbs: seq<int>)
    ensures Total(thumbs, Itself) == Sum(thumbs)
  {
    if thumbs != [] {
      ThumbBytes(thumbs[..|thumbs| - 1]);
    }
  }

  lemma DocumentTotals(documents: seq<DocumentManifest>)
    ensures Total(documents, BytesOf) == Sum(Each(documents, FileSizes))
    ensures Total(documents, MissingOf) == Sum(Each(documents, MissingThumbs))
  {
    forall d | d in documents
      ensures Sum(FileSizes(d)) == BytesOf(d) && Sum(MissingThumbs(d)) == MissingOf(d)
    {
      SumConcat([d.size], d.thumbs);
      ThumbBytes(d.thumbs);
      SumOne(d.size);
      SumOne(d.missing);
    }
    SameTotal(documents, BytesOf, FileSizes);
    SameTotal(documents, MissingOf, MissingThumbs);
  }

  lemma AttributeSetTotals(sets: seq<AttributeSet>)
    ensures Total(sets, AttributesOf) == Sum(Each(sets, SetSizes))
    ensures Total(sets, ModelsOf) == Sum(Each(sets, SetModels))
    ensures Total(sets, PatternsOf) == Sum(Each(sets, SetPatterns))
    ensures Total(sets, BackdropsOf) == Sum(Each(sets, SetBackdrops))
  {
    forall s | s in sets
      ensures Sum(SetSizes(s)) == AttributesOf(s) && Sum(SetModels(s)) == ModelsOf(s)
      ensures Sum(SetPatterns(s)) == PatternsOf(s) && Sum(SetBackdrops(s)) == BackdropsOf(s)
    {
      SumOne(s.attributeCount);
      SumOne(|s.models|);
      SumOne(|s.patterns|);
      SumOne(|s.backdrops|);
    }
    SameTotal(sets, AttributesOf, SetSizes);
    SameTotal(sets, ModelsOf, SetModels);
    SameTotal(sets, PatternsOf, SetPatterns);
    SameTotal(sets, BackdropsOf, SetBackdrops);
  }

  /** Bytes are those of all listed files, thumbnails included; every other total is the sum over its entries. */
  lemma TotalsAre(inputs: Inputs, downloads: Downloads)
    requires Fetchable(inputs, downloads)
    ensures var m := CatalogOf(inputs, downloads);
            && m.totalBytes == Sum(Each(m.documents, FileSizes))
            && m.missingThumbCount == Sum(Each(m.documents, MissingThumbs))
            && m.attributeCount == Sum(Each(m.sets, SetSizes)) && m.modelCount == Sum(Each(m.sets, SetModels))
            && m.patternCount == Sum(Each(m.sets, SetPatterns)) && m.backdropCount == Sum(Each(m.sets, SetBackdrops))
  {
    DocumentTotals(CatalogOf(inputs, downloads).documents);
    AttributeSetTotals(CatalogOf(inputs, downloads).sets);
  }

  // ----- when there is a manifest

  /** A usable answer: between one and 10000 attributes, all of known kinds and rarities, some of each kind. */
  predicate UsableAnswer(answer: Option<seq<Attribute>>) {
    && answer.Some? && 0 < |answer.value| <= 10000
    && (forall i | 0 <= i < |answer.value| ::
          match answer.value[i]
          case Model(_, _, _, rarity) => rarity != UnknownRarity
          case Pattern(_, _, rarity) => rarity != UnknownRarity
          case Backdrop(_, _, rarity) => rarity != UnknownRarity
          case UnknownAttribute => false)
    && Each(answer.value, OneModel) != [] && Each(answer.value, OnePattern) != []
    && Each(answer.value, OneBackdrop) != []
  }

  /** A reference to a document with an id and a sticker or custom-emoji attribute. */
  predicate UsableReference(r: Reference) {
    match r.target
    case Doc(document) => document.id != 0 && document.renderable
    case NoDocument => false
  }

  /** The download brings as many bytes as the document declares, and these are acceptable. */
  predicate UsableDownload(document: Document, got: Option<Fetched>, maxBytes: int) {
    got.Some? && 0 < document.size == got.value.size <= maxBytes
  }

  lemma UsableAnswerIff(u: Upgrade)
    ensures Answered(u) <==> UsableAnswer(u.answer)
  {
    if u.answer.Some? {
      KindsAre(u.answer.value);
      if forall i | 0 <= i < |u.answer.value| :: Known(u.answer.value[i]) {
        KindsPartition(u.answer.value);
      }
    }
  }

  /** There is a manifest if and only if there are at most 5000 gifts, all of known kinds; every upgradeable gift
      has a usable answer; every reference is usable, and those to one id agree on size and type; at most 50000
      documents are referenced, and the download of each is usable. */
  lemma ManifestIff(inputs: Inputs, downloads: Downloads)
    ensures Fetchable(inputs, downloads) <==>
            && |inputs.gifts| <= 5000 && (forall i | 0 <= i < |inputs.gifts| :: !inputs.gifts[i].UnknownGift?)
            && (forall i: nat | i < |Each(inputs.gifts, OneUpgradeable)| :: UsableAnswer(inputs.answers(i)))
            && AllUsable(AllReferences(inputs)) && |IdSet(AllReferences(inputs))| <= 50000
            && DownloadsUsable(AllReferences(inputs), downloads, inputs.maxBytes)
  {
    var upgrades, refs := Upgrades(inputs.gifts, inputs.answers), AllReferences(inputs);
    UpgradeableAre(inputs.gifts);
    forall i: nat | i < |upgrades|
      ensures Answered(upgrades[i]) <==> UsableAnswer(inputs.answers(i))
    {
      UsableAnswerIff(upgrades[i]);
    }
    assert (forall u | u in upgrades :: Answered(u)) <==> forall i: nat | i < |upgrades| :: Answered(upgrades[i]);
    UsableIff(refs);
    if Collectable(inputs) {
      DownloadsIff(Collected(inputs), refs, downloads, inputs.maxBytes);
    }
  }

  predicate AllUsable(refs: seq<Reference>) {
    && (forall i | 0 <= i < |refs| :: UsableReference(refs[i]))
    && forall i, j | 0 <= i < j < |refs| ::
         refs[i].target.document.id == refs[j].target.document.id ==>
           && refs[i].target.document.size == refs[j].target.document.size
           && refs[i].target.document.mimeType == refs[j].target.document.mimeType
  }

  predicate DownloadsUsable(refs: seq<Reference>, downloads: Downloads, maxBytes: int)
    requires AllUsable(refs)
  {
    forall i | 0 <= i < |refs| ::
      && refs[i].target.document.id in downloads
      && UsableDownload(refs[i].target.document, downloads[refs[i].target.document.id], maxBytes)
  }

  lemma UsableIff(refs: seq<Reference>)
    ensures Consistent(refs) <==> AllUsable(refs)
  {
    forall i | 0 <= i < |refs|
      ensures Sound(refs[i]) <==> UsableReference(refs[i])
    {
    }
  }

  lemma DownloadsIff(documents: Documents, refs: seq<Reference>, downloads: Downloads, maxBytes: int)
    requires AllUsable(refs) && Describes(documents, refs)
    ensures AllFetch(documents, downloads, maxBytes) <==> DownloadsUsable(refs, downloads, maxBytes)
  {
    forall i | 0 <= i < |refs|
      ensures var id := refs[i].target.document.id;
              id in documents && documents[id].document.size == refs[i].target.document.size
    {
      var id := IdOf(refs[i]);
      assert id in IdSet(refs);
      assert IsFirst(refs, id, documents[id].document);
    }
    forall id | id in documents
      ensures exists i :: 0 <= i < |refs| && refs[i].target.document.id == id
    {
      assert id in IdSet(refs);
    }
  }
}
