/**
 The fetch as it runs: a shared map of documents that the collectors write, and result slots that the
 download workers fill in an order nobody controls.
 */
module GiftFetch {
  import opened Wrappers
  import opened GiftDocuments
  import opened GiftCatalog

  class Collector {
    var documents: Documents

    constructor ()
      ensures documents == map[]
    {
      documents := map[];
    }

    method AddDocument(target: DocumentClass, purpose: Purpose) returns (r: Result<Document, FetchError>)
      modifies this
      ensures var added := Add(old(documents), Reference(target, purpose));
              if added.Ok? then r.Ok? && target == Doc(r.value) && documents == added.value
              else r == Err(added.error) && documents == old(documents)
    {
      if !target.Doc? || target.document.id == 0 {
        return Err(InvalidDocument);
      }
      var doc := target.document;
      if !doc.renderable {
        return Err(NotRenderable);
      }
      if doc.id !in documents {
        documents := documents[doc.id := Source(doc, {})];
      } else if documents[doc.id].document.size != doc.size || documents[doc.id].document.mimeType != doc.mimeType {
        return Err(Conflict);
      }
      var existing := documents[doc.id];
      assert existing.purposes + {purpose} ==
               if doc.id in old(documents) then existing.purposes + {purpose} else {purpose};
      documents := documents[doc.id := existing.(purposes := existing.purposes + {purpose})];
      return Ok(doc);
    }

    /** A failed collection leaves the map in a state that nobody looks at: the whole fetch fails. */
    method CollectGift(index: nat, g: Gift) returns (r: Result<GiftManifest, FetchError>)
      modifies this
      ensures r.Ok? <==> !g.UnknownGift? && AddAll(old(documents), GiftReferences(g)).Ok?
      ensures r.Ok? ==>
                AddAll(old(documents), GiftReferences(g)) == Ok(documents) && r.value == ManifestOfGift(index, g)
    {
      match g
      case Regular(id, sticker, _, _) =>
        var doc := AddOnly(sticker, Sticker(id));
        return if doc.Err? then Err(doc.error) else Ok(GiftManifest(index, false, id, [doc.value]));
      case Unique(id, attributes) =>
        var ids := CollectUnique(id, attributes);
        return if ids.Err? then Err(ids.error) else Ok(GiftManifest(index, true, id, ids.value));
      case UnknownGift =>
        return Err(UnknownConstructor);
    }

    method CollectUnique(gift: int, attributes: seq<Attribute>) returns (r: Result<seq<int>, FetchError>)
      modifies this
      ensures r.Ok? <==> AddAll(old(documents), Flatten(attributes, UniqueReferences(gift))).Ok?
      ensures r.Ok? ==>
        && AddAll(old(documents), Flatten(attributes, UniqueReferences(gift))) == Ok(documents)
        && r.value == Ids(Flatten(attributes, UniqueReferences(gift)))
    {
      ghost var start := documents;
      var ids: seq<int> := [];
      for i := 0 to |attributes|
        invariant AddAll(start, Flatten(attributes[..i], UniqueReferences(gift))) == Ok(documents)
        invariant ids == Ids(Flatten(attributes[..i], UniqueReferences(gift)))
      {
        AddThing(start, attributes, i, UniqueReferences(gift));
        var a := attributes[i];
        var refs := UniqueReferences(gift)(a);
        IdsConcat(Flatten(attributes[..i], UniqueReferences(gift)), refs);
        if !a.Model? && !a.Pattern? {
          assert refs == [];
          continue;
        }
        var purpose := if a.Model? then UniqueModel(gift, a.name) else UniquePattern(gift, a.name);
        assert refs == [Reference(a.document, purpose)];
        var doc := AddOnly(a.document, purpose);
        if doc.Err? {
          return Err(doc.error);
        }
        ids := ids + [doc.value];
      }
      assert attributes[..|attributes|] == attributes;
      return Ok(ids);
    }

    method CollectUpgradeAttributes(gift: int, attributes: seq<Attribute>) returns (r: Result<AttributeSet, FetchError>)
      modifies this
      ensures r.Ok? <==> Complete(attributes) && AddAll(old(documents), SetReferences(gift, attributes)).Ok?
      ensures r.Ok? ==>
        AddAll(old(documents), SetReferences(gift, attributes)) == Ok(documents) && r.value == SetOf(gift, attributes)
    {
      ghost var start := documents;
      var parsed := AttributeSet(gift, |attributes|, [], [], [], []);
      var documentIDs: set<int> := {};
      for i := 0 to |attributes|
        invariant ParsedSoFar(start, gift, attributes, i, documents, parsed, documentIDs)
      {
        ParsedStep(start, gift, attributes, i, documents, parsed, documentIDs);
        if !Known(attributes[i]) {
          return Err(if attributes[i].UnknownAttribute? then UnknownConstructor else UnknownRarityClass);
        }
        var added := AddAttribute(gift, attributes[i], parsed, documentIDs);
        if added.Err? {
          return Err(added.error);
        }
        parsed, documentIDs := added.value.0, added.value.1;
      }
      assert attributes[..|attributes|] == attributes;
      KindsPartition(attributes);
      if parsed.models == [] || parsed.patterns == [] || parsed.backdrops == [] {
        return Err(Incomplete);
      }
      // The source compares the sum with the number of attributes here; it cannot differ.
      assert |parsed.models| + |parsed.patterns| + |parsed.backdrops| == parsed.attributeCount;
      return Ok(parsed.(documentIDs := SortedIds(documentIDs)));
    }

    /** Files one attribute under its kind; a backdrop has no document. */
    method AddAttribute(gift: int, a: Attribute, parsed: AttributeSet, documentIDs: set<int>)
      returns (r: Result<(AttributeSet, set<int>), FetchError>)
      requires Known(a)
      modifies this
      ensures r.Ok? <==> AddAll(old(documents), UpgradeReferences(gift)(a)).Ok?
      ensures r.Ok? ==>
        && AddAll(old(documents), UpgradeReferences(gift)(a)) == Ok(documents)
        && r.value == (Filed(parsed, a), documentIDs + IdSet(UpgradeReferences(gift)(a)))
    {
      match a
      case Backdrop(name, backdrop, rarity) =>
        assert IdSet(UpgradeReferences(gift)(a)) == {} && documentIDs + {} == documentIDs;
        return Ok((parsed.(backdrops := parsed.backdrops + [BackdropManifest(name, backdrop, rarity)]), documentIDs));
      case Model(name, document, crafted, rarity) =>
        var doc := AddOnly(document, UpgradeModel(gift, name));
        if doc.Err? {
          return Err(doc.error);
        }
        var model := ModelManifest(name, doc.value, crafted, rarity);
        return Ok((parsed.(models := parsed.models + [model]), documentIDs + {doc.value}));
      case Pattern(name, document, rarity) =>
        var doc := AddOnly(document, UpgradePattern(gift, name));
        if doc.Err? {
          return Err(doc.error);
        }
        var pattern := PatternManifest(name, doc.value, rarity);
        return Ok((parsed.(patterns := parsed.patterns + [pattern]), documentIDs + {doc.value}));
    }

    /** AddDocument, seen as collecting a list of one reference. */
    method AddOnly(target: DocumentClass, purpose: Purpose) returns (r: Result<int, FetchError>)
      modifies this
      ensures r.Ok? <==> AddAll(old(documents), [Reference(target, purpose)]).Ok?
      ensures r.Ok? ==>
        && AddAll(old(documents), [Reference(target, purpose)]) == Ok(documents)
        && r.value == TargetId(target) && IdSet([Reference(target, purpose)]) == {r.value}
    {
      AddAllOne(documents, [], Reference(target, purpose));
      IdSetSingle(Reference(target, purpose));
      var doc := AddDocument(target, purpose);
      return if doc.Err? then Err(doc.error) else Ok(doc.value.id);
    }
  }

  function Parsed(gift: int, count: nat, attributes: seq<Attribute>): AttributeSet {
    AttributeSet(gift, count, Models(attributes), Patterns(attributes), Backdrops(attributes), [])
  }

  function Filed(parsed: AttributeSet, a: Attribute): AttributeSet
    requires !a.UnknownAttribute?
  {
    match a
    case Model(name, document, crafted, rarity) =>
      parsed.(models := parsed.models + [ModelManifest(name, TargetId(document), crafted, rarity)])
    case Pattern(name, document, rarity) =>
      parsed.(patterns := parsed.patterns + [PatternManifest(name, TargetId(document), rarity)])
    case Backdrop(name, backdrop, rarity) =>
      parsed.(backdrops := parsed.backdrops + [BackdropManifest(name, backdrop, rarity)])
  }

  /** The first i attributes have been parsed and their documents collected. */
  ghost predicate ParsedSoFar(start: Documents, gift: int, attributes: seq<Attribute>, i: nat,
                              documents: Documents, parsed: AttributeSet, documentIDs: set<int>)
  {
    && i <= |attributes|
    && AddAll(start, SetReferences(gift, attributes[..i])) == Ok(documents)
    && (forall j | 0 <= j < i :: Known(attributes[j]))
    && parsed == Parsed(gift, |attributes|, attributes[..i])
    && documentIDs == IdSet(SetReferences(gift, attributes[..i]))
  }

  lemma ParsedStep(start: Documents, gift: int, attributes: seq<Attribute>, i: nat,
                   documents: Documents, parsed: AttributeSet, documentIDs: set<int>)
    requires ParsedSoFar(start, gift, attributes, i, documents, parsed, documentIDs) && i < |attributes|
    ensures AddAll(documents, UpgradeReferences(gift)(attributes[i])).Err? ==>
              AddAll(start, SetReferences(gift, attributes)).Err?
    ensures var added := AddAll(documents, UpgradeReferences(gift)(attributes[i]));
            added.Ok? && Known(attributes[i]) ==>
              ParsedSoFar(start, gift, attributes, i + 1, added.value, Filed(parsed, attributes[i]),
                          documentIDs + IdSet(UpgradeReferences(gift)(attributes[i])))
  {
    var init, a := attributes[..i], attributes[i];
    AddThing(start, attributes, i, UpgradeReferences(gift));
    IdSetConcat(SetReferences(gift, init), UpgradeReferences(gift)(a));
    if Known(a) {
      ParsedOne(gift, |attributes|, attributes, i);
    }
  }

  lemma ParsedOne(gift: int, count: nat, attributes: seq<Attribute>, i: nat)
    requires i < |attributes| && !attributes[i].UnknownAttribute?
    ensures Parsed(gift, count, attributes[..i + 1]) == Filed(Parsed(gift, count, attributes[..i]), attributes[i])
  {
    assert attributes[..i + 1] == attributes[..i] + [attributes[i]];
    KindsOne(attributes[..i], attributes[i]);
    var m, p, b := Models(attributes[..i]), Patterns(attributes[..i]), Backdrops(attributes[..i]);
    assert m + [] == m && p + [] == p && b + [] == b;
  }

  lemma IdsConcat(a: seq<Reference>, b: seq<Reference>)
    ensures Ids(a + b) == Ids(a) + Ids(b)
  {
  }

  /** Collecting the references of one more thing; if that fails, collecting all of them fails. */
  lemma AddThing<T>(documents: Documents, things: seq<T>, i: nat, refsOf: T -> seq<Reference>)
    requires i < |things| && AddAll(documents, Flatten(things[..i], refsOf)).Ok?
    ensures Flatten(things[..i + 1], refsOf) == Flatten(things[..i], refsOf) + refsOf(things[i])
    ensures var before := AddAll(documents, Flatten(things[..i], refsOf)).value;
            && AddAll(documents, Flatten(things[..i + 1], refsOf)) == AddAll(before, refsOf(things[i]))
            && (AddAll(before, refsOf(things[i])).Err? ==> AddAll(documents, Flatten(things, refsOf)).Err?)
  {
    assert things[..i + 1] == things[..i] + [things[i]];
    FlattenOne(things[..i], things[i], refsOf);
    AddAllConcat(documents, Flatten(things[..i], refsOf), refsOf(things[i]));
    if AddAll(documents, Flatten(things[..i + 1], refsOf)).Err? {
      PrefixFails(documents, things, i + 1, refsOf);
    }
  }

  lemma {:induction false} PrefixFails<T>(documents: Documents, things: seq<T>, n: nat, refsOf: T -> seq<Reference>)
    requires n <= |things| && AddAll(documents, Flatten(things[..n], refsOf)).Err?
    ensures AddAll(documents, Flatten(things, refsOf)).Err?
    decreases |things| - n
  {
    if n == |things| {
      assert things[..n] == things;
    } else {
      assert things[..n + 1] == things[..n] + [things[n]];
      FlattenOne(things[..n], things[n], refsOf);
      AddAllConcat(documents, Flatten(things[..n], refsOf), refsOf(things[n]));
      PrefixFails(documents, things, n + 1, refsOf);
    }
  }

  // ----- the whole fetch

  method CollectGifts(collector: Collector, gifts: seq<Gift>) returns (r: Result<seq<GiftManifest>, FetchError>)
    modifies collector
    ensures r.Ok? <==>
            && (forall i | 0 <= i < |gifts| :: !gifts[i].UnknownGift?)
            && AddAll(old(collector.documents), Flatten(gifts, GiftReferences)).Ok?
    ensures r.Ok? ==>
      && AddAll(old(collector.documents), Flatten(gifts, GiftReferences)) == Ok(collector.documents)
      && r.value == GiftManifests(gifts)
  {
    ghost var start := collector.documents;
    var manifests: seq<GiftManifest> := [];
    for i := 0 to |gifts|
      invariant GiftsSoFar(start, gifts, i, collector.documents, manifests)
    {
      GiftsStep(start, gifts, i, collector.documents, manifests);
      var gm := collector.CollectGift(i, gifts[i]);
      if gm.Err? {
        return Err(gm.error);
      }
      manifests := manifests + [gm.value];
    }
    assert gifts[..|gifts|] == gifts;
    return Ok(manifests);
  }

  /** The first i gifts have been collected. */
  ghost predicate GiftsSoFar(start: Documents, gifts: seq<Gift>, i: nat, documents: Documents,
                             manifests: seq<GiftManifest>)
  {
    && i <= |gifts|
    && AddAll(start, Flatten(gifts[..i], GiftReferences)) == Ok(documents)
    && (forall j | 0 <= j < i :: !gifts[j].UnknownGift?)
    && manifests == GiftManifests(gifts[..i])
  }

  lemma GiftsStep(start: Documents, gifts: seq<Gift>, i: nat, documents: Documents, manifests: seq<GiftManifest>)
    requires GiftsSoFar(start, gifts, i, documents, manifests) && i < |gifts|
    ensures AddAll(documents, GiftReferences(gifts[i])).Err? ==> AddAll(start, Flatten(gifts, GiftReferences)).Err?
    ensures var added := AddAll(documents, GiftReferences(gifts[i]));
            added.Ok? && !gifts[i].UnknownGift? ==>
              GiftsSoFar(start, gifts, i + 1, added.value, manifests + [ManifestOfGift(i, gifts[i])])
  {
    AddThing(start, gifts, i, GiftReferences);
    assert GiftManifests(gifts[..i + 1]) == GiftManifests(gifts[..i]) + [ManifestOfGift(i, gifts[i])];
  }

  method CollectUpgradeableGiftIDs(gifts: seq<Gift>) returns (ids: seq<int>)
    ensures ids == Upgradeable(gifts)
  {
    ids := [];
    for i := 0 to |gifts|
      invariant ids == Upgradeable(gifts[..i])
    {
      UpgradeableOne(gifts, i);
      if !gifts[i].Regular? || gifts[i].id == 0 || (gifts[i].upgradeStars <= 0 && gifts[i].upgradeVariants <= 0) {
        continue;
      }
      ids := ids + [gifts[i].id];
    }
    assert gifts[..|gifts|] == gifts;
  }

  lemma UpgradeableOne(gifts: seq<Gift>, i: nat)
    requires i < |gifts|
    ensures Upgradeable(gifts[..i + 1]) ==
            Upgradeable(gifts[..i]) + if IsUpgradeable(gifts[i]) then [gifts[i].id] else []
  {
    assert gifts[..i + 1][..i] == gifts[..i];
  }

  /** The sets and the four counters that the manifest keeps of them. */
  datatype SetTally = SetTally(sets: seq<AttributeSet>, attributes: int, models: int, patterns: int, backdrops: int)

  function Tally(sets: seq<AttributeSet>): SetTally {
    SetTally(sets, Total(sets, AttributesOf), Total(sets, ModelsOf), Total(sets, PatternsOf), Total(sets, BackdropsOf))
  }

  function Tallied(t: SetTally, s: AttributeSet): SetTally {
    SetTally(t.sets + [s], t.attributes + s.attributeCount, t.models + |s.models|, t.patterns + |s.patterns|,
      t.backdrops + |s.backdrops|)
  }

  lemma TallyOne(sets: seq<AttributeSet>, s: AttributeSet)
    ensures Tally(sets + [s]) == Tallied(Tally(sets), s)
  {
    TotalOne(sets, s, AttributesOf);
    TotalOne(sets, s, ModelsOf);
    TotalOne(sets, s, PatternsOf);
    TotalOne(sets, s, BackdropsOf);
  }

  lemma TallySetsOne(upgrades: seq<Upgrade>, i: nat)
    requires i < |upgrades|
    ensures Tally(Sets(upgrades[..i + 1])) == Tallied(Tally(Sets(upgrades[..i])), SetFor(upgrades[i]))
  {
    assert upgrades[..i + 1] == upgrades[..i] + [upgrades[i]];
    SetsOne(upgrades[..i], upgrades[i]);
    TallyOne(Sets(upgrades[..i]), SetFor(upgrades[i]));
  }

  method FetchUpgradeAttributeSet(collector: Collector, u: Upgrade) returns (r: Result<AttributeSet, FetchError>)
    modifies collector
    ensures r.Ok? <==> Answered(u) && AddAll(old(collector.documents), ReferencesFor(u)).Ok?
    ensures r.Ok? ==>
              AddAll(old(collector.documents), ReferencesFor(u)) == Ok(collector.documents) && r.value == SetFor(u)
  {
    if u.answer.None? || |u.answer.value| == 0 {
      return Err(NoAnswer);
    }
    if |u.answer.value| > MAX_UPGRADE_ATTRS {
      return Err(LimitExceeded);
    }
    r := collector.CollectUpgradeAttributes(u.gift, u.answer.value);
  }

  /** The first i sets have been fetched, their documents collected and their attributes counted. */
  ghost predicate SetsSoFar(start: Documents, upgrades: seq<Upgrade>, i: nat, documents: Documents, tally: SetTally) {
    && i <= |upgrades|
    && AddAll(start, Flatten(upgrades[..i], ReferencesFor)) == Ok(documents)
    && (forall j | 0 <= j < i :: Answered(upgrades[j]))
    && tally == Tally(Sets(upgrades[..i]))
  }

  lemma SetsStep(start: Documents, upgrades: seq<Upgrade>, i: nat, documents: Documents, tally: SetTally)
    requires SetsSoFar(start, upgrades, i, documents, tally) && i < |upgrades|
    ensures AddAll(documents, ReferencesFor(upgrades[i])).Err? ==> AddAll(start, Flatten(upgrades, ReferencesFor)).Err?
    ensures var added := AddAll(documents, ReferencesFor(upgrades[i]));
            added.Ok? && Answered(upgrades[i]) ==>
              SetsSoFar(start, upgrades, i + 1, added.value, Tallied(tally, SetFor(upgrades[i])))
  {
    AddThing(start, upgrades, i, ReferencesFor);
    TallySetsOne(upgrades, i);
  }

  /** The loop over the upgradeable gifts; each answer of the server is looked at when it arrives. */
  method CollectSets(collector: Collector, upgrades: seq<Upgrade>) returns (r: Result<SetTally, FetchError>)
    modifies collector
    ensures r.Ok? <==>
            && (forall u | u in upgrades :: Answered(u))
            && AddAll(old(collector.documents), Flatten(upgrades, ReferencesFor)).Ok?
    ensures r.Ok? ==>
      && AddAll(old(collector.documents), Flatten(upgrades, ReferencesFor)) == Ok(collector.documents)
      && r.value == Tally(Sets(upgrades))
  {
    ghost var start := collector.documents;
    var tally := SetTally([], 0, 0, 0, 0);
    for i := 0 to |upgrades|
      invariant SetsSoFar(start, upgrades, i, collector.documents, tally)
    {
      SetsStep(start, upgrades, i, collector.documents, tally);
      var fetched := FetchUpgradeAttributeSet(collector, upgrades[i]);
      if fetched.Err? {
        return Err(fetched.error);
      }
      tally := Tallied(tally, fetched.value);
    }
    assert upgrades[..|upgrades|] == upgrades;
    return Ok(tally);
  }

  function Indices(n: nat): (s: set<int>)
    ensures forall i :: i in s <==> 0 <= i < n
  {
    if n == 0 then {} else Indices(n - 1) + {n - 1}
  }

  /** The worker group.  Any worker may be the next to finish, and what it ends with is whatever happened to
      it: `downloads` records that.  The first failure ends the group, whatever the others would have done. */
  method FillSlots(ids: seq<int>, documents: Documents, maxBytes: int, arrives: int -> Option<Fetched>, calm: bool)
    returns (r: Result<seq<DocumentManifest>, FetchError>, downloads: Downloads)
    requires forall i | 0 <= i < |ids| :: ids[i] in documents
    requires forall i, j | 0 <= i < j < |ids| :: ids[i] != ids[j]
    ensures r.Ok? <==> forall i | 0 <= i < |ids| :: Fetches(documents, downloads, maxBytes, ids[i])
    ensures r.Ok? ==>
      |r.value| == |ids| &&
      forall i | 0 <= i < |ids| :: FetchDocument(documents[ids[i]], downloads[ids[i]], maxBytes) == Some(r.value[i])
    ensures calm ==>
      && (r.Ok? <==> forall i | 0 <= i < |ids| :: FetchDocument(documents[ids[i]], arrives(ids[i]), maxBytes).Some?)
      && forall id | id in downloads :: downloads[id] == arrives(id)
  {
    downloads := map[];
    var slots := new DocumentManifest[|ids|];
    var running := Indices(|ids|);
    while running != {}
      invariant forall i | i in running :: 0 <= i < |ids|
      invariant forall i | 0 <= i < |ids| && i !in running ::
                  ids[i] in downloads && FetchDocument(documents[ids[i]], downloads[ids[i]], maxBytes) == Some(slots[i])
      invariant calm ==> forall id | id in downloads :: downloads[id] == arrives(id)
      decreases |running|
    {
      var index :| index in running;
      var got: Option<Fetched> := *;
      if calm {
        got := arrives(ids[index]);
      }
      downloads := downloads[ids[index] := got];
      var dm := FetchDocument(documents[ids[index]], got, maxBytes);
      if dm.None? {
        assert !Fetches(documents, downloads, maxBytes, ids[index]);
        return Err(DownloadFailed), downloads;
      }
      slots[index] := dm.value;
      running := running - {index};
    }
    return Ok(slots[..]), downloads;
  }

  method FetchAll(documents: Documents, maxBytes: int, arrives: int -> Option<Fetched>, calm: bool)
    returns (r: Result<seq<DocumentManifest>, FetchError>, downloads: Downloads)
    ensures r.Ok? <==> AllFetch(documents, downloads, maxBytes)
    ensures r.Ok? ==> r.value == Listing(documents, downloads, maxBytes)
    ensures calm ==>
      && (r.Ok? <==> AllArrive(documents, arrives, maxBytes))
      && forall id | id in downloads :: downloads[id] == arrives(id)
  {
    var ids := SortedIds(documents.Keys);
    SortedIdsDistinct(documents.Keys);
    r, downloads := FillSlots(ids, documents, maxBytes, arrives, calm);
    assert forall id | id in documents :: id in ids;
    if r.Ok? {
      FilledIsListing(ids, documents, downloads, maxBytes, r.value);
    }
  }

  lemma SortedIdsDistinct(s: set<int>)
    ensures forall i | 0 <= i < |SortedIds(s)| :: SortedIds(s)[i] in s
    ensures forall i, j | 0 <= i < j < |SortedIds(s)| :: SortedIds(s)[i] != SortedIds(s)[j]
  {
    var ids := SortedIds(s);
    assert forall i | 0 <= i < |ids| :: ids[i] in ids;
    assert forall i, j | 0 <= i < j < |ids| :: Below(ids[i], ids[j]);
  }

  lemma FilledIsListing(ids: seq<int>, documents: Documents, downloads: Downloads, maxBytes: int,
                        slots: seq<DocumentManifest>)
    requires ids == SortedIds(documents.Keys) && |slots| == |ids|
    requires forall i | 0 <= i < |ids| ::
               ids[i] in documents && ids[i] in downloads &&
               FetchDocument(documents[ids[i]], downloads[ids[i]], maxBytes) == Some(slots[i])
    ensures AllFetch(documents, downloads, maxBytes) && slots == Listing(documents, downloads, maxBytes)
  {
    forall id | id in documents
      ensures Fetches(documents, downloads, maxBytes, id)
    {
      assert id in ids;
    }
  }

  method AddUp(results: seq<DocumentManifest>) returns (totalBytes: int, missing: int)
    ensures totalBytes == Total(results, BytesOf) && missing == Total(results, MissingOf)
  {
    totalBytes, missing := 0, 0;
    for i := 0 to |results|
      invariant totalBytes == Total(results[..i], BytesOf) && missing == Total(results[..i], MissingOf)
    {
      var dm := results[i];
      assert results[..i + 1] == results[..i] + [dm];
      TotalOne(results[..i], dm, BytesOf);
      TotalOne(results[..i], dm, MissingOf);
      totalBytes := totalBytes + dm.size;
      ghost var before := totalBytes;
      for j := 0 to |dm.thumbs|
        invariant totalBytes == before + Total(dm.thumbs[..j], Itself)
      {
        assert dm.thumbs[..j + 1] == dm.thumbs[..j] + [dm.thumbs[j]];
        TotalOne(dm.thumbs[..j], dm.thumbs[j], Itself);
        totalBytes := totalBytes + dm.thumbs[j];
      }
      assert dm.thumbs[..|dm.thumbs|] == dm.thumbs;
      missing := missing + dm.missing;
    }
    assert results[..|results|] == results;
  }

  method CollectEverything(collector: Collector, inputs: Inputs)
    returns (r: Result<(seq<GiftManifest>, nat, SetTally), FetchError>)
    requires collector.documents == map[]
    modifies collector
    ensures r.Ok? <==> Collectable(inputs)
    ensures r.Ok? ==>
      && collector.documents == Collected(inputs)
      && r.value == (GiftManifests(inputs.gifts), |Upgradeable(inputs.gifts)|,
                     Tally(Sets(Upgrades(inputs.gifts, inputs.answers))))
  {
    var refs := AllReferences(inputs);
    CollectedIff(refs);
    AddAllConcat(map[], Flatten(inputs.gifts, GiftReferences),
                 Flatten(Upgrades(inputs.gifts, inputs.answers), ReferencesFor));
    if |inputs.gifts| > MAX_CATALOG_GIFTS {
      return Err(LimitExceeded);
    }
    var gifts := CollectGifts(collector, inputs.gifts);
    if gifts.Err? {
      return Err(gifts.error);
    }
    var ids := CollectUpgradeableGiftIDs(inputs.gifts);
    var upgrades := seq(|ids|, i requires 0 <= i < |ids| => Upgrade(ids[i], inputs.answers(i)));
    assert upgrades == Upgrades(inputs.gifts, inputs.answers);
    var tally := CollectSets(collector, upgrades);
    if tally.Err? {
      return Err(tally.error);
    }
    // The source compares the number of sets with the number of upgradeable gifts; they cannot differ.
    assert |tally.value.sets| == |ids|;
    assert collector.documents.Keys == IdSet(refs);
    if |collector.documents.Keys| > MAX_DOCUMENTS {
      return Err(LimitExceeded);
    }
    return Ok((gifts.value, |ids|, tally.value));
  }

  /** The fetch succeeds exactly if its inputs and what the workers ended with admit a catalog, and then
      writes the one manifest that these determine, in whatever order the workers finish. */
  method FetchCatalog(inputs: Inputs) returns (r: Result<Manifest, FetchError>, downloads: Downloads)
    ensures r.Ok? <==> Fetchable(inputs, downloads)
    ensures r.Ok? ==> r.value == CatalogOf(inputs, downloads)
    ensures inputs.calm ==>
      && (r.Ok? <==> Collectable(inputs) && AllArrive(Collected(inputs), inputs.arrives, inputs.maxBytes))
      && forall id | id in downloads :: downloads[id] == inputs.arrives(id)
  {
    downloads := map[];
    var collector := new Collector();
    var collected := CollectEverything(collector, inputs);
    if collected.Err? {
      return Err(collected.error), downloads;
    }
    var results;
    results, downloads := FetchAll(collector.documents, inputs.maxBytes, inputs.arrives, inputs.calm);
    if results.Err? {
      return Err(results.error), downloads;
    }
    var totalBytes, missing := AddUp(results.value);
    var gifts, upgradeable, tally := collected.value.0, collected.value.1, collected.value.2;
    return Ok(Manifest(gifts, upgradeable, tally.sets, |tally.sets|, tally.attributes, tally.models,
                       tally.patterns, tally.backdrops, results.value, totalBytes, missing)), downloads;
  }
}
