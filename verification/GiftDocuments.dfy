/**
 The documents that a gift catalog refers to: collected once per id, however often and from wherever
 they are referenced.
 */
module GiftDocuments {
  import opened Wrappers

  datatype Document = Document(id: int, size: int, mimeType: string, renderable: bool)

  datatype DocumentClass = Doc(document: Document) | NoDocument

  /** Why a document is wanted; the source formats each of these as a distinct string. */
  datatype Purpose =
    | Sticker(gift: int)
    | UniqueModel(gift: int, name: string)
    | UniquePattern(gift: int, name: string)
    | UpgradeModel(gift: int, name: string)
    | UpgradePattern(gift: int, name: string)

  datatype Reference = Reference(target: DocumentClass, purpose: Purpose)

  datatype Source = Source(document: Document, purposes: set<Purpose>)

  type Documents = map<int, Source>

  datatype FetchError =
    | InvalidDocument | NotRenderable | Conflict
    | UnknownConstructor | UnknownRarityClass | Incomplete | NoAnswer | LimitExceeded | DownloadFailed

  function IdOf(r: Reference): int {
    if r.target.Doc? then r.target.document.id else 0
  }

  predicate Sound(r: Reference) {
    IdOf(r) != 0 && r.target.document.renderable
  }

  predicate SameFile(a: Document, b: Document) {
    a.size == b.size && a.mimeType == b.mimeType
  }

  /** The collection with one more reference in it. The first document seen under an id stays. */
  function Add(documents: Documents, r: Reference): Result<Documents, FetchError> {
    if IdOf(r) == 0 then Err(InvalidDocument)
    else if !r.target.document.renderable then Err(NotRenderable)
    else
      var doc := r.target.document;
      if doc.id !in documents then Ok(documents[doc.id := Source(doc, {r.purpose})])
      else if !SameFile(documents[doc.id].document, doc) then Err(Conflict)
      else Ok(documents[doc.id := documents[doc.id].(purposes := documents[doc.id].purposes + {r.purpose})])
  }

  function AddAll(documents: Documents, refs: seq<Reference>): Result<Documents, FetchError>
    decreases |refs|
  {
    if refs == [] then Ok(documents)
    else
      var before := AddAll(documents, refs[..|refs| - 1]);
      if before.Err? then before else Add(before.value, refs[|refs| - 1])
  }

  lemma AddAllOne(documents: Documents, refs: seq<Reference>, r: Reference)
    ensures AddAll(documents, refs + [r]) ==
            if AddAll(documents, refs).Err? then AddAll(documents, refs) else Add(AddAll(documents, refs).value, r)
  {
    assert (refs + [r])[..|refs|] == refs;
  }

  lemma {:induction false} AddAllConcat(documents: Documents, a: seq<Reference>, b: seq<Reference>)
    ensures AddAll(documents, a + b) ==
            if AddAll(documents, a).Err? then AddAll(documents, a) else AddAll(AddAll(documents, a).value, b)
    decreases |b|
  {
    if b == [] {
      assert a + b == a;
    } else {
      var c := b[..|b| - 1];
      AddAllConcat(documents, a, c);
      assert a + b == (a + c) + [b[|b| - 1]];
      AddAllOne(documents, a + c, b[|b| - 1]);
    }
  }

  // ----- what the collection holds, said without the order in which it was built

  predicate Consistent(refs: seq<Reference>) {
    && (forall i | 0 <= i < |refs| :: Sound(refs[i]))
    && forall i, j | 0 <= i < j < |refs| && IdOf(refs[i]) == IdOf(refs[j]) ::
         SameFile(refs[i].target.document, refs[j].target.document)
  }

  function IdSet(refs: seq<Reference>): set<int> {
    set i | 0 <= i < |refs| :: IdOf(refs[i])
  }

  function PurposesOf(refs: seq<Reference>, id: int): set<Purpose> {
    set i | 0 <= i < |refs| && IdOf(refs[i]) == id :: refs[i].purpose
  }

  /** The document of the first reference to an id. */
  predicate IsFirst(refs: seq<Reference>, id: int, doc: Document) {
    exists i | 0 <= i < |refs| ::
      IdOf(refs[i]) == id && refs[i].target == Doc(doc) && forall j | 0 <= j < i :: IdOf(refs[j]) != id
  }

  /** Every referenced id once, with every purpose it is referenced for. */
  predicate Describes(documents: Documents, refs: seq<Reference>) {
    && documents.Keys == IdSet(refs)
    && forall id | id in documents ::
         documents[id].purposes == PurposesOf(refs, id) && IsFirst(refs, id, documents[id].document)
  }

  /** Collecting succeeds exactly when every reference is sound and references to one id agree on its size
      and type, and the result then depends only on which references there are. */
  lemma {:induction false} CollectedIff(refs: seq<Reference>)
    ensures AddAll(map[], refs).Ok? <==> Consistent(refs)
    ensures AddAll(map[], refs).Ok? ==> Describes(AddAll(map[], refs).value, refs)
    decreases |refs|
  {
    if refs != [] {
      var before, r := refs[..|refs| - 1], refs[|refs| - 1];
      CollectedIff(before);
      assert refs == before + [r];
      if AddAll(map[], before).Ok? {
        var documents := AddAll(map[], before).value;
        DescribesOne(documents, before, r);
      } else {
        InconsistentPrefix(before, r);
      }
    }
  }

  lemma InconsistentPrefix(refs: seq<Reference>, r: Reference)
    requires !Consistent(refs)
    ensures !Consistent(refs + [r])
  {
    var longer := refs + [r];
    if i :| 0 <= i < |refs| && !Sound(refs[i]) {
      assert !Sound(longer[i]);
    } else {
      var i, j :| 0 <= i < j < |refs| && IdOf(refs[i]) == IdOf(refs[j]) &&
                  !SameFile(refs[i].target.document, refs[j].target.document);
      assert longer[i] == refs[i] && longer[j] == refs[j];
    }
  }

  lemma ConsistentOne(refs: seq<Reference>, r: Reference)
    requires Consistent(refs)
    ensures Consistent(refs + [r]) <==> Sound(r) && Agrees(refs, r)
  {
    var longer := refs + [r];
    assert longer[|refs|] == r && forall i | 0 <= i < |refs| :: longer[i] == refs[i];
    if Sound(r) && Agrees(refs, r) {
      forall i, j | 0 <= i < j < |longer| && IdOf(longer[i]) == IdOf(longer[j])
        ensures SameFile(longer[i].target.document, longer[j].target.document)
      {
        assert Sound(longer[i]) && Sound(longer[j]);
      }
    }
  }

  /** r has the size and type of every earlier reference to its document. */
  predicate Agrees(refs: seq<Reference>, r: Reference)
    requires forall i | 0 <= i < |refs| :: Sound(refs[i])
  {
    Sound(r) ==>
      forall i | 0 <= i < |refs| && IdOf(refs[i]) == IdOf(r) :: SameFile(refs[i].target.document, r.target.document)
  }

  /** It is enough to compare with the first reference to the document. */
  lemma AgreesIff(documents: Documents, refs: seq<Reference>, r: Reference)
    requires Consistent(refs) && Describes(documents, refs) && Sound(r)
    ensures Agrees(refs, r) <==> (IdOf(r) in documents ==> SameFile(documents[IdOf(r)].document, r.target.document))
  {
    var id := IdOf(r);
    assert forall i | 0 <= i < |refs| :: IdOf(refs[i]) in IdSet(refs);
    if id in documents {
      assert IsFirst(refs, id, documents[id].document);
      var first :| 0 <= first < |refs| && IdOf(refs[first]) == id && refs[first].target == Doc(documents[id].document)
        && forall j | 0 <= j < first :: IdOf(refs[j]) != id;
      forall i | 0 <= i < |refs| && IdOf(refs[i]) == id
        ensures SameFile(documents[id].document, refs[i].target.document)
      {
        assert Sound(refs[i]);
        assert i == first || first < i;
      }
    }
  }

  lemma DescribesOne(documents: Documents, refs: seq<Reference>, r: Reference)
    requires Consistent(refs) && Describes(documents, refs)
    ensures Add(documents, r).Ok? <==> Consistent(refs + [r])
    ensures Add(documents, r).Ok? ==> Describes(Add(documents, r).value, refs + [r])
  {
    ConsistentOne(refs, r);
    if Sound(r) {
      AgreesIff(documents, refs, r);
    }
    if Add(documents, r).Ok? {
      DescribesAdded(documents, refs, r);
    }
  }

  lemma DescribesAdded(documents: Documents, refs: seq<Reference>, r: Reference)
    requires Describes(documents, refs) && Add(documents, r).Ok?
    ensures Describes(Add(documents, r).value, refs + [r])
  {
    ReferencesOne(refs, r);
    FirstOne(documents, refs, r);
  }

  lemma ReferencesOne(refs: seq<Reference>, r: Reference)
    ensures IdSet(refs + [r]) == IdSet(refs) + {IdOf(r)}
    ensures PurposesOf(refs + [r], IdOf(r)) == PurposesOf(refs, IdOf(r)) + {r.purpose}
    ensures forall id | id != IdOf(r) :: PurposesOf(refs + [r], id) == PurposesOf(refs, id)
    ensures IdOf(r) !in IdSet(refs) ==> PurposesOf(refs, IdOf(r)) == {}
  {
    var longer := refs + [r];
    assert longer[|refs|] == r && forall i | 0 <= i < |refs| :: longer[i] == refs[i];
    assert forall i | 0 <= i < |refs| :: IdOf(refs[i]) in IdSet(refs);
  }

  lemma FirstOne(documents: Documents, refs: seq<Reference>, r: Reference)
    requires Describes(documents, refs) && r.target.Doc?
    ensures forall id | id in documents :: IsFirst(refs + [r], id, documents[id].document)
    ensures IdOf(r) !in documents ==> IsFirst(refs + [r], IdOf(r), r.target.document)
  {
    var longer := refs + [r];
    assert longer[|refs|] == r && forall i | 0 <= i < |refs| :: longer[i] == refs[i];
    forall id | id in documents
      ensures IsFirst(longer, id, documents[id].document)
    {
      var i :| 0 <= i < |refs| && IdOf(refs[i]) == id && refs[i].target == Doc(documents[id].document)
        && forall j | 0 <= j < i :: IdOf(refs[j]) != id;
      assert longer[i] == refs[i];
    }
    if IdOf(r) !in documents {
      assert forall i | 0 <= i < |refs| :: IdOf(refs[i]) in IdSet(refs);
    }
  }
}
