/** `ScrapedProductSnapshot.from_scrapy_item`: normalise, then hash what was normalised. */
module ScrapedProduct {
  import opened Text
  import opened Wrappers
  import opened ScrapeFingerprints
  import opened CanonicalJson

  /** The item fields the snapshot reads; an absent field is `Null`. */
  datatype ScrapyItem = ScrapyItem(
    source: Value, url: Value, sourceId: Value, externalId: Value, title: Value, name: Value, brand: Value,
    priceRaw: Value, priceStr: Value, description: Value, categoryHint: Value, category: Value,
    rawSpecs: Value, imageUrls: Value, externalIds: Value)

  /** Stored fields; `""` stands for an absent optional text. */
  datatype Snapshot = Snapshot(
    storeName: string, sourceUrl: string, sourceId: string, title: string, brand: string, priceRaw: string,
    inStock: Option<bool>, rawSpecs: seq<Entry>, imageUrls: seq<string>, description: string, categoryHint: string,
    externalIds: seq<Entry>, payloadHash: string)

  /** What `build_scraped_payload_hash` serialises, with keys sorted at every depth of the specs. */
  datatype Blob = Blob(
    storeName: string, sourceUrl: string, sourceId: string, title: string, brand: string, priceRaw: string,
    inStock: Option<bool>, rawSpecs: map<string, Canon>, imageUrls: seq<string>, description: string,
    categoryHint: string,
    externalIds: map<string, Canon>)

  predicate Truthy(v: Value) {
    match v
    case Null => false
    case Bool(b) => b
    case Number(_, isZero) => !isZero
    case Str(s) => s != ""
    case List(items) => items != []
    case Dict(entries) => entries != []
  }

  /** Python's `a or b`. */
  function Or(a: Value, b: Value): Value {
    if Truthy(a) then a else b
  }

  /** The field values handed to `build_scraped_payload_hash`. */
  datatype Payload = Payload(
    storeName: Value, sourceUrl: Value, sourceId: Value, title: Value, brand: Value, priceRaw: Value,
    inStock: Option<bool>, rawSpecs: seq<Entry>, imageUrls: seq<Value>, description: Value, categoryHint: Value,
    externalIds: seq<Entry>)

  /** The blob of the given field values, each normalised on the way in. */
  function PayloadBlob(lib: Library, p: Payload): Blob {
    Blob(
      lib.lower(NormalizeText(lib, p.storeName)),
      lib.canonicalUrl(NormalizeText(lib, p.sourceUrl)),
      NormalizeText(lib, p.sourceId),
      lib.lower(NormalizeText(lib, p.title)),
      lib.lower(NormalizeText(lib, p.brand)),
      NormalizeText(lib, p.priceRaw),
      p.inStock,
      CanonEntries(NormalizeEntries(lib, p.rawSpecs)),
      SortedUrls(lib, p.imageUrls),
      NormalizeText(lib, p.description),
      lib.lower(NormalizeText(lib, p.categoryHint)),
      CanonEntries(ExternalIds(lib, p.externalIds)))
  }

  function SnapshotPayload(s: Snapshot): Payload {
    Payload(Str(s.storeName), Str(s.sourceUrl), Str(s.sourceId), Str(s.title), Str(s.brand), Str(s.priceRaw),
            s.inStock, s.rawSpecs, AsValues(s.imageUrls), Str(s.description), Str(s.categoryHint), s.externalIds)
  }

  /** The blob recomputed from a stored snapshot's own fields. */
  function SnapshotBlob(lib: Library, s: Snapshot): Blob {
    PayloadBlob(lib, SnapshotPayload(s))
  }

  function EntriesOf(v: Value): seq<Entry> {
    if v.Dict? then v.entries else []
  }

  function ItemsOf(v: Value): seq<Value> {
    if v.List? then v.items else []
  }

  /** The ids of the item, with the source id filed under the store's name unless it has one. */
  function WithSourceId(ids: seq<Entry>, storeName: string, sourceId: string): seq<Entry> {
    if sourceId != "" && storeName != "" && Lookup(ids, storeName).None?
    then ids + [Entry(storeName, Str(sourceId))] else ids
  }

  /** The item's own values: the source id filed under the store, all else as scraped. */
  function ItemPayload(lib: Library, item: ScrapyItem, inStock: Option<bool>): Payload {
    var storeName := NormalizeText(lib, item.source);
    var sourceId := NormalizeText(lib, Or(item.sourceId, item.externalId));
    Payload(item.source, item.url, Or(item.sourceId, item.externalId), Or(item.title, item.name), item.brand,
            Or(item.priceRaw, item.priceStr), inStock, EntriesOf(item.rawSpecs), ItemsOf(item.imageUrls),
            item.description, Or(item.categoryHint, item.category),
            WithSourceId(ExternalIds(lib, EntriesOf(item.externalIds)), storeName, sourceId))
  }

  function ItemBlob(lib: Library, item: ScrapyItem, inStock: Option<bool>): Blob {
    PayloadBlob(lib, ItemPayload(lib, item, inStock))
  }

  /** Every text field is the normalised text of its item field, with the second choice when the first is falsy. */
  ghost predicate StoresTexts(lib: Library, item: ScrapyItem, s: Snapshot) {
    && s.storeName == NormalizeText(lib, item.source)
    && s.sourceUrl == NormalizeText(lib, item.url)
    && s.sourceId == NormalizeText(lib, Or(item.sourceId, item.externalId))
    && s.title == NormalizeText(lib, Or(item.title, item.name))
    && s.brand == NormalizeText(lib, item.brand)
    && s.priceRaw == NormalizeText(lib, Or(item.priceRaw, item.priceStr))
    && s.description == NormalizeText(lib, item.description)
    && s.categoryHint == NormalizeText(lib, Or(item.categoryHint, item.category))
  }

  /** The snapshot stores normalised fields, and its hash is that of the blob recomputed from them,
      which is also the blob of the raw item: normalising twice changes nothing anywhere in it. */
  method FromScrapyItem(lib: Library, digest: Blob -> string, item: ScrapyItem, inStock: Option<bool>)
    returns (s: Snapshot)
    ensures s.payloadHash == digest(SnapshotBlob(lib, s))
    ensures SnapshotBlob(lib, s) == ItemBlob(lib, item, inStock)
    ensures NormalEntries(lib, s.rawSpecs) && NormalUrls(lib, s.imageUrls) && NormalIds(s.externalIds)
    ensures s.sourceId != "" && s.storeName != "" ==> Lookup(s.externalIds, s.storeName).Some?
    ensures StoresTexts(lib, item, s)
  {
    var storeName := NormalizeText(lib, item.source);
    var sourceUrl := NormalizeText(lib, item.url);
    var sourceId := NormalizeText(lib, Or(item.sourceId, item.externalId));
    var title := NormalizeText(lib, Or(item.title, item.name));
    var brand := NormalizeText(lib, item.brand);
    var priceRaw := NormalizeText(lib, Or(item.priceRaw, item.priceStr));
    var description := NormalizeText(lib, item.description);
    var categoryHint := NormalizeText(lib, Or(item.categoryHint, item.category));
    var rawSpecs := NormalizeJsonDict(lib, EntriesOf(item.rawSpecs));
    var imageUrls := NormalizeImageUrls(lib, ItemsOf(item.imageUrls));
    var externalIds := NormalizeExternalIds(lib, EntriesOf(item.externalIds));
    ghost var ids := externalIds;
    if sourceId != "" && storeName != "" && Lookup(externalIds, storeName).None? {
      externalIds := Put(externalIds, storeName, Str(sourceId));
    }
    StoredIds(lib, item, ids, externalIds, storeName, sourceId);
    var blob := PayloadBlob(lib, Payload(
      Str(storeName), Str(sourceUrl), Str(sourceId), Str(title), Str(brand), Str(priceRaw), inStock, rawSpecs,
      AsValues(imageUrls), Str(description), Str(categoryHint), externalIds));
    s := Snapshot(storeName, sourceUrl, sourceId, title, brand, priceRaw, inStock, rawSpecs, imageUrls, description,
                  categoryHint, externalIds, digest(blob));
    TextFieldsStable(lib, item);
    NormalizeIsIdempotent(lib, EntriesOf(item.rawSpecs));
    NormalizeEntriesIsNormal(lib, EntriesOf(item.rawSpecs));
    ImageUrlsIdempotent(lib, ItemsOf(item.imageUrls));
    ImageUrlsAreNormal(lib, ItemsOf(item.imageUrls));
  }

  lemma TextFieldsStable(lib: Library, item: ScrapyItem)
    ensures forall v :: NormalizeText(lib, Str(NormalizeText(lib, v))) == NormalizeText(lib, v)
  {
    forall v ensures NormalizeText(lib, Str(NormalizeText(lib, v))) == NormalizeText(lib, v) {
      NormalizeTextIsClean(lib, v);
    }
  }

  lemma {:induction false} LookupNoneMeansAbsent(ids: seq<Entry>, k: string)
    ensures Lookup(ids, k).None? <==> forall i :: 0 <= i < |ids| ==> ids[i].key != k
  {
    if ids != [] {
      LookupNoneMeansAbsent(ids[1..], k);
      if ids[0].key != k && Lookup(ids[1..], k).Some? {
        var i :| 0 <= i < |ids[1..]| && ids[1..][i].key == k;
        assert ids[i + 1].key == k;
      }
    }
  }

  lemma StoredIds(lib: Library, item: ScrapyItem, ids: seq<Entry>, stored: seq<Entry>, storeName: string,
                  sourceId: string)
    requires ids == ExternalIds(lib, EntriesOf(item.externalIds))
    requires storeName == NormalizeText(lib, item.source)
             && sourceId == NormalizeText(lib, Or(item.sourceId, item.externalId))
    requires stored == if sourceId != "" && storeName != "" && Lookup(ids, storeName).None? then
               Put(ids, storeName, Str(sourceId)) else ids
    ensures stored == WithSourceId(ids, storeName, sourceId)
    ensures NormalIds(stored) && ExternalIds(lib, stored) == stored
    ensures sourceId != "" && storeName != "" ==> Lookup(stored, storeName).Some?
  {
    ExternalIdsAreNormal(lib, EntriesOf(item.externalIds));
    NormalizeTextIsClean(lib, item.source);
    NormalizeTextIsClean(lib, Or(item.sourceId, item.externalId));
    if sourceId != "" && storeName != "" && Lookup(ids, storeName).None? {
      NewIdStaysNormal(ids, storeName, sourceId);
    }
    NormalIdsAreFixed(lib, stored);
  }

  lemma NewIdStaysNormal(ids: seq<Entry>, storeName: string, sourceId: string)
    requires NormalIds(ids) && Lookup(ids, storeName).None? && Clean(storeName) && Clean(sourceId)
    ensures Put(ids, storeName, Str(sourceId)) == ids + [Entry(storeName, Str(sourceId))]
    ensures NormalIds(Put(ids, storeName, Str(sourceId))) && Lookup(Put(ids, storeName, Str(sourceId)), storeName).Some?
  {
    LookupNoneMeansAbsent(ids, storeName);
    PutNew(ids, storeName, Str(sourceId));
    PutLookup(ids, storeName, Str(sourceId), storeName);
  }

  /** The hash does not see the order or repetition of images up to the limit. */
  lemma HashIgnoresImageOrder(lib: Library, item: ScrapyItem, images: seq<Value>, inStock: Option<bool>)
    requires item.imageUrls.List? && SameUrls(lib, item.imageUrls.items, images)
    requires |DistinctUrls(lib, item.imageUrls.items)| <= MAX_IMAGE_URLS
    ensures ItemBlob(lib, item, inStock) == ItemBlob(lib, item.(imageUrls := List(images)), inStock)
  {
    SameUrlsSameCount(lib, item.imageUrls.items, images);
    SortedUrlsDependOnSet(lib, item.imageUrls.items, images);
  }

  /** It does see them beyond the limit. */
  lemma BlobSeesOrderAboveLimit(lib: Library, item: ScrapyItem, urls: seq<string>, u: string, inStock: Option<bool>)
    requires NormalUrls(lib, urls + [u]) && |urls| >= MAX_IMAGE_URLS
    ensures ItemBlob(lib, item.(imageUrls := List(AsValues(urls + [u]))), inStock) !=
            ItemBlob(lib, item.(imageUrls := List(AsValues([u] + urls))), inStock)
  {
    OrderMattersAboveLimit(lib, urls, u);
  }

  /** Nor the order of raw specs, at any depth, unless two keys normalise to the same text. */
  lemma HashIgnoresSpecOrder(lib: Library, item: ScrapyItem, specs: seq<Entry>, inStock: Option<bool>)
    requires item.rawSpecs.Dict? && Rearranged(item.rawSpecs.entries, specs)
    ensures ItemBlob(lib, item, inStock) == ItemBlob(lib, item.(rawSpecs := Dict(specs)), inStock)
  {
    RearrangedAlike(lib, item.rawSpecs.entries, specs);
  }

  // ----- what the blob sees

  /** The values Python's `or` passes over. */
  lemma FalsyValues(v: Value)
    ensures !Truthy(v) <==> v in {Null, Bool(false), Str(""), List([]), Dict([])} || (v.Number? && v.isZero)
    ensures forall w :: Or(v, w) == if Truthy(v) then v else w
  {
  }

  /** The same texts, as far as the hash looks at letter case and at the URL. */
  ghost predicate SameTexts(lib: Library, p: Payload, q: Payload) {
    && lib.lower(NormalizeText(lib, p.storeName)) == lib.lower(NormalizeText(lib, q.storeName))
    && lib.lower(NormalizeText(lib, p.title)) == lib.lower(NormalizeText(lib, q.title))
    && lib.lower(NormalizeText(lib, p.brand)) == lib.lower(NormalizeText(lib, q.brand))
    && lib.lower(NormalizeText(lib, p.categoryHint)) == lib.lower(NormalizeText(lib, q.categoryHint))
    && lib.canonicalUrl(NormalizeText(lib, p.sourceUrl)) == lib.canonicalUrl(NormalizeText(lib, q.sourceUrl))
    && NormalizeText(lib, p.sourceId) == NormalizeText(lib, q.sourceId)
    && NormalizeText(lib, p.priceRaw) == NormalizeText(lib, q.priceRaw)
    && NormalizeText(lib, p.description) == NormalizeText(lib, q.description)
  }

  ghost predicate SameIds(lib: Library, a: seq<Entry>, b: seq<Entry>) {
    forall k :: LastId(lib, a, k) == LastId(lib, b, k)
  }

  /** The same texts and stock; key by key the same specs and ids survive; the same images are kept. */
  ghost predicate SameContent(lib: Library, p: Payload, q: Payload) {
    && SameTexts(lib, p, q) && p.inStock == q.inStock
    && SameSurvivors(lib, p.rawSpecs, q.rawSpecs)
    && SameKept(lib, p.imageUrls, q.imageUrls)
    && SameIds(lib, p.externalIds, q.externalIds)
  }

  lemma IdsAlike(lib: Library, a: seq<Entry>, b: seq<Entry>)
    ensures CanonEntries(ExternalIds(lib, a)) == CanonEntries(ExternalIds(lib, b)) <==> SameIds(lib, a, b)
  {
    CanonByLookup(ExternalIds(lib, a), ExternalIds(lib, b));
    forall k
      ensures LastId(lib, a, k) == LastId(lib, b, k) <==>
                SameCanon(Lookup(ExternalIds(lib, a), k), Lookup(ExternalIds(lib, b), k))
    {
      LastIdWins(lib, a, k);
      LastIdWins(lib, b, k);
    }
  }

  /** Two payloads have one blob exactly when they have the same content. */
  lemma BlobsAgreeExactly(lib: Library, p: Payload, q: Payload)
    ensures PayloadBlob(lib, p) == PayloadBlob(lib, q) <==> SameContent(lib, p, q)
  {
    SerialisedAlike(lib, p.rawSpecs, q.rawSpecs);
    SortedUrlsExactly(lib, p.imageUrls, q.imageUrls);
    IdsAlike(lib, p.externalIds, q.externalIds);
  }

  /** The id an item ends up with under the name `k`: its own last one, else the source id under the store. */
  function ItemId(lib: Library, item: ScrapyItem, k: string): Option<string> {
    FiledId(lib, item, EntriesOf(item.externalIds), k)
  }

  function FiledId(lib: Library, item: ScrapyItem, ids: seq<Entry>, k: string): Option<string> {
    var own := LastId(lib, ids, k);
    var sourceId := NormalizeText(lib, Or(item.sourceId, item.externalId));
    if own.None? && k != "" && k == NormalizeText(lib, item.source) && sourceId != "" then Some(sourceId) else own
  }

  lemma ItemIds(lib: Library, item: ScrapyItem, inStock: Option<bool>, k: string)
    ensures LastId(lib, ItemPayload(lib, item, inStock).externalIds, k) == ItemId(lib, item, k)
  {
    var storeName := NormalizeText(lib, item.source);
    var sourceId := NormalizeText(lib, Or(item.sourceId, item.externalId));
    var ids := ExternalIds(lib, EntriesOf(item.externalIds));
    var stored := if sourceId != "" && storeName != "" && Lookup(ids, storeName).None?
      then Put(ids, storeName, Str(sourceId)) else ids;
    StoredIds(lib, item, ids, stored, storeName, sourceId);
    LastIdWins(lib, stored, k);
    LastIdWins(lib, EntriesOf(item.externalIds), k);
    LastIdWins(lib, EntriesOf(item.externalIds), storeName);
    PutLookup(ids, storeName, Str(sourceId), k);
  }

  /** Two items have one blob, so one payload hash, exactly when texts, stock, surviving specs, kept images and ids
      agree. */
  lemma ItemsHashAlikeExactly(lib: Library, a: ScrapyItem, b: ScrapyItem, stockA: Option<bool>, stockB: Option<bool>)
    ensures ItemBlob(lib, a, stockA) == ItemBlob(lib, b, stockB) <==>
              && SameTexts(lib, ItemPayload(lib, a, stockA), ItemPayload(lib, b, stockB)) && stockA == stockB
              && SameSurvivors(lib, EntriesOf(a.rawSpecs), EntriesOf(b.rawSpecs))
              && SameKept(lib, ItemsOf(a.imageUrls), ItemsOf(b.imageUrls))
              && forall k :: ItemId(lib, a, k) == ItemId(lib, b, k)
  {
    var p, q := ItemPayload(lib, a, stockA), ItemPayload(lib, b, stockB);
    BlobsAgreeExactly(lib, p, q);
    forall k
      ensures LastId(lib, p.externalIds, k) == ItemId(lib, a, k) && LastId(lib, q.externalIds, k) == ItemId(lib, b, k)
    {
      ItemIds(lib, a, stockA, k);
      ItemIds(lib, b, stockB, k);
    }
  }

  /** The text differs from what the item's field and its second choice give. */
  predicate NewText(lib: Library, v: Value, second: Value, first: Value) {
    NormalizeText(lib, Or(v, second)) != NormalizeText(lib, Or(first, second))
  }

  /** So changing one field changes the blob, and with it the hash of any injective digest. */
  lemma ChangedFieldChangesBlob(lib: Library, item: ScrapyItem, v: Value, inStock: Option<bool>, stock: Option<bool>)
    ensures stock != inStock ==> ItemBlob(lib, item, stock) != ItemBlob(lib, item, inStock)
    ensures NewText(lib, v, item.priceStr, item.priceRaw) ==>
              ItemBlob(lib, item.(priceRaw := v), inStock) != ItemBlob(lib, item, inStock)
    ensures NewText(lib, v, item.externalId, item.sourceId) ==>
              ItemBlob(lib, item.(sourceId := v), inStock) != ItemBlob(lib, item, inStock)
    ensures NewText(lib, v, v, item.description) ==>
              ItemBlob(lib, item.(description := v), inStock) != ItemBlob(lib, item, inStock)
    ensures lib.lower(NormalizeText(lib, Or(v, item.name))) != lib.lower(NormalizeText(lib, Or(item.title, item.name)))
            ==> ItemBlob(lib, item.(title := v), inStock) != ItemBlob(lib, item, inStock)
    ensures lib.lower(NormalizeText(lib, v)) != lib.lower(NormalizeText(lib, item.brand)) ==>
              ItemBlob(lib, item.(brand := v), inStock) != ItemBlob(lib, item, inStock)
    ensures lib.lower(NormalizeText(lib, v)) != lib.lower(NormalizeText(lib, item.source)) ==>
              ItemBlob(lib, item.(source := v), inStock) != ItemBlob(lib, item, inStock)
    ensures lib.canonicalUrl(NormalizeText(lib, v)) != lib.canonicalUrl(NormalizeText(lib, item.url)) ==>
              ItemBlob(lib, item.(url := v), inStock) != ItemBlob(lib, item, inStock)
    ensures lib.lower(NormalizeText(lib, Or(v, item.category))) !=
            lib.lower(NormalizeText(lib, Or(item.categoryHint, item.category))) ==>
              ItemBlob(lib, item.(categoryHint := v), inStock) != ItemBlob(lib, item, inStock)
  {
    ItemsHashAlikeExactly(lib, item, item, stock, inStock);
    ItemsHashAlikeExactly(lib, item.(priceRaw := v), item, inStock, inStock);
    ItemsHashAlikeExactly(lib, item.(sourceId := v), item, inStock, inStock);
    ItemsHashAlikeExactly(lib, item.(description := v), item, inStock, inStock);
    ItemsHashAlikeExactly(lib, item.(title := v), item, inStock, inStock);
    ItemsHashAlikeExactly(lib, item.(brand := v), item, inStock, inStock);
    ItemsHashAlikeExactly(lib, item.(source := v), item, inStock, inStock);
    ItemsHashAlikeExactly(lib, item.(url := v), item, inStock, inStock);
    ItemsHashAlikeExactly(lib, item.(categoryHint := v), item, inStock, inStock);
  }

  lemma DiffersInSpecs(lib: Library, p: Payload, a: seq<Entry>, b: seq<Entry>)
    ensures SameContent(lib, p.(rawSpecs := a), p.(rawSpecs := b)) <==> SameSurvivors(lib, a, b)
  {
  }

  /** Specs are not passed over: items that differ in them alone have one blob exactly when the same ones survive;
      anything but a dict counts as none. */
  lemma ChangedSpecsChangeBlob(lib: Library, item: ScrapyItem, a: seq<Entry>, b: seq<Entry>, v: Value,
                               inStock: Option<bool>)
    ensures SameSurvivors(lib, a, b) <==>
              ItemBlob(lib, item.(rawSpecs := Dict(a)), inStock) == ItemBlob(lib, item.(rawSpecs := Dict(b)), inStock)
    ensures !v.Dict? ==>
              ItemBlob(lib, item.(rawSpecs := v), inStock) == ItemBlob(lib, item.(rawSpecs := Dict([])), inStock)
  {
    var p := ItemPayload(lib, item, inStock);
    assert ItemPayload(lib, item.(rawSpecs := Dict(a)), inStock) == p.(rawSpecs := a);
    assert ItemPayload(lib, item.(rawSpecs := Dict(b)), inStock) == p.(rawSpecs := b);
    DiffersInSpecs(lib, p, a, b);
    BlobsAgreeExactly(lib, p.(rawSpecs := a), p.(rawSpecs := b));
  }

  lemma DiffersInImages(lib: Library, p: Payload, a: seq<Value>, b: seq<Value>)
    ensures SameContent(lib, p.(imageUrls := a), p.(imageUrls := b)) <==> SameKept(lib, a, b)
  {
    SerialisedAlike(lib, p.rawSpecs, p.rawSpecs);
  }

  /** Nor are images, of which the kept ones count. */
  lemma ChangedImagesChangeBlob(lib: Library, item: ScrapyItem, a: seq<Value>, b: seq<Value>, v: Value,
                                inStock: Option<bool>)
    ensures SameKept(lib, a, b) <==>
              ItemBlob(lib, item.(imageUrls := List(a)), inStock) ==
              ItemBlob(lib, item.(imageUrls := List(b)), inStock)
    ensures !v.List? ==>
              ItemBlob(lib, item.(imageUrls := v), inStock) == ItemBlob(lib, item.(imageUrls := List([])), inStock)
  {
    var p := ItemPayload(lib, item, inStock);
    assert ItemPayload(lib, item.(imageUrls := List(a)), inStock) == p.(imageUrls := a);
    assert ItemPayload(lib, item.(imageUrls := List(b)), inStock) == p.(imageUrls := b);
    DiffersInImages(lib, p, a, b);
    BlobsAgreeExactly(lib, p.(imageUrls := a), p.(imageUrls := b));
  }

  lemma DiffersInIds(lib: Library, p: Payload, a: seq<Entry>, b: seq<Entry>)
    ensures SameContent(lib, p.(externalIds := a), p.(externalIds := b)) <==> SameIds(lib, a, b)
  {
    SerialisedAlike(lib, p.rawSpecs, p.rawSpecs);
  }

  /** Nor are ids, the source id filed under the store included. */
  lemma ChangedIdsChangeBlob(lib: Library, item: ScrapyItem, a: seq<Entry>, b: seq<Entry>, v: Value,
                             inStock: Option<bool>)
    ensures (forall k :: FiledId(lib, item, a, k) == FiledId(lib, item, b, k)) <==>
              ItemBlob(lib, item.(externalIds := Dict(a)), inStock) ==
              ItemBlob(lib, item.(externalIds := Dict(b)), inStock)
    ensures !v.Dict? ==>
              ItemBlob(lib, item.(externalIds := v), inStock) == ItemBlob(lib, item.(externalIds := Dict([])), inStock)
  {
    var p := ItemPayload(lib, item, inStock);
    var withA, withB := item.(externalIds := Dict(a)), item.(externalIds := Dict(b));
    var ia, ib := ItemPayload(lib, withA, inStock).externalIds, ItemPayload(lib, withB, inStock).externalIds;
    assert ItemPayload(lib, withA, inStock) == p.(externalIds := ia);
    assert ItemPayload(lib, withB, inStock) == p.(externalIds := ib);
    forall k ensures LastId(lib, ia, k) == FiledId(lib, item, a, k) && LastId(lib, ib, k) == FiledId(lib, item, b, k) {
      ItemIds(lib, withA, inStock, k);
      ItemIds(lib, withB, inStock, k);
    }
    DiffersInIds(lib, p, ia, ib);
    BlobsAgreeExactly(lib, p.(externalIds := ia), p.(externalIds := ib));
  }
}
