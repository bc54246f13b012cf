/** Document indexing: the chunking indexer that stores one point per chunk with
    parent-child metadata, and the earlier single-point indexer it extends. The
    vector store is a map from point id to point; the embedding service, the clock
    and the hash function are parameters. */
module DocumentIndexing {
  import opened Wrappers
  import opened Strings
  import opened Guids
  import opened Payload
  import opened TextChunking
  import opened Filters

  /** `DocumentUpsertRequest`; null tag and property dictionaries are empty ones. */
  datatype DocumentUpsertRequest = DocumentUpsertRequest(id: Option<string>, text: string, tags: Dict, properties: Dict)

  /** A stored point: its id, its vector and its payload. */
  datatype Point<V> = Point(id: string, vector: V, payload: PayloadMap)

  /** The collection: upserting a point replaces any point with the same id. */
  type Store<V> = map<string, Point<V>>

  /** `DocumentUpsertResponse`; the single-point indexer leaves the chunk id list null. */
  datatype DocumentUpsertResponse = DocumentUpsertResponse(pointId: string, totalChunks: int, chunkPointIds: Option<seq<string>>)

  /** Why indexing stopped: the chunker rejected blank text, the embedding service
      failed, the vector store failed the upsert, or the chunker returned no chunk
      (so `chunkPointIds[0]` fails after the upsert). */
  datatype IndexError = TextRequired | NoChunks | EmbeddingFailed(message: string) | UpsertFailed(message: string)

  /** The services the indexer calls: the hash behind deterministic ids, the
      embedding of a text, the clock, read as the `k`-th reading, and the vector
      store's upsert, which answers the failure it throws for a list of points, or
      `None` when it writes them. */
  datatype Services<!V> = Services(hashing: Hashing, embed: string -> Result<V, string>, clock: nat -> int,
                                  upsert: seq<Point<V>> -> Option<string>)

  /** The response and the collection after the call. */
  datatype Outcome<V> = Outcome(response: Result<DocumentUpsertResponse, IndexError>, store: Store<V>)

  // ---------------------------------------------------------------- upsert

  /** `UpsertAsync`: the points are written in order. */
  function Upsert<V>(store: Store<V>, points: seq<Point<V>>): Store<V>
    decreases |points|
  {
    if |points| == 0 then store else Upsert(store[points[0].id := points[0]], points[1..])
  }

  predicate DistinctIds<V>(points: seq<Point<V>>) {
    forall i, j :: 0 <= i < j < |points| ==> points[i].id != points[j].id
  }

  /** Upserting overrides the collection with the map the points alone build. */
  lemma {:induction false} UpsertOverrides<V>(store: Store<V>, points: seq<Point<V>>)
    ensures Upsert(store, points) == store + Upsert(map[], points)
    decreases |points|
  {
    if |points| > 0 {
      var p := points[0];
      UpsertOverrides(store[p.id := p], points[1..]);
      UpsertOverrides(map[p.id := p], points[1..]);
      assert Upsert(map[], points) == Upsert(map[p.id := p], points[1..]);
      assert store[p.id := p] == store + map[p.id := p];
    }
  }

  /** Upserting the same points twice leaves the collection as upserting them once. */
  lemma UpsertIdempotent<V>(store: Store<V>, points: seq<Point<V>>)
    ensures Upsert(Upsert(store, points), points) == Upsert(store, points)
  {
    UpsertOverrides(store, points);
    UpsertOverrides(Upsert(store, points), points);
  }

  /** A point whose id no upserted point carries is left as it was. */
  lemma {:induction false} UpsertKeeps<V>(store: Store<V>, points: seq<Point<V>>, id: string)
    requires forall k :: 0 <= k < |points| ==> points[k].id != id
    ensures (id in Upsert(store, points)) == (id in store)
    ensures id in store ==> Upsert(store, points)[id] == store[id]
    decreases |points|
  {
    if |points| > 0 {
      UpsertKeeps(store[points[0].id := points[0]], points[1..], id);
    }
  }

  /** With distinct ids, every upserted point is stored under its id. */
  lemma {:induction false} UpsertStores<V>(store: Store<V>, points: seq<Point<V>>, k: int)
    requires DistinctIds(points) && 0 <= k < |points|
    ensures points[k].id in Upsert(store, points) && Upsert(store, points)[points[k].id] == points[k]
    decreases |points|
  {
    var rest := points[1..];
    var s' := store[points[0].id := points[0]];
    if k == 0 {
      UpsertKeeps(s', rest, points[0].id);
    } else {
      assert DistinctIds(rest) by {
        forall i, j | 0 <= i < j < |rest| ensures rest[i].id != rest[j].id {
          assert rest[i] == points[i + 1] && rest[j] == points[j + 1];
        }
      }
      UpsertStores(s', rest, k - 1);
    }
  }

  // ---------------------------------------------------------------- ids

  /** The id source: the caller's id when it is not blank, else the text. */
  function IdSource(req: DocumentUpsertRequest): string {
    if !IsNullOrWhiteSpace(req.id) then req.id.value else req.text
  }

  /** The document's deterministic source id. */
  function SourceId(req: DocumentUpsertRequest, h: Hashing): string {
    DeterministicId(IdSource(req), h)
  }

  /** The text hashed for chunk `i`: `{sourceId}_chunk_{i}`. */
  function ChunkIdInput(sourceId: string, i: nat): string {
    sourceId + "_chunk_" + NatToString(i)
  }

  /** The point id of chunk `i` of `count`: the source id for a single chunk, else
      the deterministic id of the chunk's id input. */
  function ChunkPointId(sourceId: string, i: nat, count: nat, h: Hashing): string {
    if count == 1 then sourceId else DeterministicId(ChunkIdInput(sourceId, i), h)
  }

  /** Different chunk numbers give different id inputs. */
  lemma ChunkIdInputsDistinct(sourceId: string, i: nat, j: nat)
    requires i != j
    ensures ChunkIdInput(sourceId, i) != ChunkIdInput(sourceId, j)
  {
    var prefix := sourceId + "_chunk_";
    assert ChunkIdInput(sourceId, i) == prefix + NatToString(i);
    assert ChunkIdInput(sourceId, j) == prefix + NatToString(j);
    PrefixInjective(prefix, NatToString(i), NatToString(j));
    if NatToString(i) == NatToString(j) {
      NatToStringInjective(i, j);
    }
  }

  /** The hash tells the id inputs of the first `count` chunks apart. */
  predicate SeparatesChunks(h: Hashing, sourceId: string, count: nat) {
    forall i, j :: 0 <= i < j < count ==>
      !AgreeOutsideMasks(h.sha256(h.utf8(ChunkIdInput(sourceId, i)))[..16], h.sha256(h.utf8(ChunkIdInput(sourceId, j)))[..16])
  }

  /** When the hash tells the chunks' id inputs apart, the chunk point ids are
      pairwise distinct. */
  lemma ChunkPointIdsDistinct(sourceId: string, count: nat, h: Hashing, i: nat, j: nat)
    requires SeparatesChunks(h, sourceId, count)
    requires i < j < count
    ensures ChunkPointId(sourceId, i, count, h) != ChunkPointId(sourceId, j, count, h)
  {
    DistinctDigestsDistinctIds(ChunkIdInput(sourceId, i), ChunkIdInput(sourceId, j), h);
  }

  // ---------------------------------------------------------------- payload

  /** The payload of chunk `i` of `count`: its text and indexing time, the parent
      metadata when there is more than one chunk (index and count as strings), then
      the tags and the properties under their prefixes. */
  function ChunkPayload(chunkText: string, i: nat, count: nat, sourceId: string, indexedAt: int,
                        req: DocumentUpsertRequest, p: Prefixes): PayloadMap
  {
    var base := map[TextKey := Str(chunkText), IndexedAtMs := Int(indexedAt)];
    var withMeta := if count > 1
      then base[SourceDocId := Str(sourceId)][ChunkIndex := Str(NatToString(i))][TotalChunks := Str(NatToString(count))]
      else base;
    WriteAll(WriteAll(withMeta, p.tag, req.tags), p.property, req.properties)
  }

  /** Neither of two strings starts the other, so nothing prefixed by one starts
      with the other. */
  lemma Diverging(a: string, b: string, key: string)
    requires !StartsWith(a, b) && !StartsWith(b, a)
    ensures !StartsWith(a + key, b)
  {
    var j: int;
    if |b| <= |a| {
      assert a[..|b|] != b;
      j :| 0 <= j < |b| && a[j] != b[j];
    } else {
      assert b[..|a|] != a;
      j :| 0 <= j < |a| && a[j] != b[j];
    }
    if |b| <= |a + key| {
      assert (a + key)[..|b|][j] == a[j];
    }
  }

  /** A reserved field keeps the value the indexer gave it: tags and properties
      under separating prefixes never overwrite it. */
  lemma ReservedSurvives(m: PayloadMap, req: DocumentUpsertRequest, p: Prefixes, k: int)
    requires Separating(p) && 0 <= k < |ReservedKeys|
    ensures var out := WriteAll(WriteAll(m, p.tag, req.tags), p.property, req.properties);
      (ReservedKeys[k] in out) == (ReservedKeys[k] in m)
      && (ReservedKeys[k] in m ==> out[ReservedKeys[k]] == m[ReservedKeys[k]])
  {
    WriteAllKeeps(m, p.tag, req.tags, ReservedKeys[k]);
    WriteAllKeeps(WriteAll(m, p.tag, req.tags), p.property, req.properties, ReservedKeys[k]);
  }

  /** Text and timestamp are always stored; the parent metadata is stored exactly
      when the document has more than one chunk. */
  lemma ChunkPayloadReserved(chunkText: string, i: nat, count: nat, sourceId: string, indexedAt: int,
                             req: DocumentUpsertRequest, p: Prefixes)
    requires Separating(p)
    ensures HasString(ChunkPayload(chunkText, i, count, sourceId, indexedAt, req, p), TextKey, chunkText)
    ensures var m := ChunkPayload(chunkText, i, count, sourceId, indexedAt, req, p);
      IndexedAtMs in m && m[IndexedAtMs] == Int(indexedAt)
    ensures var m := ChunkPayload(chunkText, i, count, sourceId, indexedAt, req, p);
      (SourceDocId in m <==> count > 1) && (ChunkIndex in m <==> count > 1) && (TotalChunks in m <==> count > 1)
    ensures count > 1 ==> var m := ChunkPayload(chunkText, i, count, sourceId, indexedAt, req, p);
      && HasString(m, SourceDocId, sourceId)
      && HasString(m, ChunkIndex, NatToString(i))
      && HasString(m, TotalChunks, NatToString(count))
  {
    var base := map[TextKey := Str(chunkText), IndexedAtMs := Int(indexedAt)];
    var withMeta := if count > 1
      then base[SourceDocId := Str(sourceId)][ChunkIndex := Str(NatToString(i))][TotalChunks := Str(NatToString(count))]
      else base;
    ReservedSurvives(withMeta, req, p, 0);
    ReservedSurvives(withMeta, req, p, 1);
    ReservedSurvives(withMeta, req, p, 2);
    ReservedSurvives(withMeta, req, p, 3);
    ReservedSurvives(withMeta, req, p, 4);
  }

  /** Every chunk carries all of the document's tags and properties. */
  lemma ChunkPayloadTags(chunkText: string, i: nat, count: nat, sourceId: string, indexedAt: int,
                         req: DocumentUpsertRequest, p: Prefixes)
    requires Separating(p)
    ensures HoldsAll(ChunkPayload(chunkText, i, count, sourceId, indexedAt, req, p), p.tag, req.tags)
    ensures HoldsAll(ChunkPayload(chunkText, i, count, sourceId, indexedAt, req, p), p.property, req.properties)
  {
    var base := map[TextKey := Str(chunkText), IndexedAtMs := Int(indexedAt)];
    var withMeta := if count > 1
      then base[SourceDocId := Str(sourceId)][ChunkIndex := Str(NatToString(i))][TotalChunks := Str(NatToString(count))]
      else base;
    var tagged := WriteAll(withMeta, p.tag, req.tags);
    WriteAllHolds(withMeta, p.tag, req.tags);
    WriteAllHolds(tagged, p.property, req.properties);
    forall k | 0 <= k < |req.tags| ensures p.tag + req.tags[k].0 in WriteAll(tagged, p.property, req.properties)
      && WriteAll(tagged, p.property, req.properties)[p.tag + req.tags[k].0] == Str(req.tags[k].1)
    {
      Diverging(p.tag, p.property, req.tags[k].0);
      WriteAllKeeps(tagged, p.property, req.properties, p.tag + req.tags[k].0);
    }
  }

  // ---------------------------------------------------------------- the chunking indexer

  /** The points for texts `i..`, embedding each text in turn; the first embedding
      failure ends the loop with its message. */
  function BuildPoints<V>(texts: seq<string>, i: nat, embed: string -> Result<V, string>,
                          pointOf: (nat, string, V) -> Point<V>): (r: Result<seq<Point<V>>, string>)
    requires i <= |texts|
    ensures r.Success? ==> |r.value| == |texts| - i
    decreases |texts| - i
  {
    if i == |texts| then Success([])
    else
      var e := embed(texts[i]);
      if e.Failure? then Failure(e.error)
      else
        var rest := BuildPoints(texts, i + 1, embed, pointOf);
        if rest.Failure? then rest
        else Success([pointOf(i, texts[i], e.value)] + rest.value)
  }

  /** Every text from `i` on embeds. */
  predicate AllEmbed<V>(texts: seq<string>, i: nat, embed: string -> Result<V, string>) {
    forall k :: i <= k < |texts| ==> embed(texts[k]).Success?
  }

  /** The points are built exactly when every embedding succeeds, and point `k` is
      made from text `k` and its embedding. */
  lemma {:induction false} BuildPointsMeaning<V>(texts: seq<string>, i: nat, embed: string -> Result<V, string>,
                                                 pointOf: (nat, string, V) -> Point<V>)
    requires i <= |texts|
    ensures BuildPoints(texts, i, embed, pointOf).Success? <==> AllEmbed(texts, i, embed)
    ensures BuildPoints(texts, i, embed, pointOf).Success? ==>
      forall k :: i <= k < |texts| ==> BuildPoints(texts, i, embed, pointOf).value[k - i] == pointOf(k, texts[k], embed(texts[k]).value)
    decreases |texts| - i
  {
    if i < |texts| {
      BuildPointsMeaning(texts, i + 1, embed, pointOf);
      var r := BuildPoints(texts, i, embed, pointOf);
      if r.Success? {
        var rest := BuildPoints(texts, i + 1, embed, pointOf).value;
        assert r.value == [pointOf(i, texts[i], embed(texts[i]).value)] + rest;
        forall k | i <= k < |texts| ensures r.value[k - i] == pointOf(k, texts[k], embed(texts[k]).value) {
          if k > i {
            assert r.value[k - i] == rest[k - (i + 1)];
          }
        }
      }
    }
  }

  /** Point `k` of a successful build is the point of text `k`. */
  lemma BuildPointAt<V>(texts: seq<string>, embed: string -> Result<V, string>,
                        pointOf: (nat, string, V) -> Point<V>, k: nat)
    requires BuildPoints(texts, 0, embed, pointOf).Success? && k < |texts|
    ensures embed(texts[k]).Success?
    ensures BuildPoints(texts, 0, embed, pointOf).value[k] == pointOf(k, texts[k], embed(texts[k]).value)
  {
    BuildPointsMeaning(texts, 0, embed, pointOf);
  }

  /** The texts of the chunks. */
  function Texts(chunks: seq<TextChunk>): (t: seq<string>)
    ensures |t| == |chunks|
  {
    seq(|chunks|, k requires 0 <= k < |chunks| => chunks[k].text)
  }

  /** The point of chunk `k` of `count`, with text `text` and vector `v`. */
  function ChunkPoint<V>(k: nat, text: string, v: V, count: nat, sourceId: string,
                         req: DocumentUpsertRequest, svc: Services<V>, p: Prefixes): Point<V>
  {
    Point(ChunkPointId(sourceId, k, count, svc.hashing), v, ChunkPayload(text, k, count, sourceId, svc.clock(k), req, p))
  }

  function PointMaker<V>(count: nat, sourceId: string, req: DocumentUpsertRequest, svc: Services<V>, p: Prefixes): (nat, string, V) -> Point<V> {
    (k: nat, text: string, v: V) => ChunkPoint(k, text, v, count, sourceId, req, svc, p)
  }

  /** The ids of the points, in order. */
  function PointIds<V>(points: seq<Point<V>>): (ids: seq<string>)
    ensures |ids| == |points|
  {
    seq(|points|, k requires 0 <= k < |points| => points[k].id)
  }

  /** The points the indexer builds for a chunk list. */
  function ChunkPoints<V>(chunks: seq<TextChunk>, req: DocumentUpsertRequest, svc: Services<V>, p: Prefixes): Result<seq<Point<V>>, string> {
    BuildPoints(Texts(chunks), 0, svc.embed, PointMaker(|chunks|, SourceId(req, svc.hashing), req, svc, p))
  }

  /** The store accepts the chunk points, when every chunk embeds and they can be built. */
  predicate UpsertAccepts<V>(chunks: seq<TextChunk>, req: DocumentUpsertRequest, svc: Services<V>, p: Prefixes) {
    ChunkPoints(chunks, req, svc, p).Success? ==> svc.upsert(ChunkPoints(chunks, req, svc, p).value).None?
  }

  /** The body of `IndexAsync` after the chunker has run: every chunk is embedded and
      becomes one point; all points are upserted in one call after the loop; the
      response names the first point id, the chunk count and every chunk's point id.
      Any failure leaves the collection as it was. */
  function IndexChunks<V>(req: DocumentUpsertRequest, chunked: Result<seq<TextChunk>, ChunkError>,
                          store: Store<V>, svc: Services<V>, p: Prefixes): (r: Outcome<V>)
    ensures r.response == Failure(TextRequired) <==> chunked.Failure?
    ensures r.response.Failure? ==> r.store == store
  {
    if chunked.Failure? then Outcome(Failure(TextRequired), store)
    else
      var chunks := chunked.value;
      var points := ChunkPoints(chunks, req, svc, p);
      if points.Failure? then Outcome(Failure(EmbeddingFailed(points.error)), store)
      else if svc.upsert(points.value).Some? then Outcome(Failure(UpsertFailed(svc.upsert(points.value).value)), store)
      else if |chunks| == 0 then Outcome(Failure(NoChunks), store)
      else
        var ids := PointIds(points.value);
        Outcome(Success(DocumentUpsertResponse(ids[0], |chunks|, Some(ids))), Upsert(store, points.value))
  }

  /** `DocumentIndexer.IndexAsync` with chunking: the chunker's result, indexed. */
  function Index<V>(req: DocumentUpsertRequest, store: Store<V>, svc: Services<V>, opts: ChunkingOptions, p: Prefixes): (r: Outcome<V>)
    requires opts.maxChunkSize >= 1
    ensures r.response == Failure(TextRequired) <==> IsBlank(req.text)
    ensures r.response.Failure? ==> r.store == store
  {
    IndexChunks(req, Chunk(req.text, opts), store, svc, p)
  }

  /** Indexing a chunk list succeeds exactly when there is a chunk, every chunk
      embeds and the store accepts the points; an embedding failure and a store
      failure are reported with their messages. */
  lemma IndexChunksSucceeds<V>(req: DocumentUpsertRequest, chunks: seq<TextChunk>, store: Store<V>, svc: Services<V>, p: Prefixes)
    ensures IndexChunks(req, Success(chunks), store, svc, p).response.Success? <==>
      |chunks| > 0 && AllEmbed(Texts(chunks), 0, svc.embed) && UpsertAccepts(chunks, req, svc, p)
    ensures !AllEmbed(Texts(chunks), 0, svc.embed) ==> IndexChunks(req, Success(chunks), store, svc, p).response.error.EmbeddingFailed?
    ensures AllEmbed(Texts(chunks), 0, svc.embed) && !UpsertAccepts(chunks, req, svc, p) ==>
      IndexChunks(req, Success(chunks), store, svc, p).response
        == Failure(UpsertFailed(svc.upsert(ChunkPoints(chunks, req, svc, p).value).value))
  {
    BuildPointsMeaning(Texts(chunks), 0, svc.embed, PointMaker(|chunks|, SourceId(req, svc.hashing), req, svc, p));
  }

  /** With a non-negative overlap, text that is not blank indexes exactly when every
      chunk embeds and the store accepts the points: the chunker always yields a
      chunk for it. */
  lemma IndexSucceeds<V>(req: DocumentUpsertRequest, store: Store<V>, svc: Services<V>, opts: ChunkingOptions, p: Prefixes)
    requires opts.maxChunkSize >= 1 && opts.overlap >= 0
    requires !IsBlank(req.text)
    ensures Index(req, store, svc, opts, p).response.Success? <==>
      AllEmbed(Texts(Chunk(req.text, opts).value), 0, svc.embed) && UpsertAccepts(Chunk(req.text, opts).value, req, svc, p)
  {
    var k :| 0 <= k < |req.text| && !IsWhiteSpace(req.text[k]);
    ChunkCovers(req.text, opts, k);
    IndexChunksSucceeds(req, Chunk(req.text, opts).value, store, svc, p);
  }

  /** The response's ids: one per chunk, the source id for a single chunk and the
      derived chunk ids otherwise, and the reported point id is the first of them. */
  lemma IndexIds<V>(req: DocumentUpsertRequest, chunks: seq<TextChunk>, store: Store<V>, svc: Services<V>, p: Prefixes)
    requires IndexChunks(req, Success(chunks), store, svc, p).response.Success?
    ensures var resp := IndexChunks(req, Success(chunks), store, svc, p).response.value;
      && resp.chunkPointIds.Some?
      && resp.totalChunks == |resp.chunkPointIds.value| == |chunks| >= 1
      && resp.pointId == resp.chunkPointIds.value[0]
      && (forall k :: 0 <= k < resp.totalChunks ==>
            resp.chunkPointIds.value[k] == ChunkPointId(SourceId(req, svc.hashing), k, resp.totalChunks, svc.hashing))
      && (resp.totalChunks == 1 ==> resp.pointId == SourceId(req, svc.hashing))
  {
    var points := ChunkPoints(chunks, req, svc, p).value;
    ChunkPointsIds(req, chunks, svc, p);
    var ids := PointIds(points);
    assert IndexChunks(req, Success(chunks), store, svc, p).response.value == DocumentUpsertResponse(ids[0], |chunks|, Some(ids));
  }

  /** Point `k` carries chunk `k`'s id. */
  lemma ChunkPointsIds<V>(req: DocumentUpsertRequest, chunks: seq<TextChunk>, svc: Services<V>, p: Prefixes)
    requires ChunkPoints(chunks, req, svc, p).Success?
    ensures forall k :: 0 <= k < |chunks| ==>
      PointIds(ChunkPoints(chunks, req, svc, p).value)[k] == ChunkPointId(SourceId(req, svc.hashing), k, |chunks|, svc.hashing)
  {
    var points := ChunkPoints(chunks, req, svc, p).value;
    forall k | 0 <= k < |chunks| ensures PointIds(points)[k] == ChunkPointId(SourceId(req, svc.hashing), k, |chunks|, svc.hashing) {
      ChunkPointAt(req, chunks, svc, p, k);
    }
  }

  /** Each chunk is stored as its own point under its id, with its embedding and its
      payload, when the hash tells the chunk ids apart. */
  lemma IndexStoresChunk<V>(req: DocumentUpsertRequest, chunks: seq<TextChunk>, store: Store<V>, svc: Services<V>, p: Prefixes, k: nat)
    requires IndexChunks(req, Success(chunks), store, svc, p).response.Success?
    requires SeparatesChunks(svc.hashing, SourceId(req, svc.hashing), |chunks|)
    requires k < |chunks|
    ensures var out := IndexChunks(req, Success(chunks), store, svc, p);
      var id := out.response.value.chunkPointIds.value[k];
      && svc.embed(chunks[k].text).Success?
      && id in out.store
      && out.store[id] == ChunkPoint(k, chunks[k].text, svc.embed(chunks[k].text).value, |chunks|, SourceId(req, svc.hashing), req, svc, p)
  {
    var points := ChunkPoints(chunks, req, svc, p).value;
    ChunkPointsDistinct(req, chunks, svc, p);
    ChunkPointAt(req, chunks, svc, p, k);
    var out := IndexChunks(req, Success(chunks), store, svc, p);
    assert out.response.value.chunkPointIds.value == PointIds(points);
    assert out.store == Upsert(store, points);
    UpsertStores(store, points, k);
  }

  /** Point `k` is chunk `k`'s point. */
  lemma ChunkPointAt<V>(req: DocumentUpsertRequest, chunks: seq<TextChunk>, svc: Services<V>, p: Prefixes, k: nat)
    requires ChunkPoints(chunks, req, svc, p).Success? && k < |chunks|
    ensures svc.embed(chunks[k].text).Success?
    ensures ChunkPoints(chunks, req, svc, p).value[k] ==
      ChunkPoint(k, chunks[k].text, svc.embed(chunks[k].text).value, |chunks|, SourceId(req, svc.hashing), req, svc, p)
  {
    BuildPointAt(Texts(chunks), svc.embed, PointMaker(|chunks|, SourceId(req, svc.hashing), req, svc, p), k);
  }

  /** When the hash tells the chunk ids apart, no two points share an id. */
  lemma ChunkPointsDistinct<V>(req: DocumentUpsertRequest, chunks: seq<TextChunk>, svc: Services<V>, p: Prefixes)
    requires ChunkPoints(chunks, req, svc, p).Success?
    requires SeparatesChunks(svc.hashing, SourceId(req, svc.hashing), |chunks|)
    ensures DistinctIds(ChunkPoints(chunks, req, svc, p).value)
  {
    var points := ChunkPoints(chunks, req, svc, p).value;
    ChunkPointsIds(req, chunks, svc, p);
    forall i, j | 0 <= i < j < |points| ensures points[i].id != points[j].id {
      assert points[i].id == PointIds(points)[i] && points[j].id == PointIds(points)[j];
      ChunkPointIdsDistinct(SourceId(req, svc.hashing), |chunks|, svc.hashing, i, j);
    }
  }

  /** Points with other ids are left exactly as they were. */
  lemma IndexKeepsOthers<V>(req: DocumentUpsertRequest, chunked: Result<seq<TextChunk>, ChunkError>,
                            store: Store<V>, svc: Services<V>, p: Prefixes, id: string)
    requires var resp := IndexChunks(req, chunked, store, svc, p).response;
      resp.Failure? || (resp.value.chunkPointIds.Some? && id !in resp.value.chunkPointIds.value)
    ensures var out := IndexChunks(req, chunked, store, svc, p);
      (id in out.store <==> id in store) && (id in store ==> out.store[id] == store[id])
  {
    var out := IndexChunks(req, chunked, store, svc, p);
    if out.response.Success? {
      var points := ChunkPoints(chunked.value, req, svc, p).value;
      var ids := PointIds(points);
      forall k | 0 <= k < |points| ensures points[k].id != id {
        assert ids[k] == points[k].id;
      }
      UpsertKeeps(store, points, id);
    }
  }

  /** Indexing the same request twice, with the same services, leaves the collection
      as indexing it once. */
  lemma IndexIdempotent<V>(req: DocumentUpsertRequest, store: Store<V>, svc: Services<V>, opts: ChunkingOptions, p: Prefixes)
    requires opts.maxChunkSize >= 1
    ensures Index(req, Index(req, store, svc, opts, p).store, svc, opts, p).store == Index(req, store, svc, opts, p).store
  {
    var chunked := Chunk(req.text, opts);
    var once := IndexChunks(req, chunked, store, svc, p);
    if once.response.Success? {
      UpsertIdempotent(store, ChunkPoints(chunked.value, req, svc, p).value);
    }
  }

  /** The stored chunk's payload: its own text, the clock reading taken for it, the
      parent metadata exactly when there are several chunks, and all the tags and
      properties. */
  lemma IndexedChunkPayload<V>(req: DocumentUpsertRequest, chunks: seq<TextChunk>, store: Store<V>, svc: Services<V>, p: Prefixes, k: nat)
    requires Separating(p)
    requires IndexChunks(req, Success(chunks), store, svc, p).response.Success?
    requires SeparatesChunks(svc.hashing, SourceId(req, svc.hashing), |chunks|)
    requires k < |chunks|
    ensures var out := IndexChunks(req, Success(chunks), store, svc, p);
      var id := out.response.value.chunkPointIds.value[k];
      && id in out.store
      && HasString(out.store[id].payload, TextKey, chunks[k].text)
      && IndexedAtMs in out.store[id].payload && out.store[id].payload[IndexedAtMs] == Int(svc.clock(k))
      && (SourceDocId in out.store[id].payload <==> |chunks| > 1)
      && HoldsAll(out.store[id].payload, p.tag, req.tags)
      && HoldsAll(out.store[id].payload, p.property, req.properties)
  {
    var sourceId := SourceId(req, svc.hashing);
    IndexStoresChunk(req, chunks, store, svc, p, k);
    ChunkPayloadReserved(chunks[k].text, k, |chunks|, sourceId, svc.clock(k), req, p);
    ChunkPayloadTags(chunks[k].text, k, |chunks|, sourceId, svc.clock(k), req, p);
  }

  /** Every chunk inherits the document's tags, so a tag search for any of them
      finds every stored chunk of the document. */
  lemma ChunksFoundByTags<V>(req: DocumentUpsertRequest, chunks: seq<TextChunk>, store: Store<V>, svc: Services<V>, p: Prefixes, k: nat, query: Dict)
    requires Separating(p)
    requires IndexChunks(req, Success(chunks), store, svc, p).response.Success?
    requires SeparatesChunks(svc.hashing, SourceId(req, svc.hashing), |chunks|)
    requires k < |chunks|
    requires forall i :: 0 <= i < |query| ==> query[i] in req.tags
    ensures var out := IndexChunks(req, Success(chunks), store, svc, p);
      var id := out.response.value.chunkPointIds.value[k];
      id in out.store && Admits(CreateGrpcFilter(p.tag, query), out.store[id].payload)
  {
    var out := IndexChunks(req, Success(chunks), store, svc, p);
    IndexedChunkPayload(req, chunks, store, svc, p, k);
    var id := out.response.value.chunkPointIds.value[k];
    IndexedTagsMatch(p.tag, req.tags, query, out.store[id].payload);
  }

  // ---------------------------------------------------------------- the single-point indexer

  /** The one point the single-point indexer writes for vector `v`. */
  function SinglePoint<V>(req: DocumentUpsertRequest, svc: Services<V>, p: Prefixes, v: V): Point<V> {
    var payload := WriteAll(WriteAll(map[TextKey := Str(req.text), IndexedAtMs := Int(svc.clock(0))], p.tag, req.tags), p.property, req.properties);
    Point(SourceId(req, svc.hashing), v, payload)
  }

  /** `DocumentIndexer.IndexAsync` without chunking: one point under the source id
      holding the whole text. Blank text is not rejected here. */
  function IndexSinglePoint<V>(req: DocumentUpsertRequest, store: Store<V>, svc: Services<V>, p: Prefixes): (r: Outcome<V>)
    ensures r.response.Success? <==>
      svc.embed(req.text).Success? && svc.upsert([SinglePoint(req, svc, p, svc.embed(req.text).value)]).None?
    ensures r.response.Failure? ==> r.store == store
    ensures r.response.Success? ==> r.response.value.totalChunks == 1 && r.response.value.chunkPointIds.None?
  {
    var e := svc.embed(req.text);
    if e.Failure? then Outcome(Failure(EmbeddingFailed(e.error)), store)
    else
      var point := SinglePoint(req, svc, p, e.value);
      if svc.upsert([point]).Some? then Outcome(Failure(UpsertFailed(svc.upsert([point]).value)), store)
      else Outcome(Success(DocumentUpsertResponse(point.id, 1, None)), store[point.id := point])
  }

  /** The single-point indexer writes exactly one point, under the source id it
      answers with, whose payload holds the whole text, the indexing time, and every
      tag and property under its prefix. */
  lemma SinglePointStored<V>(req: DocumentUpsertRequest, store: Store<V>, svc: Services<V>, p: Prefixes)
    requires Separating(p)
    requires IndexSinglePoint(req, store, svc, p).response.Success?
    ensures var out := IndexSinglePoint(req, store, svc, p);
      var id := out.response.value.pointId;
      && id == SourceId(req, svc.hashing)
      && id in out.store && out.store == store[id := out.store[id]]
      && out.store[id].id == id && out.store[id].vector == svc.embed(req.text).value
      && HasString(out.store[id].payload, TextKey, req.text)
      && IndexedAtMs in out.store[id].payload && out.store[id].payload[IndexedAtMs] == Int(svc.clock(0))
      && SourceDocId !in out.store[id].payload
      && HoldsAll(out.store[id].payload, p.tag, req.tags)
      && HoldsAll(out.store[id].payload, p.property, req.properties)
  {
    var sourceId := SourceId(req, svc.hashing);
    var out := IndexSinglePoint(req, store, svc, p);
    assert out.store[sourceId].payload == ChunkPayload(req.text, 0, 1, sourceId, svc.clock(0), req, p);
    ChunkPayloadReserved(req.text, 0, 1, sourceId, svc.clock(0), req, p);
    ChunkPayloadTags(req.text, 0, 1, sourceId, svc.clock(0), req, p);
  }

  /** A single chunk holding the whole text is stored exactly as the single-point
      indexer stores the text: same point, same id, same payload. */
  lemma OneChunkAsSinglePoint<V>(req: DocumentUpsertRequest, store: Store<V>, svc: Services<V>, p: Prefixes)
    ensures var chunked := IndexChunks(req, Success([TextChunk(req.text, 0, 0, |req.text|)]), store, svc, p);
      var single := IndexSinglePoint(req, store, svc, p);
      && chunked.store == single.store
      && (chunked.response.Success? <==> single.response.Success?)
      && (chunked.response.Success? ==> chunked.response.value.pointId == single.response.value.pointId)
  {
    var chunks := [TextChunk(req.text, 0, 0, |req.text|)];
    var sourceId := SourceId(req, svc.hashing);
    var make := PointMaker(|chunks|, sourceId, req, svc, p);
    assert Texts(chunks) == [req.text];
    BuildPointsMeaning(Texts(chunks), 0, svc.embed, make);
    var e := svc.embed(req.text);
    if e.Success? {
      var points := ChunkPoints(chunks, req, svc, p).value;
      assert points[0] == make(0, req.text, e.value);
      assert points == [points[0]];
      assert Upsert(store, points) == Upsert(store[points[0].id := points[0]], []);
    }
  }

  /** Text that is not blank and fits in one chunk is indexed by the chunking indexer
      exactly as by the single-point indexer. */
  lemma ChunkingExtendsSinglePoint<V>(req: DocumentUpsertRequest, store: Store<V>, svc: Services<V>, opts: ChunkingOptions, p: Prefixes)
    requires opts.maxChunkSize >= 1
    requires !IsBlank(req.text) && |req.text| <= opts.maxChunkSize
    ensures Index(req, store, svc, opts, p).store == IndexSinglePoint(req, store, svc, p).store
    ensures Index(req, store, svc, opts, p).response.Success? <==> IndexSinglePoint(req, store, svc, p).response.Success?
    ensures Index(req, store, svc, opts, p).response.Success? ==>
      Index(req, store, svc, opts, p).response.value.pointId == IndexSinglePoint(req, store, svc, p).response.value.pointId
  {
    assert Chunk(req.text, opts) == Success([TextChunk(req.text, 0, 0, |req.text|)]);
    OneChunkAsSinglePoint(req, store, svc, p);
  }
}
