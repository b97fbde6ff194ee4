/**
 * The Store of obnam (obnam/storeTests.py): the layer between the backup
 * logic and the backend. It keeps the host block of this host in memory,
 * caches the object map (object id -> block id) and the content map, queues
 * objects and writes them out, together with the maps and a new host block,
 * on commit. The Store's own implementation is not part of this model; the
 * contracts below are the behaviour its tests pin down, and the bodies are
 * the simplest ones that meet them.
 *
 * The backend is a map from block id to the items of the block, plus the
 * uploaded host blocks by host id. Objects are reduced to their id and an
 * opaque payload; block encoding is not modelled.
 */
module Store {
  import opened Outcomes
  import opened Numerals

  /** An object of obnam.obj: its id and an opaque payload. */
  datatype Obj = Obj(id: string, payload: seq<string>)

  /** What a block holds: objects, or the entries of an object or content map. */
  datatype Item = ObjectItem(obj: Obj) | MapEntry(key: string, value: string)

  /** A HostBlockObject as uploaded: the generation ids and the ids of the
      map and content-map blocks. */
  datatype HostRecord = HostRecord(genIds: seq<string>, mapBlockIds: seq<string>, contmapBlockIds: seq<string>)

  /** ObnamException from get_object. */
  datatype StoreError = ObjectNotFound(id: string)

  // ---------------------------------------------------------------------
  // The backend
  // ---------------------------------------------------------------------

  /** The id of the n-th generated block. */
  function BlockName(n: nat): string
  {
    "block-" + DecimalString(n)
  }

  lemma BlockNameInjective(a: nat, b: nat)
    requires BlockName(a) == BlockName(b)
    ensures a == b
  {
    assert BlockName(a)[6..] == DecimalString(a);
    assert BlockName(b)[6..] == DecimalString(b);
    DecimalOfDecimalString(a);
    DecimalOfDecimalString(b);
  }

  class Backend {
    var blocks: map<string, seq<Item>>
    var hosts: map<string, HostRecord>
    var issued: nat

    /** Every generated id is below the counter, and host blocks refer only
        to blocks that exist. */
    ghost predicate Valid()
      reads this
    {
      (forall k: nat :: BlockName(k) in blocks ==> k < issued) &&
      (forall h :: h in hosts ==> Refers(hosts[h], blocks))
    }

    constructor Empty()
      ensures Valid() && blocks == map[] && hosts == map[] && issued == 0
    {
      blocks := map[];
      hosts := map[];
      issued := 0;
    }

    /** generate_block_id: an id no block has yet. */
    method GenerateBlockId() returns (id: string)
      requires Valid()
      modifies this
      ensures Valid()
      ensures id !in blocks
      ensures id == BlockName(old(issued)) && issued == old(issued) + 1
      ensures blocks == old(blocks) && hosts == old(hosts)
    {
      id := BlockName(issued);
      issued := issued + 1;
    }

    /** upload_block of a freshly generated id. */
    method UploadBlock(id: string, items: seq<Item>)
      requires Valid()
      requires exists k: nat :: k < issued && id == BlockName(k)
      modifies this
      ensures Valid()
      ensures blocks == old(blocks)[id := items]
      ensures hosts == old(hosts) && issued == old(issued)
    {
      blocks := blocks[id := items];
      forall h | h in hosts
        ensures Refers(hosts[h], blocks)
      {
        assert Refers(hosts[h], old(blocks));
      }
      forall k: nat | BlockName(k) in blocks
        ensures k < issued
      {
        if BlockName(k) == id {
          var j: nat :| j < issued && id == BlockName(j);
          BlockNameInjective(j, k);
        }
      }
    }

    /** upload_host_block: store the host block under the host id. */
    method UploadHostBlock(hostId: string, record: HostRecord)
      requires Valid() && Refers(record, blocks)
      modifies this
      ensures Valid()
      ensures hosts == old(hosts)[hostId := record]
      ensures blocks == old(blocks) && issued == old(issued)
    {
      hosts := hosts[hostId := record];
    }
  }

  /** The map and content-map blocks a host block lists exist. */
  ghost predicate Refers(record: HostRecord, blocks: map<string, seq<Item>>)
  {
    (forall id :: id in record.mapBlockIds ==> id in blocks) &&
    (forall id :: id in record.contmapBlockIds ==> id in blocks)
  }

  // ---------------------------------------------------------------------
  // Reading maps and objects out of blocks
  // ---------------------------------------------------------------------

  /** Every block of before is still there, unchanged, in after. */
  predicate KeepsBlocks(before: map<string, seq<Item>>, after: map<string, seq<Item>>)
  {
    forall id :: id in before ==> id in after && after[id] == before[id]
  }

  /** The map entries of a block, later entries overriding earlier ones. */
  function Entries(items: seq<Item>): map<string, string>
  {
    if items == [] then map[]
    else
      var last := items[|items| - 1];
      Entries(items[..|items| - 1]) + (if last.MapEntry? then map[last.key := last.value] else map[])
  }

  /** The map entries of the listed blocks, later blocks overriding earlier
      ones; what load_maps and load_content_maps bring into memory. */
  function LoadMap(blocks: map<string, seq<Item>>, ids: seq<string>): map<string, string>
  {
    if ids == [] then map[]
    else
      var last := ids[|ids| - 1];
      LoadMap(blocks, ids[..|ids| - 1]) + (if last in blocks then Entries(blocks[last]) else map[])
  }

  /** The first object with the given id in a block. */
  function FindObject(items: seq<Item>, id: string): (r: Option<Obj>)
    ensures r.Some? <==> exists i :: 0 <= i < |items| && items[i].ObjectItem? && items[i].obj.id == id
    ensures r.Some? ==> r.value.id == id && ObjectItem(r.value) in items
  {
    if items == [] then None
    else if items[0].ObjectItem? && items[0].obj.id == id then Some(items[0].obj)
    else
      var r := FindObject(items[1..], id);
      assert forall i :: 0 < i < |items| ==> items[i] == items[1..][i - 1];
      if r.Some? then assert ObjectItem(r.value) in items[1..]; r else r
  }

  /** get_object's lookup: the block the map names, then the object in it. */
  function Retrieve(blocks: map<string, seq<Item>>, m: map<string, string>, id: string): Option<Obj>
  {
    if id in m && m[id] in blocks then FindObject(blocks[m[id]], id) else None
  }

  /** A block holding the queued objects, in queue order. */
  function ObjectItems(objs: seq<Obj>): (items: seq<Item>)
    ensures |items| == |objs|
    ensures forall i :: 0 <= i < |objs| ==> items[i] == ObjectItem(objs[i])
  {
    if objs == [] then [] else [ObjectItem(objs[0])] + ObjectItems(objs[1..])
  }

  /** Each id of the objects mapped to the block b. */
  function IdsTo(objs: seq<Obj>, b: string): map<string, string>
  {
    if objs == [] then map[]
    else IdsTo(objs[..|objs| - 1], b)[objs[|objs| - 1].id := b]
  }

  lemma UnionUpdate(m: map<string, string>, n: map<string, string>, k: string, v: string)
    ensures (m + n)[k := v] == m + n[k := v]
  {
  }

  /** One more object of objs mapped to b, over a map m. */
  lemma IdsToStep(m: map<string, string>, objs: seq<Obj>, i: nat, b: string)
    requires i < |objs|
    ensures (m + IdsTo(objs[..i], b))[objs[i].id := b] == m + IdsTo(objs[..i + 1], b)
  {
    assert objs[..i + 1][..i] == objs[..i];
    UnionUpdate(m, IdsTo(objs[..i], b), objs[i].id, b);
  }

  lemma {:induction false} IdsToMaps(objs: seq<Obj>, b: string, o: Obj)
    requires o in objs
    ensures o.id in IdsTo(objs, b) && IdsTo(objs, b)[o.id] == b
  {
    var last := objs[|objs| - 1];
    if o != last {
      assert o in objs[..|objs| - 1] by {
        var i :| 0 <= i < |objs| && objs[i] == o;
        assert objs[..|objs| - 1][i] == o;
      }
      IdsToMaps(objs[..|objs| - 1], b, o);
    }
  }

  /** The entries of a map, one item each, in some order. */
  method EntryItems(entries: map<string, string>) returns (items: seq<Item>)
    ensures Entries(items) == entries
  {
    items := [];
    var rest := entries;
    while rest != map[]
      invariant rest.Keys <= entries.Keys
      invariant forall k :: k in rest ==> rest[k] == entries[k]
      invariant Entries(items) == map k | k in entries && k !in rest :: entries[k]
      decreases rest.Keys
    {
      var key :| key in rest;
      ghost var before := rest.Keys;
      EntriesAppend(items, key, rest[key]);
      items := items + [MapEntry(key, rest[key])];
      rest := map k | k in rest && k != key :: rest[k];
      assert rest.Keys < before by {
        assert key in before && key !in rest.Keys;
      }
    }
    assert (map k | k in entries && k !in rest :: entries[k]) == entries;
  }

  lemma {:induction false} EntriesAppend(items: seq<Item>, key: string, value: string)
    ensures Entries(items + [MapEntry(key, value)]) == Entries(items)[key := value]
  {
    assert (items + [MapEntry(key, value)])[..|items|] == items;
  }

  /** Uploading a block that no listed id names leaves the loaded map as it
      was. */
  lemma {:induction false} LoadMapUnaffected(blocks: map<string, seq<Item>>, ids: seq<string>, id: string, items: seq<Item>)
    requires id !in ids
    ensures LoadMap(blocks[id := items], ids) == LoadMap(blocks, ids)
  {
    if ids != [] {
      assert id !in ids[..|ids| - 1];
      LoadMapUnaffected(blocks, ids[..|ids| - 1], id, items);
    }
  }

  /** Listing one more block adds its entries over the loaded map. */
  lemma LoadMapAppend(blocks: map<string, seq<Item>>, ids: seq<string>, id: string)
    requires id in blocks
    ensures LoadMap(blocks, ids + [id]) == LoadMap(blocks, ids) + Entries(blocks[id])
  {
    assert (ids + [id])[..|ids|] == ids;
  }

  /** A block that lists each queued object finds each of them. */
  lemma ObjectItemsFind(objs: seq<Obj>, o: Obj)
    requires o in objs
    ensures FindObject(ObjectItems(objs), o.id).Some?
  {
    var i :| 0 <= i < |objs| && objs[i] == o;
    assert ObjectItems(objs)[i] == ObjectItem(o);
  }

  // ---------------------------------------------------------------------
  // The Store
  // ---------------------------------------------------------------------

  /** A HostBlockObject as the Store holds it in memory. */
  class HostBlock {
    const hostId: string
    const genIds: seq<string>
    const mapBlockIds: seq<string>
    const contmapBlockIds: seq<string>

    constructor (hostId: string, record: HostRecord)
      ensures this.hostId == hostId
      ensures genIds == record.genIds
      ensures mapBlockIds == record.mapBlockIds && contmapBlockIds == record.contmapBlockIds
    {
      this.hostId := hostId;
      genIds := record.genIds;
      mapBlockIds := record.mapBlockIds;
      contmapBlockIds := record.contmapBlockIds;
    }
  }

  /** Flushing the queue into a new block leaves what the listed map and
      content-map blocks load unchanged, and keeps every older block. */
  lemma FlushKeepsMaps(before: map<string, seq<Item>>, after: map<string, seq<Item>>,
                       mapIds: seq<string>, contIds: seq<string>, objs: seq<Obj>, b: string)
    requires Refers(HostRecord([], mapIds, contIds), before)
    requires objs != [] ==> b !in before && after == before[b := ObjectItems(objs)]
    requires objs == [] ==> after == before
    ensures LoadMap(after, mapIds) == LoadMap(before, mapIds)
    ensures LoadMap(after, contIds) == LoadMap(before, contIds)
    ensures KeepsBlocks(before, after)
  {
    if objs != [] {
      LoadMapUnaffected(before, mapIds, b, ObjectItems(objs));
      LoadMapUnaffected(before, contIds, b, ObjectItems(objs));
    }
  }

  lemma KeepsTransitive(a: map<string, seq<Item>>, b: map<string, seq<Item>>,
                        c: map<string, seq<Item>>, d: map<string, seq<Item>>)
    requires KeepsBlocks(a, b) && KeepsBlocks(b, c) && KeepsBlocks(c, d)
    ensures KeepsBlocks(a, d)
  {
  }

  class Store {
    const backend: Backend
    /** The host id of the configuration (the host name by default). */
    const hostId: string
    var hostBlock: HostBlock?
    /** The object map and the content map of the context. */
    var objectMap: map<string, string>
    var contentMap: map<string, string>
    /** Entries added since the maps were last written out. */
    var newObjectEntries: map<string, string>
    var newContentEntries: map<string, string>
    /** The map blocks that belong to the next host block. */
    var mapBlockIds: seq<string>
    var contmapBlockIds: seq<string>
    var queue: seq<Obj>

    ghost predicate Valid()
      reads this, backend
    {
      backend.Valid() && Refers(HostRecord([], mapBlockIds, contmapBlockIds), backend.blocks)
    }

    constructor (backend: Backend, hostId: string)
      requires backend.Valid()
      ensures Valid()
      ensures this.backend == backend && this.hostId == hostId
      ensures hostBlock == null
      ensures objectMap == map[] && contentMap == map[]
      ensures newObjectEntries == map[] && newContentEntries == map[]
      ensures mapBlockIds == [] && contmapBlockIds == [] && queue == []
    {
      this.backend := backend;
      this.hostId := hostId;
      hostBlock := null;
      objectMap, contentMap := map[], map[];
      newObjectEntries, newContentEntries := map[], map[];
      mapBlockIds, contmapBlockIds := [], [];
      queue := [];
    }

    /** fetch_host_block: a new in-memory host block, read from the backend
        when one was uploaded for this host, otherwise empty. The maps stay
        unloaded. */
    method FetchHostBlock()
      requires Valid()
      modifies this
      ensures Valid()
      ensures hostBlock != null && fresh(hostBlock) && hostBlock.hostId == hostId
      ensures hostId in backend.hosts ==>
        hostBlock.genIds == backend.hosts[hostId].genIds &&
        hostBlock.mapBlockIds == backend.hosts[hostId].mapBlockIds &&
        hostBlock.contmapBlockIds == backend.hosts[hostId].contmapBlockIds
      ensures hostId !in backend.hosts ==>
        hostBlock.genIds == [] && hostBlock.mapBlockIds == [] && hostBlock.contmapBlockIds == []
      ensures mapBlockIds == hostBlock.mapBlockIds && contmapBlockIds == hostBlock.contmapBlockIds
      ensures objectMap == old(objectMap) && contentMap == old(contentMap)
      ensures newObjectEntries == old(newObjectEntries) && newContentEntries == old(newContentEntries)
      ensures queue == old(queue)
    {
      var record := if hostId in backend.hosts then backend.hosts[hostId] else HostRecord([], [], []);
      hostBlock := new HostBlock(hostId, record);
      mapBlockIds := record.mapBlockIds;
      contmapBlockIds := record.contmapBlockIds;
    }

    /** queue_object: remember an object for the next commit. */
    method QueueObject(o: Obj)
      modifies this
      ensures queue == old(queue) + [o]
      ensures hostBlock == old(hostBlock) && mapBlockIds == old(mapBlockIds) && contmapBlockIds == old(contmapBlockIds)
      ensures objectMap == old(objectMap) && contentMap == old(contentMap)
      ensures newObjectEntries == old(newObjectEntries) && newContentEntries == old(newContentEntries)
    {
      queue := queue + [o];
    }

    /** queue_objects: queue_object once per element, in order. */
    method QueueObjects(objs: seq<Obj>)
      modifies this
      ensures queue == old(queue) + objs
      ensures hostBlock == old(hostBlock) && mapBlockIds == old(mapBlockIds) && contmapBlockIds == old(contmapBlockIds)
      ensures objectMap == old(objectMap) && contentMap == old(contentMap)
      ensures newObjectEntries == old(newObjectEntries) && newContentEntries == old(newContentEntries)
    {
      for i := 0 to |objs|
        invariant queue == old(queue) + objs[..i]
        invariant hostBlock == old(hostBlock) && mapBlockIds == old(mapBlockIds) && contmapBlockIds == old(contmapBlockIds)
        invariant objectMap == old(objectMap) && contentMap == old(contentMap)
        invariant newObjectEntries == old(newObjectEntries) && newContentEntries == old(newContentEntries)
      {
        QueueObject(objs[i]);
        assert objs[..i + 1] == objs[..i] + [objs[i]];
      }
      assert objs[..|objs|] == objs;
    }

    /** obnam.map.add on the object map. */
    method AddObjectEntry(key: string, value: string)
      modifies this
      ensures objectMap == old(objectMap)[key := value]
      ensures newObjectEntries == old(newObjectEntries)[key := value]
      ensures contentMap == old(contentMap) && newContentEntries == old(newContentEntries)
      ensures hostBlock == old(hostBlock) && mapBlockIds == old(mapBlockIds) && contmapBlockIds == old(contmapBlockIds)
      ensures queue == old(queue)
    {
      objectMap := objectMap[key := value];
      newObjectEntries := newObjectEntries[key := value];
    }

    /** obnam.map.add on the content map. */
    method AddContentEntry(key: string, value: string)
      modifies this
      ensures contentMap == old(contentMap)[key := value]
      ensures newContentEntries == old(newContentEntries)[key := value]
      ensures objectMap == old(objectMap) && newObjectEntries == old(newObjectEntries)
      ensures hostBlock == old(hostBlock) && mapBlockIds == old(mapBlockIds) && contmapBlockIds == old(contmapBlockIds)
      ensures queue == old(queue)
    {
      contentMap := contentMap[key := value];
      newContentEntries := newContentEntries[key := value];
    }

    /** load_maps: bring the entries of the host block's map blocks into the
        object map. */
    method LoadMaps()
      modifies this
      ensures objectMap == old(objectMap) + LoadMap(backend.blocks, mapBlockIds)
      ensures contentMap == old(contentMap)
      ensures newObjectEntries == old(newObjectEntries) && newContentEntries == old(newContentEntries)
      ensures hostBlock == old(hostBlock) && mapBlockIds == old(mapBlockIds) && contmapBlockIds == old(contmapBlockIds)
      ensures queue == old(queue)
    {
      objectMap := objectMap + LoadMap(backend.blocks, mapBlockIds);
    }

    /** load_content_maps: the same for the content map. */
    method LoadContentMaps()
      modifies this
      ensures contentMap == old(contentMap) + LoadMap(backend.blocks, contmapBlockIds)
      ensures objectMap == old(objectMap)
      ensures newObjectEntries == old(newObjectEntries) && newContentEntries == old(newContentEntries)
      ensures hostBlock == old(hostBlock) && mapBlockIds == old(mapBlockIds) && contmapBlockIds == old(contmapBlockIds)
      ensures queue == old(queue)
    {
      contentMap := contentMap + LoadMap(backend.blocks, contmapBlockIds);
    }

    /** Write the entries of a map into a new block. */
    method WriteMapBlock(entries: map<string, string>) returns (id: string)
      requires Valid()
      modifies backend
      ensures Valid()
      ensures id !in old(backend.blocks) && id in backend.blocks
      ensures backend.blocks == old(backend.blocks)[id := backend.blocks[id]]
      ensures KeepsBlocks(old(backend.blocks), backend.blocks)
      ensures Entries(backend.blocks[id]) == entries
      ensures backend.hosts == old(backend.hosts)
    {
      var items := EntryItems(entries);
      id := backend.GenerateBlockId();
      backend.UploadBlock(id, items);
    }

    /** update_maps: write the entries added since the last write into a new
        map block of the next host block. The in-memory map keeps its size. */
    method UpdateMaps()
      requires Valid()
      modifies this, backend
      ensures Valid()
      ensures objectMap == old(objectMap) && newObjectEntries == map[]
      ensures LoadMap(backend.blocks, mapBlockIds) == LoadMap(old(backend.blocks), old(mapBlockIds)) + old(newObjectEntries)
      ensures KeepsBlocks(old(backend.blocks), backend.blocks)
      ensures LoadMap(backend.blocks, contmapBlockIds) == LoadMap(old(backend.blocks), old(contmapBlockIds))
      ensures contentMap == old(contentMap) && newContentEntries == old(newContentEntries)
      ensures contmapBlockIds == old(contmapBlockIds)
      ensures hostBlock == old(hostBlock) && queue == old(queue) && backend.hosts == old(backend.hosts)
    {
      ghost var blocks0 := backend.blocks;
      if newObjectEntries != map[] {
        var id := WriteMapBlock(newObjectEntries);
        assert id !in mapBlockIds && id !in contmapBlockIds;
        LoadMapUnaffected(blocks0, mapBlockIds, id, backend.blocks[id]);
        LoadMapUnaffected(blocks0, contmapBlockIds, id, backend.blocks[id]);
        LoadMapAppend(backend.blocks, mapBlockIds, id);
        mapBlockIds := mapBlockIds + [id];
        newObjectEntries := map[];
      } else {
        assert LoadMap(backend.blocks, mapBlockIds) + old(newObjectEntries) == LoadMap(backend.blocks, mapBlockIds);
      }
    }

    /** update_content_maps: the same for the content map. */
    method UpdateContentMaps()
      requires Valid()
      modifies this, backend
      ensures Valid()
      ensures contentMap == old(contentMap) && newContentEntries == map[]
      ensures LoadMap(backend.blocks, contmapBlockIds) == LoadMap(old(backend.blocks), old(contmapBlockIds)) + old(newContentEntries)
      ensures KeepsBlocks(old(backend.blocks), backend.blocks)
      ensures LoadMap(backend.blocks, mapBlockIds) == LoadMap(old(backend.blocks), old(mapBlockIds))
      ensures objectMap == old(objectMap) && newObjectEntries == old(newObjectEntries)
      ensures mapBlockIds == old(mapBlockIds)
      ensures hostBlock == old(hostBlock) && queue == old(queue) && backend.hosts == old(backend.hosts)
    {
      ghost var blocks0 := backend.blocks;
      if newContentEntries != map[] {
        var id := WriteMapBlock(newContentEntries);
        assert id !in mapBlockIds && id !in contmapBlockIds;
        LoadMapUnaffected(blocks0, mapBlockIds, id, backend.blocks[id]);
        LoadMapUnaffected(blocks0, contmapBlockIds, id, backend.blocks[id]);
        LoadMapAppend(backend.blocks, contmapBlockIds, id);
        contmapBlockIds := contmapBlockIds + [id];
        newContentEntries := map[];
      } else {
        assert LoadMap(backend.blocks, contmapBlockIds) + old(newContentEntries) == LoadMap(backend.blocks, contmapBlockIds);
      }
    }

    /** Put the queued objects into one new block b and map each of their
        ids to it. */
    method FlushQueue() returns (b: string)
      requires Valid()
      modifies this, backend
      ensures Valid()
      ensures queue == []
      ensures old(queue) != [] ==> b !in old(backend.blocks) && backend.blocks == old(backend.blocks)[b := ObjectItems(old(queue))]
      ensures old(queue) == [] ==> backend.blocks == old(backend.blocks)
      ensures newObjectEntries == old(newObjectEntries) + IdsTo(old(queue), b)
      ensures objectMap == old(objectMap) + IdsTo(old(queue), b)
      ensures contentMap == old(contentMap) && newContentEntries == old(newContentEntries)
      ensures mapBlockIds == old(mapBlockIds) && contmapBlockIds == old(contmapBlockIds)
      ensures hostBlock == old(hostBlock) && backend.hosts == old(backend.hosts)
    {
      b := "";
      if queue == [] {
        assert newObjectEntries + IdsTo(queue, b) == newObjectEntries;
        assert objectMap + IdsTo(queue, b) == objectMap;
        return;
      }
      var objs := queue;
      b := backend.GenerateBlockId();
      backend.UploadBlock(b, ObjectItems(objs));
      ghost var blocks, hosts, issued := backend.blocks, backend.hosts, backend.issued;
      ghost var entries0, map0 := newObjectEntries, objectMap;
      for i := 0 to |objs|
        invariant backend.blocks == blocks && backend.hosts == hosts && backend.issued == issued
        invariant Refers(HostRecord([], mapBlockIds, contmapBlockIds), backend.blocks)
        invariant newObjectEntries == entries0 + IdsTo(objs[..i], b)
        invariant objectMap == map0 + IdsTo(objs[..i], b)
        invariant contentMap == old(contentMap) && newContentEntries == old(newContentEntries)
        invariant mapBlockIds == old(mapBlockIds) && contmapBlockIds == old(contmapBlockIds)
        invariant hostBlock == old(hostBlock) && queue == objs
      {
        IdsToStep(entries0, objs, i, b);
        IdsToStep(map0, objs, i, b);
        AddObjectEntry(objs[i].id, b);
      }
      assert objs[..|objs|] == objs;
      queue := [];
    }

    /** commit_host_block: write out the queued objects (into the block
        objectBlock) and the new map entries, then upload and keep in memory
        a NEW host block whose generations are the old ones followed by
        newGenIds and which lists the store's map blocks. Every object
        queued before can then be found through those map blocks; no older
        block and no other host's record changes. */
    method CommitHostBlock(newGenIds: seq<string>) returns (ghost objectBlock: string)
      requires Valid() && hostBlock != null
      modifies this, backend
      ensures Valid()
      ensures hostBlock != null && fresh(hostBlock) && hostBlock.hostId == hostId
      ensures hostBlock.genIds == old(hostBlock.genIds) + newGenIds
      ensures hostBlock.mapBlockIds == mapBlockIds && hostBlock.contmapBlockIds == contmapBlockIds
      ensures backend.hosts == old(backend.hosts)[hostId := HostRecord(hostBlock.genIds, mapBlockIds, contmapBlockIds)]
      ensures KeepsBlocks(old(backend.blocks), backend.blocks)
      ensures old(queue) != [] ==> objectBlock !in old(backend.blocks) && objectBlock in backend.blocks &&
                                   backend.blocks[objectBlock] == ObjectItems(old(queue))
      ensures queue == [] && newObjectEntries == map[] && newContentEntries == map[]
      ensures objectMap == old(objectMap) + IdsTo(old(queue), objectBlock)
      ensures contentMap == old(contentMap)
      ensures LoadMap(backend.blocks, mapBlockIds) ==
        LoadMap(old(backend.blocks), old(mapBlockIds)) + (old(newObjectEntries) + IdsTo(old(queue), objectBlock))
      ensures LoadMap(backend.blocks, contmapBlockIds) ==
        LoadMap(old(backend.blocks), old(contmapBlockIds)) + old(newContentEntries)
      ensures forall o :: o in old(queue) ==>
        Retrieve(backend.blocks, LoadMap(backend.blocks, mapBlockIds), o.id).Some?
    {
      var oldGenIds := hostBlock.genIds;
      var objs := queue;
      ghost var blocks0, mapIds0, contIds0 := backend.blocks, mapBlockIds, contmapBlockIds;
      ghost var entries0, contEntries0 := newObjectEntries, newContentEntries;
      var b := FlushQueue();
      objectBlock := b;
      ghost var pending := newObjectEntries;
      ghost var flushed := backend.blocks;
      FlushKeepsMaps(blocks0, flushed, mapIds0, contIds0, objs, b);
      UpdateMaps();
      ghost var blocks2 := backend.blocks;
      ghost var loaded := LoadMap(blocks2, mapBlockIds);
      ghost var contLoaded := LoadMap(blocks2, contmapBlockIds);
      assert loaded == LoadMap(blocks0, mapIds0) + pending;
      assert contLoaded == LoadMap(blocks0, contIds0);
      UpdateContentMaps();
      assert LoadMap(backend.blocks, mapBlockIds) == loaded;
      assert LoadMap(backend.blocks, contmapBlockIds) == contLoaded + contEntries0;
      KeepsTransitive(blocks0, flushed, blocks2, backend.blocks);
      var record := HostRecord(oldGenIds + newGenIds, mapBlockIds, contmapBlockIds);
      backend.UploadHostBlock(hostId, record);
      hostBlock := new HostBlock(hostId, record);
      forall o | o in objs
        ensures Retrieve(backend.blocks, loaded, o.id).Some?
      {
        IdsToMaps(objs, b, o);
        assert pending[o.id] == b;
        assert loaded[o.id] == b;
        assert backend.blocks[b] == flushed[b] == ObjectItems(objs);
        ObjectItemsFind(objs, o);
      }
    }

    /** get_object: the object the object map leads to; an id the map does
        not know is an error. */
    function GetObject(id: string): (r: Result<Obj, StoreError>)
      reads this, backend
      ensures r.Err? <==> Retrieve(backend.blocks, objectMap, id).None?
      ensures r.Err? ==> r.error == ObjectNotFound(id)
      ensures r.Ok? ==> r.value.id == id && id in objectMap && objectMap[id] in backend.blocks &&
                        ObjectItem(r.value) in backend.blocks[objectMap[id]]
    {
      match Retrieve(backend.blocks, objectMap, id)
      case None => Err(ObjectNotFound(id))
      case Some(o) => Ok(o)
    }
  }

  // ---------------------------------------------------------------------
  // The test scenarios, as client methods
  // ---------------------------------------------------------------------

  /** A new store has no host block; after fetching on an empty backend the
      host block has the host id and empty generation, map and content-map
      lists. */
  method CreatesNewHostBlock(hostId: string)
    returns (before: HostBlock?, after: HostBlock)
    ensures before == null
    ensures after.hostId == hostId && after.genIds == [] && after.mapBlockIds == [] && after.contmapBlockIds == []
  {
    var backend := new Backend.Empty();
    var store := new Store(backend, hostId);
    before := store.hostBlock;
    store.FetchHostBlock();
    after := store.hostBlock;
  }

  /** A host block uploaded earlier is what fetch returns. */
  method LoadsExistingHostBlock(hostId: string) returns (genIds: seq<string>)
    ensures genIds == ["pink", "pretty"]
  {
    var backend := new Backend.Empty();
    backend.UploadHostBlock(hostId, HostRecord(["pink", "pretty"], [], []));
    var store := new Store(backend, hostId);
    store.FetchHostBlock();
    genIds := store.hostBlock.genIds;
  }

  /** Commit replaces the host block in memory by a different object, and a
      second store on the same backend then finds one. */
  method ReplacesHostBlockInMemory(hostId: string) returns (same: bool, found: bool)
    ensures !same && found
  {
    var backend := new Backend.Empty();
    var store := new Store(backend, hostId);
    store.FetchHostBlock();
    var host := store.hostBlock;
    ghost var objectBlock := store.CommitHostBlock([]);
    same := store.hostBlock == host;
    var store2 := new Store(backend, hostId);
    store2.FetchHostBlock();
    found := store2.hostBlock != null;
  }

  /** A fresh store: getting an object nobody stored in it is an
      error; after the object is queued and the host block committed, the
      uploaded host block's map blocks lead to it. */
  method CommitsQueuedObject(backend: Backend, hostId: string, o: Obj) returns (missing: Result<Obj, StoreError>)
    requires backend.Valid()
    modifies backend
    ensures backend.Valid()
    ensures missing == Err(ObjectNotFound("pink"))
    ensures hostId in backend.hosts
    ensures Retrieve(backend.blocks, LoadMap(backend.blocks, backend.hosts[hostId].mapBlockIds), o.id).Some?
  {
    var store := new Store(backend, hostId);
    missing := store.GetObject("pink");
    store.FetchHostBlock();
    store.QueueObject(o);
    ghost var objectBlock := store.CommitHostBlock([]);
  }

  /** An object queued and committed by one store is found by a fresh store
      after fetch and load_maps. */
  method AddsObjectToStore(hostId: string, o: Obj) returns (missing: Result<Obj, StoreError>, r: Result<Obj, StoreError>)
    ensures missing == Err(ObjectNotFound("pink"))
    ensures r.Ok? && r.value.id == o.id
  {
    var backend := new Backend.Empty();
    missing := CommitsQueuedObject(backend, hostId, o);
    var store2 := new Store(backend, hostId);
    store2.FetchHostBlock();
    store2.LoadMaps();
    r := store2.GetObject(o.id);
  }

  /** The setting of the map tests: a backend whose host block lists one
      map block holding pink -> pretty and one content-map block holding
      black -> beautiful. */
  method SeedMaps(hostId: string) returns (backend: Backend)
    ensures fresh(backend) && backend.Valid() && hostId in backend.hosts
    ensures LoadMap(backend.blocks, backend.hosts[hostId].mapBlockIds) == map["pink" := "pretty"]
    ensures LoadMap(backend.blocks, backend.hosts[hostId].contmapBlockIds) == map["black" := "beautiful"]
  {
    backend := new Backend.Empty();
    var mapId := backend.GenerateBlockId();
    backend.UploadBlock(mapId, [MapEntry("pink", "pretty")]);
    var contmapId := backend.GenerateBlockId();
    backend.UploadBlock(contmapId, [MapEntry("black", "beautiful")]);
    backend.UploadHostBlock(hostId, HostRecord([], [mapId], [contmapId]));
    EntriesAppend([], "pink", "pretty");
    EntriesAppend([], "black", "beautiful");
    LoadMapAppend(backend.blocks, [], mapId);
    LoadMapAppend(backend.blocks, [], contmapId);
  }

  /** A fetched store has no map entries until it loads the maps; loading
      brings in the one persisted entry of each. */
  method MapCountsOnLoad(hostId: string)
    returns (unloaded: nat, loaded: nat, contentUnloaded: nat, contentLoaded: nat)
    ensures unloaded == 0 && loaded == 1 && contentUnloaded == 0 && contentLoaded == 1
  {
    var backend := SeedMaps(hostId);
    var store := new Store(backend, hostId);
    store.FetchHostBlock();
    unloaded := |store.objectMap|;
    contentUnloaded := |store.contentMap|;
    store.LoadMaps();
    loaded := |store.objectMap|;
    store.LoadContentMaps();
    contentLoaded := |store.contentMap|;
  }

  /** Updating the maps leaves the in-memory entry count as it was: zero
      without changes, one after adding an entry. */
  method MapCountsOnUpdate(hostId: string)
    returns (untouched: nat, added: nat, contentUntouched: nat, contentAdded: nat)
    ensures untouched == 0 && added == 1 && contentUntouched == 0 && contentAdded == 1
  {
    var backend := SeedMaps(hostId);
    var store := new Store(backend, hostId);
    store.FetchHostBlock();
    store.UpdateMaps();
    untouched := |store.objectMap|;
    store.UpdateContentMaps();
    contentUntouched := |store.contentMap|;

    var other := new Store(backend, hostId);
    other.FetchHostBlock();
    other.AddObjectEntry("pink", "pretty");
    other.UpdateMaps();
    added := |other.objectMap|;
    other.AddContentEntry("pink", "pretty");
    other.UpdateContentMaps();
    contentAdded := |other.contentMap|;
  }

  // ---------------------------------------------------------------------
  // parse_pathname and the lookups
  // ---------------------------------------------------------------------

  /** Position of the first '/' in s, or |s|. */
  function SlashIndex(s: string): (i: nat)
    ensures i <= |s| && '/' !in s[..i] && (i < |s| ==> s[i] == '/')
  {
    if s == [] then 0
    else if s[0] == '/' then 0
    else
      var j := SlashIndex(s[1..]);
      assert s[..j + 1] == [s[0]] + s[1..][..j];
      j + 1
  }

  /** The non-empty parts of s between slashes. */
  function Components(s: string): (parts: seq<string>)
    ensures forall i :: 0 <= i < |parts| ==> parts[i] != "" && '/' !in parts[i]
    decreases |s|
  {
    if s == [] then []
    else
      var i := SlashIndex(s);
      (if i == 0 then [] else [s[..i]]) + (if i == |s| then [] else Components(s[i + 1..]))
  }

  /** parse_pathname: the parts of a pathname, with "/" first for an
      absolute one; a trailing slash adds nothing. */
  function ParsePathname(pathname: string): (parts: seq<string>)
    ensures forall i :: 0 <= i < |parts| ==> parts[i] != ""
    ensures |pathname| > 0 && pathname[0] == '/' <==> |parts| > 0 && parts[0] == "/"
    ensures forall i :: 0 <= i < |parts| && parts[i] != "/" ==> '/' !in parts[i]
  {
    if |pathname| > 0 && pathname[0] == '/' then ["/"] + Components(pathname[1..])
    else
      var parts := Components(pathname);
      assert |parts| > 0 ==> '/' !in parts[0];
      parts
  }

  /** Parts joined with '/'. */
  function Join(parts: seq<string>): string
  {
    if parts == [] then ""
    else if |parts| == 1 then parts[0]
    else parts[0] + "/" + Join(parts[1..])
  }

  /** A pathname built from parts: absolute when the first part is "/". */
  function PathnameOf(parts: seq<string>): string
  {
    if |parts| > 0 && parts[0] == "/" then "/" + Join(parts[1..]) else Join(parts)
  }

  predicate ProperPart(p: string)
  {
    p != "" && '/' !in p
  }

  lemma SlashIndexAfterPart(a: string, b: string)
    requires '/' !in a
    ensures SlashIndex(a + "/" + b) == |a|
    ensures SlashIndex(a) == |a|
  {
    var s := a + "/" + b;
    var i := SlashIndex(s);
    assert s[|a|] == '/';
  }

  lemma {:induction false} ComponentsOfJoin(parts: seq<string>)
    requires forall i :: 0 <= i < |parts| ==> ProperPart(parts[i])
    ensures Components(Join(parts)) == parts
    ensures |parts| > 0 ==> Join(parts)[0] == parts[0][0]
  {
    if |parts| == 1 {
      SlashIndexAfterPart(parts[0], "");
      assert Join(parts)[..|parts[0]|] == parts[0];
    } else if |parts| >= 2 {
      var a := parts[0];
      var rest := Join(parts[1..]);
      var s := a + "/" + rest;
      assert Join(parts) == s;
      SlashIndexAfterPart(a, rest);
      assert s[..|a|] == a;
      assert s[|a| + 1..] == rest;
      ComponentsOfJoin(parts[1..]);
    }
  }

  /** parse_pathname inverts the joining of proper parts. */
  lemma ParsePathnameOfPathname(parts: seq<string>)
    requires forall i :: 0 <= i < |parts| ==> ProperPart(parts[i]) || (i == 0 && parts[i] == "/")
    ensures ParsePathname(PathnameOf(parts)) == parts
  {
    if |parts| > 0 && parts[0] == "/" {
      ParsePathnameOfAbsolute(parts[1..]);
      assert parts == ["/"] + parts[1..];
    } else {
      ComponentsOfJoin(parts);
    }
  }

  lemma ParsePathnameOfAbsolute(rest: seq<string>)
    requires forall i :: 0 <= i < |rest| ==> ProperPart(rest[i])
    ensures ParsePathname("/" + Join(rest)) == ["/"] + rest
  {
    ComponentsOfJoin(rest);
    assert ("/" + Join(rest))[1..] == Join(rest);
  }

  lemma ParsePathnameExamples()
    ensures ParsePathname("/") == ["/"]
    ensures ParsePathname(".") == ["."]
    ensures ParsePathname("foo") == ["foo"]
    ensures ParsePathname("foo/bar") == ["foo", "bar"]
    ensures ParsePathname("/foo/bar") == ["/", "foo", "bar"]
  {
    assert PathnameOf(["/"]) == "/";
    ParsePathnameOfPathname(["/"]);
    ParsePathnameOfPathname(["."]);
    ParsePathnameOfPathname(["foo"]);
    assert PathnameOf(["foo", "bar"]) == "foo/bar";
    ParsePathnameOfPathname(["foo", "bar"]);
    assert PathnameOf(["/", "foo", "bar"]) == "/foo/bar";
    ParsePathnameOfPathname(["/", "foo", "bar"]);
  }

  lemma {:induction false} ComponentsOfJoinSlash(parts: seq<string>)
    requires forall i :: 0 <= i < |parts| ==> ProperPart(parts[i])
    ensures Components(Join(parts) + "/") == parts
  {
    if |parts| == 0 {
      assert SlashIndex("/") == 0;
    } else {
      var a := parts[0];
      var rest := if |parts| == 1 then "" else Join(parts[1..]) + "/";
      var s := a + "/" + rest;
      assert Join(parts) + "/" == s;
      SlashIndexAfterPart(a, rest);
      assert s[..|a|] == a;
      assert s[|a| + 1..] == rest;
      if |parts| > 1 {
        ComponentsOfJoinSlash(parts[1..]);
      }
    }
  }

  /** A trailing slash adds no empty part. */
  lemma ParsePathnameTrailingSlash(parts: seq<string>)
    requires |parts| > 0
    requires forall i :: 0 <= i < |parts| ==> ProperPart(parts[i]) || (i == 0 && parts[i] == "/")
    ensures ParsePathname(PathnameOf(parts) + "/") == parts
  {
    if parts[0] == "/" {
      AbsoluteTrailingSlash(parts[1..]);
      assert PathnameOf(parts) + "/" == "/" + (Join(parts[1..]) + "/");
      assert parts == ["/"] + parts[1..];
    } else {
      ComponentsOfJoinSlash(parts);
    }
  }

  lemma AbsoluteTrailingSlash(rest: seq<string>)
    requires forall i :: 0 <= i < |rest| ==> ProperPart(rest[i])
    ensures ParsePathname("/" + (Join(rest) + "/")) == ["/"] + rest
  {
    ComponentsOfJoinSlash(rest);
    var tail := Join(rest) + "/";
    assert ("/" + tail)[1..] == tail;
  }

  lemma ParsePathnameTrailingSlashExample()
    ensures ParsePathname("foo/bar/") == ["foo", "bar"]
  {
    var parts := ["foo", "bar"];
    assert ProperPart(parts[0]) && ProperPart(parts[1]);
    assert Join(parts) + "/" == "foo/bar/";
    ComponentsOfJoinSlash(parts);
  }

  /** A directory of a generation: its name, subdirectories and files. */
  datatype Dir = Dir(name: string, dirs: seq<Dir>, files: seq<string>)

  /** A GenerationObject, reduced to its backup roots and top-level files. */
  datatype Generation = Generation(roots: seq<Dir>, files: seq<string>)

  /** The first directory with the given name. */
  function FindDir(dirs: seq<Dir>, name: string): (r: Option<Dir>)
    ensures r.Some? <==> exists i :: 0 <= i < |dirs| && dirs[i].name == name
    ensures r.Some? ==> r.value.name == name && r.value in dirs
  {
    if dirs == [] then None
    else if dirs[0].name == name then Some(dirs[0])
    else
      var r := FindDir(dirs[1..], name);
      assert forall i :: 0 < i < |dirs| ==> dirs[i] == dirs[1..][i - 1];
      r
  }

  /** Follow the parts down from a list of directories. */
  function Walk(dirs: seq<Dir>, parts: seq<string>): (r: Option<Dir>)
    ensures r.Some? ==> |parts| > 0 && r.value.name == parts[|parts| - 1]
    decreases |parts|
  {
    if parts == [] then None
    else
      match FindDir(dirs, parts[0])
      case None => None
      case Some(d) => if |parts| == 1 then Some(d) else Walk(d.dirs, parts[1..])
  }

  /** lookup_dir: the directory a pathname names in a generation, or None. */
  function LookupDir(gen: Generation, pathname: string): (r: Option<Dir>)
    ensures r.Some? ==> |ParsePathname(pathname)| > 0 && r.value.name == ParsePathname(pathname)[|ParsePathname(pathname)| - 1]
  {
    Walk(gen.roots, ParsePathname(pathname))
  }

  /** lookup_file: the file a pathname names in a generation, or None. */
  function LookupFile(gen: Generation, pathname: string): (r: Option<string>)
    ensures r.Some? ==> |ParsePathname(pathname)| > 0 && r.value == ParsePathname(pathname)[|ParsePathname(pathname)| - 1]
  {
    var parts := ParsePathname(pathname);
    if parts == [] then None
    else
      var name := parts[|parts| - 1];
      var files := if |parts| == 1 then Some(gen.files)
                   else match Walk(gen.roots, parts[..|parts| - 1])
                        case None => None
                        case Some(d) => Some(d.files);
      if files.Some? && name in files.value then Some(name) else None
  }

  /** A directory is found only below a directory that is found. */
  lemma {:induction false} WalkPrefix(dirs: seq<Dir>, parts: seq<string>, name: string)
    requires Walk(dirs, parts + [name]).Some? && parts != []
    ensures Walk(dirs, parts).Some?
  {
    var d := FindDir(dirs, parts[0]).value;
    assert (parts + [name])[0] == parts[0];
    if |parts| > 1 {
      assert (parts + [name])[1..] == parts[1..] + [name];
      WalkPrefix(d.dirs, parts[1..], name);
    }
  }

  /** A name that no backup root has is not found, as a directory or as a
      file below one. */
  lemma LookupOfMissingName(gen: Generation, name: string)
    requires ProperPart(name)
    requires forall i :: 0 <= i < |gen.roots| ==> gen.roots[i].name != name
    requires name !in gen.files
    ensures LookupDir(gen, name) == None
    ensures LookupFile(gen, name) == None
  {
    ParsePathnameOfPathname([name]);
  }

  /** A relative pathname of proper parts is looked up by walking exactly
      those parts down from the backup roots. */
  lemma LookupDirOfJoin(gen: Generation, parts: seq<string>)
    requires forall i :: 0 <= i < |parts| ==> ProperPart(parts[i])
    ensures LookupDir(gen, Join(parts)) == Walk(gen.roots, parts)
  {
    ParsePathnameOfPathname(parts);
    assert PathnameOf(parts) == Join(parts);
  }

  /** The backup root and its first and second subdirectory are found by
      their relative pathnames. */
  lemma LookupFindsSubdirs(gen: Generation, root: Dir, dir1: Dir, dir2: Dir)
    requires ProperPart(root.name) && ProperPart(dir1.name) && ProperPart(dir2.name)
    requires gen.roots == [root] && root.dirs == [dir1] && dir1.dirs == [dir2]
    ensures LookupDir(gen, root.name) == Some(root)
    ensures LookupDir(gen, root.name + "/" + dir1.name) == Some(dir1)
    ensures LookupDir(gen, root.name + "/" + dir1.name + "/" + dir2.name) == Some(dir2)
  {
    var one, two, three := [root.name], [root.name, dir1.name], [root.name, dir1.name, dir2.name];
    LookupDirOfJoin(gen, one);
    LookupDirOfJoin(gen, two);
    LookupDirOfJoin(gen, three);
    JoinThree(root.name, dir1.name, dir2.name);
    WalkStep(gen.roots, two, root);
    WalkStep(gen.roots, three, root);
    WalkStep(root.dirs, three[1..], dir1);
    assert two[1..] == [dir1.name] && three[1..][1..] == [dir2.name];
  }

  lemma JoinThree(a: string, b: string, c: string)
    ensures Join([a, b]) == a + "/" + b
    ensures Join([a, b, c]) == a + "/" + b + "/" + c
  {
    assert [a, b][1..] == [b];
    assert [a, b, c][1..] == [b, c];
    assert [b, c][1..] == [c];
    assert Join([b, c]) == b + "/" + c;
    assert a + "/" + (b + "/" + c) == a + "/" + b + "/" + c;
  }

  lemma WalkStep(dirs: seq<Dir>, parts: seq<string>, d: Dir)
    requires |parts| >= 2 && |dirs| >= 1 && dirs[0] == d && d.name == parts[0]
    ensures Walk(dirs, parts) == Walk(d.dirs, parts[1..])
  {
  }
}
