/** The bounded cache of one export batch and the passes that fill it ahead of the records
(internal/archive/store.go). */
module BoundedCache {
  import opened Types

  const CACHE_BYTES := 16 * 1024 * 1024
  const ENTRY_BYTES := 1024 * 1024
  const BATCH_SIZE := 128

  /** A row of the blobs table. `rawSize` is whatever was written there. */
  datatype BlobRow = BlobRow(rawSize: int, data: Bytes)

  function Contents(table: map<Hash, BlobRow>): Store {
    map h | h in table :: table[h].data
  }

  predicate CanStore(cacheBytes: int, entryBytes: int) {
    entryBytes <= ENTRY_BYTES && cacheBytes + entryBytes <= CACHE_BYTES
  }

  // ----- The size of a cache -----

  ghost function TotalBytes(values: Store): nat
    decreases |values|
  {
    if values == map[] then 0
    else
      var h :| h in values;
      assert |values - {h}| < |values| by { assert (values - {h}).Keys == values.Keys - {h}; }
      |values[h]| + TotalBytes(values - {h})
  }

  lemma {:induction false} TotalSplit(values: Store, h: Hash)
    requires h in values
    ensures TotalBytes(values) == |values[h]| + TotalBytes(values - {h})
    decreases |values|
  {
    var g :| g in values && TotalBytes(values) == |values[g]| + TotalBytes(values - {g});
    if g != h {
      assert (values - {g}).Keys == values.Keys - {g};
      TotalSplit(values - {g}, h);
      assert (values - {h}).Keys == values.Keys - {h};
      TotalSplit(values - {h}, g);
      assert values - {g} - {h} == values - {h} - {g};
    }
  }

  lemma TotalAdd(values: Store, h: Hash, data: Bytes)
    requires h !in values
    ensures TotalBytes(values[h := data]) == TotalBytes(values) + |data|
  {
    TotalSplit(values[h := data], h);
    assert values[h := data] - {h} == values;
  }

  /** The blobs of the store under the given hashes. */
  ghost function Part(store: Store, keys: set<Hash>): Store {
    map h | h in store && h in keys :: store[h]
  }

  lemma PartAdd(store: Store, keys: set<Hash>, h: Hash)
    requires h in store && h !in keys
    ensures Part(store, keys + {h}) == Part(store, keys)[h := store[h]]
    ensures TotalBytes(Part(store, keys + {h})) == TotalBytes(Part(store, keys)) + |store[h]|
  {
    assert Part(store, keys + {h}) == Part(store, keys)[h := store[h]];
    TotalAdd(Part(store, keys), h, store[h]);
  }

  lemma {:induction false} PartGrows(store: Store, few: set<Hash>, many: set<Hash>)
    requires few <= many
    ensures TotalBytes(Part(store, few)) <= TotalBytes(Part(store, many))
    decreases |many - few|
  {
    if h :| h in many && h !in few {
      assert (many - few) - {h} == many - (few + {h});
      PartGrows(store, few + {h}, many);
      if h in store {
        PartAdd(store, few, h);
      } else {
        assert Part(store, few + {h}) == Part(store, few);
      }
    } else {
      assert few == many;
    }
  }

  /** Everything under these hashes fits the cache with room to spare, and the table's size
      column tells the truth about it. */
  ghost predicate Roomy(table: map<Hash, BlobRow>, room: set<Hash>) {
    && (forall h | h in room && h in table :: table[h].rawSize == |table[h].data| <= ENTRY_BYTES)
    && TotalBytes(Part(Contents(table), room)) < CACHE_BYTES
  }

  lemma FitsOne(table: map<Hash, BlobRow>, room: set<Hash>, keys: set<Hash>, h: Hash, reserved: int)
    requires Roomy(table, room) && keys <= room && h in room && h in table && h !in keys
    requires reserved == TotalBytes(Part(Contents(table), keys))
    ensures CanStore(reserved, |table[h].data|)
    ensures reserved + |table[h].data| == TotalBytes(Part(Contents(table), keys + {h}))
  {
    PartAdd(Contents(table), keys, h);
    PartGrows(Contents(table), keys + {h}, room);
  }

  ghost function HashSet(hashes: seq<Hash>): set<Hash> {
    set h | h in hashes
  }

  ghost predicate ListedOnce(hashes: seq<Hash>) {
    forall i, j | 0 <= i < j < |hashes| :: hashes[i] != hashes[j]
  }

  lemma ListedMore(hashes: seq<Hash>, h: Hash)
    ensures HashSet(hashes + [h]) == HashSet(hashes) + {h}
    ensures ListedOnce(hashes) && h !in HashSet(hashes) ==> ListedOnce(hashes + [h])
  {
  }

  lemma NextListed(hashes: seq<Hash>, i: nat)
    requires i < |hashes|
    ensures HashSet(hashes[..i + 1]) == HashSet(hashes[..i]) + {hashes[i]} && hashes[i] in HashSet(hashes)
    ensures ListedOnce(hashes) ==> hashes[i] !in HashSet(hashes[..i])
  {
    assert hashes[..i + 1] == hashes[..i] + [hashes[i]];
  }

  /** The next chunk of a list of hashes. */
  lemma ChunkOf(hashes: seq<Hash>, done: nat, end: nat, chunk: set<Hash>)
    requires done + end <= |hashes| && chunk == set h | h in hashes[done..][..end] && h != ""
    ensures chunk <= HashSet(hashes)
    ensures "" !in hashes ==> HashSet(hashes[..done + end]) == HashSet(hashes[..done]) + chunk
    ensures HashSet(hashes[..done]) + chunk <= HashSet(hashes[..done + end])
    ensures ListedOnce(hashes) ==> HashSet(hashes[..done]) !! chunk
  {
    assert hashes[..done + end] == hashes[..done] + hashes[done..][..end];
    assert forall h | h in hashes[done..][..end] :: h in hashes;
  }

  /** The metadata pass so far: all rows seen are eligible and their sizes are reserved. */
  ghost predicate Reserved(table: map<Hash, BlobRow>, keys: set<Hash>, seen: set<Hash>, eligible: set<Hash>,
                           reserved: int) {
    eligible == seen && reserved == TotalBytes(Part(Contents(table), keys + seen))
  }

  lemma ReserveOne(table: map<Hash, BlobRow>, room: set<Hash>, keys: set<Hash>, seen: set<Hash>, eligible: set<Hash>,
                   reserved: int, h: Hash)
    requires Roomy(table, room) && keys + seen <= room && Reserved(table, keys, seen, eligible, reserved)
    requires h in room && h in table && h !in keys + seen
    ensures 0 <= table[h].rawSize <= ENTRY_BYTES && CanStore(reserved, table[h].rawSize)
    ensures Reserved(table, keys, seen + {h}, eligible + {h}, reserved + table[h].rawSize)
  {
    FitsOne(table, room, keys + seen, h, reserved);
    assert keys + seen + {h} == keys + (seen + {h});
  }

  // ----- The cache -----

  class Cache {
    var values: Store
    var bytes: int

    constructor ()
      ensures values == map[] && bytes == 0
    {
      values, bytes := map[], 0;
    }

    /** Bounded and never different from the table; never counted too low. */
    ghost predicate Sound(store: Store)
      reads this
    {
      && TotalBytes(values) <= bytes <= CACHE_BYTES
      && forall h | h in values :: Load(store, h) == Some(values[h]) && |values[h]| <= ENTRY_BYTES
    }

    /** Counted exactly, too. */
    ghost predicate Valid(store: Store)
      reads this
    {
      Sound(store) && bytes == TotalBytes(values)
    }

    /** The cache holds just the table's blobs under some of `room`, all of which fits. */
    ghost predicate Snug(table: map<Hash, BlobRow>, room: set<Hash>)
      reads this
    {
      && Roomy(table, room) && values.Keys <= room
      && values == Part(Contents(table), values.Keys) && bytes == TotalBytes(values)
    }

    /** Admission by length. A hash admitted twice is counted twice. */
    method Remember(h: Hash, data: Bytes, ghost store: Store)
      requires Sound(store) && Load(store, h) == Some(data)
      modifies this
      ensures Sound(store) && (old(Valid(store)) && h !in old(values) ==> Valid(store))
      ensures values == if CanStore(old(bytes), |data|) then old(values)[h := data] else old(values)
      ensures bytes == if CanStore(old(bytes), |data|) then old(bytes) + |data| else old(bytes)
    {
      if CanStore(bytes, |data|) {
        if h !in values {
          TotalAdd(values, h, data);
        } else {
          assert values[h := data] == values;
        }
        values := values[h := data];
        bytes := bytes + |data|;
      }
    }

    /** The load closure of loadPayloadWithCache. */
    method LoadBlob(h: Hash, store: Store) returns (r: Option<Bytes>)
      requires Valid(store)
      modifies this
      ensures Valid(store) && r == Load(store, h)
    {
      if h in values {
        return Some(values[h]);
      }
      r := Load(store, h);
      if r.Some? {
        Remember(h, r.value, store);
      }
    }

    /** The metadata pass: which rows claim to fit. */
    method Eligible(table: map<Hash, BlobRow>, chunk: set<Hash>, ghost room: set<Hash>) returns (eligible: seq<Hash>)
      ensures ListedOnce(eligible) && HashSet(eligible) <= chunk * table.Keys
      ensures Snug(table, room) && chunk * table.Keys <= room && chunk !! values.Keys ==>
                HashSet(eligible) == chunk * table.Keys
    {
      var found := ListRows(chunk * table.Keys);
      eligible := EligibleRows(table, found, room, values.Keys);
    }

    /** `found` are the rows of the query, in whatever order it returns them. */
    method EligibleRows(table: map<Hash, BlobRow>, found: seq<Hash>, ghost room: set<Hash>, ghost keys: set<Hash>)
      returns (eligible: seq<Hash>)
      requires ListedOnce(found) && HashSet(found) <= table.Keys && keys == values.Keys
      ensures ListedOnce(eligible) && HashSet(eligible) <= HashSet(found)
      ensures Snug(table, room) && HashSet(found) <= room && HashSet(found) !! keys ==>
                HashSet(eligible) == HashSet(found)
    {
      var reserved := bytes;
      ghost var fits := Snug(table, room) && HashSet(found) <= room && HashSet(found) !! keys;
      eligible := [];
      assert keys + {} == keys && HashSet(found[..0]) == {} && HashSet([]) == {};
      for i := 0 to |found|
        invariant ListedOnce(eligible) && HashSet(eligible) <= HashSet(found[..i])
        invariant fits ==> Reserved(table, keys, HashSet(found[..i]), HashSet(eligible), reserved)
      {
        NextListed(found, i);
        PrefixHashes(found, i);
        ListedMore(eligible, found[i]);
        if fits { ReserveOne(table, room, keys, HashSet(found[..i]), HashSet(eligible), reserved, found[i]); }
        var size := table[found[i]].rawSize;
        if 0 <= size <= ENTRY_BYTES && CanStore(reserved, size) {
          eligible, reserved := eligible + [found[i]], reserved + size;
        }
      }
      assert found[..|found|] == found;
    }

    /** The data pass so far, from a cache with the keys `before`: `seen` are the rows it met. */
    ghost predicate Admitting(table: map<Hash, BlobRow>, room: set<Hash>, before: set<Hash>, seen: set<Hash>,
                              exact: bool, snug: bool)
      reads this
    {
      && Sound(Contents(table)) && before <= values.Keys <= before + seen
      && (exact ==> bytes == TotalBytes(values))
      && (snug ==> Snug(table, room) && values.Keys == before + seen)
    }

    lemma AdmitStart(table: map<Hash, BlobRow>, room: set<Hash>, exact: bool, snug: bool)
      requires Sound(Contents(table))
      requires (exact ==> Valid(Contents(table))) && (snug ==> Snug(table, room))
      ensures Admitting(table, room, values.Keys, {}, exact, snug)
    {
      assert values.Keys + {} == values.Keys;
    }

    /** One row of the data pass. */
    method AdmitRow(table: map<Hash, BlobRow>, h: Hash, ghost room: set<Hash>, ghost before: set<Hash>,
                    ghost seen: set<Hash>, ghost exact: bool, ghost snug: bool)
      requires Admitting(table, room, before, seen, exact, snug) && h in table && h != "" && h !in seen
      requires exact || snug ==> h !in before
      requires snug ==> h in room
      modifies this
      ensures Admitting(table, room, before, seen + {h}, exact, snug)
    {
      if snug {
        FitsOne(table, room, values.Keys, h, bytes);
        PartAdd(Contents(table), values.Keys, h);
      }
      Remember(h, table[h].data, Contents(table));
    }

    /** The data pass admits by the actual length, so the bounds hold whatever raw_size said. */
    method Admit(table: map<Hash, BlobRow>, eligible: seq<Hash>, ghost room: set<Hash>, ghost exact: bool,
                 ghost snug: bool)
      requires Sound(Contents(table)) && ListedOnce(eligible)
      requires HashSet(eligible) <= table.Keys && "" !in HashSet(eligible)
      requires exact ==> Valid(Contents(table)) && HashSet(eligible) !! values.Keys
      requires snug ==> Snug(table, room) && HashSet(eligible) !! values.Keys && HashSet(eligible) <= room
      modifies this
      ensures Admitting(table, room, old(values.Keys), HashSet(eligible), exact, snug)
    {
      ghost var before := values.Keys;
      AdmitStart(table, room, exact, snug);
      assert HashSet(eligible[..0]) == {};
      for i := 0 to |eligible|
        invariant Admitting(table, room, before, HashSet(eligible[..i]), exact, snug)
      {
        NextListed(eligible, i);
        AdmitRow(table, eligible[i], room, before, HashSet(eligible[..i]), exact, snug);
      }
      assert eligible[..|eligible|] == eligible;
    }

    /** The two passes over one chunk. */
    method PrefetchChunk(table: map<Hash, BlobRow>, chunk: set<Hash>, ghost room: set<Hash>, ghost exact: bool,
                         ghost snug: bool)
      requires Sound(Contents(table)) && "" !in chunk
      requires exact ==> Valid(Contents(table)) && chunk !! values.Keys
      requires snug ==> Snug(table, room) && chunk !! values.Keys && chunk * table.Keys <= room
      modifies this
      ensures Sound(Contents(table)) && old(values.Keys) <= values.Keys <= old(values.Keys) + chunk
      ensures exact ==> Valid(Contents(table))
      ensures snug ==> Snug(table, room) && values.Keys == old(values.Keys) + chunk * table.Keys
    {
      var eligible := Eligible(table, chunk, room);
      Admit(table, eligible, room, exact, snug);
    }

    /** Hashes that are listed once, not empty and not cached. */
    ghost predicate AllNew(hashes: seq<Hash>)
      reads this
    {
      ListedOnce(hashes) && forall h | h in hashes :: h != "" && h !in values
    }

    /** The prefetch so far, from a cache with the keys `before`: `done` hashes are behind it. */
    ghost predicate Prefetching(table: map<Hash, BlobRow>, room: set<Hash>, before: set<Hash>, hashes: seq<Hash>,
                                done: nat,
                                exact: bool, snug: bool)
      requires done <= |hashes|
      reads this
    {
      && Sound(Contents(table)) && before <= values.Keys <= before + HashSet(hashes[..done])
      && (exact ==> bytes == TotalBytes(values))
      && (snug ==> Snug(table, room) && values.Keys == before + HashSet(hashes[..done]) * table.Keys)
    }

    method PrefetchNext(table: map<Hash, BlobRow>, hashes: seq<Hash>, done: nat, end: nat, ghost room: set<Hash>,
                        ghost before: set<Hash>, ghost exact: bool, ghost snug: bool)
      requires done + end <= |hashes| && Prefetching(table, room, before, hashes, done, exact, snug)
      requires exact || snug ==> ListedOnce(hashes) && "" !in hashes && HashSet(hashes) !! before
      requires snug ==> HashSet(hashes) * table.Keys <= room
      modifies this
      ensures Prefetching(table, room, before, hashes, done + end, exact, snug)
    {
      var chunk := set h | h in hashes[done..][..end] && h != "";
      ChunkOf(hashes, done, end, chunk);
      PrefetchChunk(table, chunk, room, exact, snug);
    }

    /** prefetchSmallBlobValues, for any list of hashes; a chunk drops repeats and empty hashes by
        itself. `exact` and `snug` are promises about the hashes that buy an exact count and a
        complete prefetch. */
    method PrefetchSmall(table: map<Hash, BlobRow>, hashes: seq<Hash>, ghost room: set<Hash>, ghost exact: bool,
                         ghost snug: bool)
      requires Sound(Contents(table))
      requires exact ==> Valid(Contents(table)) && AllNew(hashes)
      requires snug ==> Snug(table, room) && AllNew(hashes) && HashSet(hashes) * table.Keys <= room
      modifies this
      ensures Sound(Contents(table)) && old(values.Keys) <= values.Keys <= old(values.Keys) + HashSet(hashes)
      ensures exact ==> Valid(Contents(table))
      ensures snug ==> Snug(table, room) && values.Keys == old(values.Keys) + HashSet(hashes) * table.Keys
    {
      ghost var before := values.Keys;
      var done := 0;
      assert HashSet(hashes[..0]) == {} && hashes[..|hashes|] == hashes;
      while done < |hashes| && bytes < CACHE_BYTES
        invariant done <= |hashes| && Prefetching(table, room, before, hashes, done, exact, snug)
        decreases |hashes| - done
      {
        var end := if |hashes| - done > BATCH_SIZE then BATCH_SIZE else |hashes| - done;
        PrefetchNext(table, hashes, done, end, room, before, exact, snug);
        done := done + end;
      }
      PrefixHashes(hashes, done);
      if snug { SnugHasRoom(table, room); }
    }

    lemma SnugHasRoom(table: map<Hash, BlobRow>, room: set<Hash>)
      requires Snug(table, room)
      ensures bytes < CACHE_BYTES
    {
      PartGrows(Contents(table), values.Keys, room);
    }
  }

  method ListRows(all: set<Hash>) returns (rows: seq<Hash>)
    ensures ListedOnce(rows) && HashSet(rows) == all
  {
    var pending := all;
    rows := [];
    while pending != {}
      invariant pending <= all && ListedOnce(rows) && HashSet(rows) == all - pending
      decreases |pending|
    {
      var h :| h in pending;
      ListedMore(rows, h);
      rows, pending := rows + [h], pending - {h};
    }
  }

  lemma PrefixHashes(hashes: seq<Hash>, done: nat)
    requires done <= |hashes|
    ensures HashSet(hashes[..done]) <= HashSet(hashes)
  {
  }

  /** The bounds in bytes: 16 MiB for the cache, 1 MiB for an entry. */
  lemma BoundsInBytes(cache: Cache, store: Store)
    requires cache.Sound(store)
    ensures cache.bytes <= 16777216 && TotalBytes(cache.values) <= 16777216
    ensures forall h | h in cache.values :: |cache.values[h]| <= 1048576
  {
  }
}
