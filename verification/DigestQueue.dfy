/** The bounded queue of sessions whose digests a snapshot found missing
(internal/archive/snapshot.go). */
module DigestQueue {
  import opened Ordering

  class Queue {
    var queue: set<string>

    constructor ()
      ensures queue == {}
    {
      queue := {};
    }

    /** queueSessionExportDigests: in order, until the queue is full. Whatever a full queue
        turned away, the queue never exceeds its bound and never forgets. */
    method Enqueue(ids: seq<string>) returns (taken: nat)
      requires |queue| <= 10000
      modifies this
      ensures |queue| <= 10000 && taken <= |ids|
      ensures queue == old(queue) + Elements(ids[..taken])
      ensures taken < |ids| ==> |queue| == 10000
    {
      taken := 0;
      while taken < |ids|
        invariant taken <= |ids| && |queue| <= 10000
        invariant queue == old(queue) + Elements(ids[..taken])
      {
        if |queue| >= 10000 {
          return;
        }
        assert ids[..taken + 1] == ids[..taken] + [ids[taken]];
        queue := queue + {ids[taken]};
        taken := taken + 1;
      }
    }

    /** takeSessionExportDigests: the least `limit` ids leave the queue, in order. */
    method Take(limit: nat) returns (ids: seq<string>)
      modifies this
      ensures Ascending(TextLess, ids) && |ids| == if |old(queue)| < limit then |old(queue)| else limit
      ensures Elements(ids) <= old(queue) && queue == old(queue) - Elements(ids)
      ensures forall a, b | a in ids && b in queue :: TextLess(a, b)
    {
      var sorted := SortedIds(queue);
      var n := if |sorted| < limit then |sorted| else limit;
      ids := sorted[..n];
      CutAscending(sorted, n);
      queue := queue - (set x | x in ids);
    }
  }

  /** Cutting an ascending list in two splits its elements into smaller and larger ones. */
  lemma CutAscending(sorted: seq<string>, n: nat)
    requires n <= |sorted| && Ascending(TextLess, sorted)
    ensures Elements(sorted[..n]) <= Elements(sorted) && Ascending(TextLess, sorted[..n])
    ensures forall a, b | a in sorted[..n] && b in Elements(sorted) - Elements(sorted[..n]) :: TextLess(a, b)
  {
  }

  method SortedIds(queue: set<string>) returns (sorted: seq<string>)
    ensures Elements(sorted) == queue && Ascending(TextLess, sorted) && |sorted| == |queue|
  {
    var listed := ListIds(queue);
    TextTotal(queue);
    SortIsListing(TextLess, listed);
    sorted := Sort(TextLess, listed);
  }

  method ListIds(queue: set<string>) returns (ids: seq<string>)
    ensures Distinct(ids) && Elements(ids) == queue && |ids| == |queue|
  {
    ids := [];
    var pending := queue;
    while pending != {}
      invariant pending <= queue && Distinct(ids) && Elements(ids) == queue - pending
      invariant |ids| + |pending| == |queue|
      decreases |pending|
    {
      var id :| id in pending;
      assert id !in Elements(ids);
      assert Elements(ids + [id]) == Elements(ids) + {id};
      ids := ids + [id];
      pending := pending - {id};
    }
  }
}
