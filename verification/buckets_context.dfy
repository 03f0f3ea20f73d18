/**
 * The bucket store: the list of buckets (task categories) held by the
 * buckets provider, with append and remove by id. Tasks live in a store of
 * their own; removing a bucket does not touch them.
 */
module BucketsContext {
  import opened Seqs

  datatype Bucket = Bucket(id: string, name: string, tasksCount: int)

  /** The list after `removeBucket(id)`: the buckets with another id, in order. */
  function RemovedBuckets(buckets: seq<Bucket>, id: string): (r: seq<Bucket>)
    ensures forall b :: b in r <==> b in buckets && b.id != id
  {
    Filter(buckets, (b: Bucket) => b.id != id)
  }

  /** Removing an id no bucket has changes nothing. */
  lemma RemoveBucketAbsentIsNoOp(buckets: seq<Bucket>, id: string)
    requires forall b :: b in buckets ==> b.id != id
    ensures RemovedBuckets(buckets, id) == buckets
  {
    FilterKeepsAll(buckets, (b: Bucket) => b.id != id);
  }

  /** Removing twice is removing once. */
  lemma RemoveBucketIdempotent(buckets: seq<Bucket>, id: string)
    ensures RemovedBuckets(RemovedBuckets(buckets, id), id) == RemovedBuckets(buckets, id)
  {
    RemoveBucketAbsentIsNoOp(RemovedBuckets(buckets, id), id);
  }

  /** Removal keeps the order of the remaining buckets: it distributes over concatenation. */
  lemma RemoveBucketKeepsOrder(a: seq<Bucket>, b: seq<Bucket>, id: string)
    ensures RemovedBuckets(a + b, id) == RemovedBuckets(a, id) + RemovedBuckets(b, id)
  {
    FilterAppend(a, b, (x: Bucket) => x.id != id);
  }

  /** Adding a bucket with a fresh id and then removing that id restores the list. */
  lemma AddThenRemoveRestores(buckets: seq<Bucket>, b: Bucket)
    requires forall x :: x in buckets ==> x.id != b.id
    ensures RemovedBuckets(buckets + [b], b.id) == buckets
  {
    RemoveBucketKeepsOrder(buckets, [b], b.id);
    RemoveBucketAbsentIsNoOp(buckets, b.id);
    assert RemovedBuckets([b], b.id) == [];
  }

  /** The bucket store held by the provider. */
  class BucketStore {
    var buckets: seq<Bucket>

    constructor ()
      ensures buckets == []
    {
      buckets := [];
    }

    /** `addBucket`: appends the bucket as given. */
    method AddBucket(b: Bucket)
      modifies this
      ensures buckets == old(buckets) + [b]
      ensures |buckets| == |old(buckets)| + 1
    {
      buckets := buckets + [b];
    }

    /** `removeBucket`: drops every bucket with that id; only this store changes. */
    method RemoveBucket(id: string)
      modifies this
      ensures buckets == RemovedBuckets(old(buckets), id)
    {
      buckets := RemovedBuckets(buckets, id);
    }
  }
}
