/** The bucket creation screen: validates the typed name and adds the bucket. */
module AddBucket {
  import opened Wrappers
  import opened JsString
  import opened BucketsContext

  /**
   * The bucket `handleCreateBucket` creates from the typed name at clock
   * `now`, or nothing when the name is blank after trimming.
   */
  function NewBucket(name: string, now: nat): (r: Option<Bucket>)
    ensures r.None? <==> AllWhiteSpace(name)
    ensures r.Some? ==> r.value.id == "bucket-" + Decimal(now)
                        && r.value.name == Trim(name) && r.value.name != ""
                        && r.value.tasksCount == 0
  {
    var trimmed := Trim(name);
    if trimmed == "" then None
    else Some(Bucket("bucket-" + Decimal(now), trimmed, 0))
  }

  /** The screen's state around the bucket store. */
  class AddBucketScreen {
    const store: BucketStore
    var bucketName: string

    constructor (store: BucketStore)
      ensures this.store == store && bucketName == ""
    {
      this.store := store;
      bucketName := "";
    }

    /** The name field's `onChangeText`. */
    method SetBucketName(s: string)
      modifies this
      ensures bucketName == s
    {
      bucketName := s;
    }

    /**
     * `handleCreateBucket` at clock `now`: a blank name changes nothing and
     * stays on the screen; otherwise exactly one bucket is appended and the
     * screen navigates back.
     */
    method HandleCreateBucket(now: nat) returns (navigatedBack: bool)
      modifies store
      ensures navigatedBack <==> !AllWhiteSpace(bucketName)
      ensures !navigatedBack ==> store.buckets == old(store.buckets)
      ensures navigatedBack ==>
                store.buckets == old(store.buckets) + [NewBucket(bucketName, now).value]
                && |store.buckets| == |old(store.buckets)| + 1
    {
      var bucket := NewBucket(bucketName, now);
      if bucket.None? {
        return false;
      }
      store.AddBucket(bucket.value);
      navigatedBack := true;
    }
  }
}
