/**
 * The tag store: the list of tags held by the tags provider, seeded with ten
 * default tags, with append, merge-update by id and remove by id.
 */
module TagsContext {
  import opened Wrappers
  import opened Seqs

  /** A tag: tasks refer to it by `name`; `urgency` weighs tasks in the cue. */
  datatype Tag = Tag(id: string, name: string, urgency: int)

  /** The fields an update carries besides the id; an absent field is left as it was. */
  datatype TagPatch = TagPatch(id: string, name: Option<string>, urgency: Option<int>)

  /** The seed used before anything is loaded from storage. */
  function InitialTags(): (r: seq<Tag>)
    ensures |r| == 10
    ensures forall i :: 0 <= i < 10 ==> 1 <= r[i].urgency <= 10
    ensures forall i, j :: 0 <= i < j < 10 ==> r[i].id != r[j].id
  {
    [ Tag("tag-1", "Low Priority", 1),
      Tag("tag-2", "Mid Priority", 5),
      Tag("tag-3", "High Priority", 9),
      Tag("tag-4", "Follow Up", 10),
      Tag("tag-5", "Project", 3),
      Tag("tag-6", "Big Project", 2),
      Tag("tag-7", "Low Difficulty", 9),
      Tag("tag-8", "Mid Difficulty", 5),
      Tag("tag-9", "High Difficulty", 1),
      Tag("tag-10", "R&D", 1) ]
  }

  /** `{ ...tag, ...patch }`: the patch's fields override the tag's. */
  function Merge(t: Tag, p: TagPatch): (r: Tag)
    ensures r.id == p.id
    ensures r.name == if p.name.Some? then p.name.value else t.name
    ensures r.urgency == if p.urgency.Some? then p.urgency.value else t.urgency
    ensures p == TagPatch(t.id, None, None) ==> r == t
  {
    Tag(p.id, p.name.GetOr(t.name), p.urgency.GetOr(t.urgency))
  }

  /**
   * The list after `updateTag(p)`: every tag whose id is `p.id` has the
   * patch merged into it; every other tag, the order and the length stay.
   */
  function UpdatedTags(tags: seq<Tag>, p: TagPatch): (r: seq<Tag>)
    ensures |r| == |tags|
    ensures forall i :: 0 <= i < |r| ==>
              r[i] == if tags[i].id == p.id then Merge(tags[i], p) else tags[i]
  {
    if tags == [] then []
    else [if tags[0].id == p.id then Merge(tags[0], p) else tags[0]] + UpdatedTags(tags[1..], p)
  }

  /** Updating with an id no tag has changes nothing. */
  lemma UpdateAbsentIsNoOp(tags: seq<Tag>, p: TagPatch)
    requires forall t :: t in tags ==> t.id != p.id
    ensures UpdatedTags(tags, p) == tags
  {
    var r := UpdatedTags(tags, p);
    forall i | 0 <= i < |tags| ensures r[i] == tags[i] {
      assert tags[i] in tags;
    }
  }

  /** Applying the same update twice is applying it once. */
  lemma UpdateIdempotent(tags: seq<Tag>, p: TagPatch)
    ensures UpdatedTags(UpdatedTags(tags, p), p) == UpdatedTags(tags, p)
  {
  }

  /** The list after `removeTag(id)`: the tags with another id, in order. */
  function RemovedTags(tags: seq<Tag>, id: string): (r: seq<Tag>)
    ensures forall t :: t in r <==> t in tags && t.id != id
  {
    Filter(tags, (t: Tag) => t.id != id)
  }

  /** Removing an id no tag has changes nothing. */
  lemma RemoveTagAbsentIsNoOp(tags: seq<Tag>, id: string)
    requires forall t :: t in tags ==> t.id != id
    ensures RemovedTags(tags, id) == tags
  {
    FilterKeepsAll(tags, (t: Tag) => t.id != id);
  }

  /** Removing twice is removing once. */
  lemma RemoveTagIdempotent(tags: seq<Tag>, id: string)
    ensures RemovedTags(RemovedTags(tags, id), id) == RemovedTags(tags, id)
  {
    RemoveTagAbsentIsNoOp(RemovedTags(tags, id), id);
  }

  /** Removal keeps the order of the remaining tags: it distributes over concatenation. */
  lemma RemoveTagKeepsOrder(a: seq<Tag>, b: seq<Tag>, id: string)
    ensures RemovedTags(a + b, id) == RemovedTags(a, id) + RemovedTags(b, id)
  {
    FilterAppend(a, b, (t: Tag) => t.id != id);
  }

  /** The tag store held by the provider. */
  class TagStore {
    var tags: seq<Tag>

    constructor ()
      ensures tags == InitialTags()
    {
      tags := InitialTags();
    }

    /** `addTag`: appends the tag as given; names and ids are not checked for uniqueness. */
    method AddTag(t: Tag)
      modifies this
      ensures tags == old(tags) + [t]
      ensures |tags| == |old(tags)| + 1
    {
      tags := tags + [t];
    }

    /** `updateTag`: merges the patch into every tag with its id. */
    method UpdateTag(p: TagPatch)
      modifies this
      ensures tags == UpdatedTags(old(tags), p)
    {
      tags := UpdatedTags(tags, p);
    }

    /** `removeTag`: drops every tag with that id. */
    method RemoveTag(id: string)
      modifies this
      ensures tags == RemovedTags(old(tags), id)
    {
      tags := RemovedTags(tags, id);
    }
  }
}
