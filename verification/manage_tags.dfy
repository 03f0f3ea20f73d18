/**
 * The tag management screen: creating a tag from the modal's name field,
 * changing a tag's urgency with its slider, and the slider's colour.
 */
module ManageTags {
  import opened Wrappers
  import opened JsString
  import opened TagsContext
  import opened Tasks
  import Cue

  /** The urgency slider's bounds and step. */
  const SliderMin: int := 1
  const SliderMax: int := 10
  const SliderStep: int := 1

  /** Urgency given to a newly created tag. */
  const DefaultUrgency: int := 5

  /** A value the slider can report: an integer from the minimum to the maximum in whole steps. */
  predicate IsSliderValue(v: int) {
    SliderMin <= v <= SliderMax && (v - SliderMin) % SliderStep == 0
  }

  /** Every tag's urgency is one the slider can show. */
  predicate UrgenciesInRange(tags: seq<Tag>) {
    forall g :: g in tags ==> SliderMin <= g.urgency <= SliderMax
  }

  /**
   * The tag `handleSaveTag` creates from the typed name at clock `now`, or
   * nothing when the name is blank after trimming.
   */
  function NewTag(name: string, now: nat): (r: Option<Tag>)
    ensures r.None? <==> AllWhiteSpace(name)
    ensures r.Some? ==> r.value.id == "tag-" + Decimal(now)
                        && r.value.name == Trim(name) && r.value.name != ""
                        && r.value.urgency == DefaultUrgency
  {
    var trimmed := Trim(name);
    if trimmed == "" then None
    else Some(Tag("tag-" + Decimal(now), trimmed, DefaultUrgency))
  }

  /** The update `handleUrgencyChange` sends: only the id and the new urgency. */
  function UrgencyPatch(id: string, value: int): (p: TagPatch)
    ensures p.id == id && p.name.None? && p.urgency == Some(value)
    ensures forall g: Tag :: g.id == id ==> Merge(g, p) == g.(urgency := value)
  {
    TagPatch(id, None, Some(value))
  }

  /**
   * An urgency change sets the urgency of the tags with that id and keeps
   * every tag's id and name, the order and the length.
   */
  lemma UrgencyChangeKeepsNames(tags: seq<Tag>, id: string, value: int)
    ensures var r := UpdatedTags(tags, UrgencyPatch(id, value));
            && |r| == |tags|
            && (forall i :: 0 <= i < |r| ==> r[i].id == tags[i].id && r[i].name == tags[i].name)
            && (forall i :: 0 <= i < |r| ==> r[i].urgency == if tags[i].id == id then value else tags[i].urgency)
  {
  }

  /** Slider changes and saved tags keep every urgency within the slider's range. */
  lemma ScreenKeepsUrgenciesInRange(tags: seq<Tag>, id: string, value: int, name: string, now: nat)
    requires UrgenciesInRange(tags) && IsSliderValue(value)
    ensures UrgenciesInRange(UpdatedTags(tags, UrgencyPatch(id, value)))
    ensures NewTag(name, now).Some? ==> UrgenciesInRange(tags + [NewTag(name, now).value])
  {
    var r := UpdatedTags(tags, UrgencyPatch(id, value));
    forall g | g in r ensures SliderMin <= g.urgency <= SliderMax {
      var i :| 0 <= i < |r| && r[i] == g;
      assert tags[i] in tags;
    }
  }

  /**
   * With the urgencies the screen produces, every task with at least one tag
   * scores between 1 and 10 in the cue.
   */
  lemma ScreenUrgenciesBoundScores(tags: seq<Tag>, t: Task)
    requires UrgenciesInRange(tags) && |t.tags| > 0
    ensures 1.0 <= Cue.Score(t, Cue.UrgencyTable(tags)) <= 10.0
  {
    Cue.ScoreWithinUrgencyRange(t, tags);
  }

  /** The three colour bands of the slider's track. */
  datatype Band = Green | Orange | Red

  /** `getSliderColor`'s bands: up to 3 green, up to 6 orange, above red. */
  function SliderBand(urgency: int): (b: Band)
    ensures b == Green <==> urgency <= 3
    ensures b == Orange <==> 3 < urgency <= 6
    ensures b == Red <==> 6 < urgency
  {
    if urgency <= 3 then Green else if urgency <= 6 then Orange else Red
  }

  function BandColor(b: Band): string {
    match b
    case Green => "#90EE90"
    case Orange => "#FFA500"
    case Red => "#FF6347"
  }

  /** `getSliderColor`: the track colour for an urgency; defined for every urgency. */
  function GetSliderColor(urgency: int): (c: string)
    ensures c == BandColor(SliderBand(urgency))
    ensures c in {"#90EE90", "#FFA500", "#FF6347"}
  {
    if urgency <= 3 then "#90EE90"
    else if urgency <= 6 then "#FFA500"
    else "#FF6347"
  }

  /** A higher urgency never gets a cooler band. */
  lemma SliderBandMonotone(u: int, v: int)
    requires u <= v
    ensures SliderBand(u) == Green || SliderBand(v) != Green
    ensures SliderBand(u) == Red ==> SliderBand(v) == Red
  {
  }

  /** The screen's state around the tag store. */
  class ManageTagsScreen {
    const store: TagStore
    var modalVisible: bool
    var newTagName: string

    constructor (store: TagStore)
      ensures this.store == store && !modalVisible && newTagName == ""
    {
      this.store := store;
      modalVisible := false;
      newTagName := "";
    }

    /** `handleAddTag`: opens the modal. */
    method HandleAddTag()
      modifies this
      ensures modalVisible && newTagName == old(newTagName)
    {
      modalVisible := true;
    }

    /** The name field's `onChangeText`. */
    method SetNewTagName(s: string)
      modifies this
      ensures newTagName == s && modalVisible == old(modalVisible)
    {
      newTagName := s;
    }

    /** The modal's Cancel button: closes the modal and clears the field. */
    method Cancel()
      modifies this
      ensures !modalVisible && newTagName == ""
    {
      modalVisible := false;
      newTagName := "";
    }

    /**
     * `handleSaveTag` at clock `now`: a blank name changes nothing; otherwise
     * the new tag (trimmed name, urgency 5) is appended to the store, the
     * field is cleared and the modal closed.
     */
    method HandleSaveTag(now: nat)
      modifies this, store
      ensures AllWhiteSpace(old(newTagName)) ==>
                store.tags == old(store.tags) && newTagName == old(newTagName)
                && modalVisible == old(modalVisible)
      ensures !AllWhiteSpace(old(newTagName)) ==>
                store.tags == old(store.tags) + [NewTag(old(newTagName), now).value]
                && newTagName == "" && !modalVisible
    {
      var tag := NewTag(newTagName, now);
      if tag.None? {
        return;
      }
      store.AddTag(tag.value);
      newTagName := "";
      modalVisible := false;
    }

    /**
     * `handleUrgencyChange`, fed by the slider: updates only that tag's
     * urgency (`ScreenKeepsUrgenciesInRange` covers the values the slider
     * reports).
     */
    method HandleUrgencyChange(id: string, value: int)
      modifies store
      ensures store.tags == UpdatedTags(old(store.tags), UrgencyPatch(id, value))
    {
      store.UpdateTag(UrgencyPatch(id, value));
    }
  }
}
