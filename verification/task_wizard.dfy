/**
 * The three-step task wizard: title; one-time or recurring with frequency
 * and start date; notes and tags. It hands the record it builds to the
 * screen that opened it.
 */
module TaskWizard {
  import opened Wrappers
  import opened Seqs
  import opened Calendar
  import opened Tasks
  import opened TagsContext
  import Cue

  /** The record `handleSave` builds: exactly these six fields. */
  datatype TaskDraft = TaskDraft(
    title: string,
    isRecurring: bool,
    recurringDetails: string,
    notes: string,
    tags: seq<string>,
    startDate: Option<int>)

  /** The frequencies the frequency modal offers. */
  const Frequencies: seq<string> := ["Daily", "Weekly", "Monthly"]

  /**
   * The selection after tapping tag `name`: a selected name is taken out
   * (every occurrence; every copy of the other names stays, in order), any
   * other is added at the end.
   */
  function Toggle(selected: seq<string>, name: string): (r: seq<string>)
    ensures name in selected ==> name !in r && |r| < |selected|
                                 && forall x :: x != name ==> (x in r <==> x in selected)
    ensures name in selected ==> forall x :: x != name ==> multiset(r)[x] == multiset(selected)[x]
    ensures name in selected ==> r == Filter(selected, (t: string) => t != name)
    ensures name !in selected ==> r == selected + [name]
  {
    if name in selected then
      var r := Filter(selected, (t: string) => t != name);
      FilterDropsShortens(selected, (t: string) => t != name, name);
      assert forall x :: x != name ==> multiset(r)[x] == multiset(selected)[x] by {
        forall x | x != name ensures multiset(r)[x] == multiset(selected)[x] {
          FilterMultiset(selected, (t: string) => t != name, x);
        }
      }
      r
    else selected + [name]
  }

  /** Tapping an unselected tag twice restores the selection. */
  lemma ToggleTwiceRestores(selected: seq<string>, name: string)
    requires name !in selected
    ensures Toggle(Toggle(selected, name), name) == selected
  {
    var once := selected + [name];
    FilterAppend(selected, [name], (t: string) => t != name);
    FilterKeepsAll(selected, (t: string) => t != name);
    assert Filter([name], (t: string) => t != name) == [];
  }

  /** Toggling never introduces a duplicate name. */
  lemma ToggleKeepsNoDup(selected: seq<string>, name: string)
    requires NoDup(selected)
    ensures NoDup(Toggle(selected, name))
  {
    if name in selected {
      FilterNoDup(selected, (t: string) => t != name);
    } else {
      var r := selected + [name];
      forall i, j | 0 <= i < j < |r| ensures r[i] != r[j] {
        if j == |selected| {
          assert r[i] == selected[i];
        } else {
          assert r[i] == selected[i] && r[j] == selected[j];
        }
      }
    }
  }

  /**
   * Every frequency the wizard offers moves a completed task strictly
   * forward, so a recurring task with a chosen frequency is never completed
   * onto the same instant.
   */
  lemma OfferedFrequenciesAdvance(t: int, f: string)
    requires f in Frequencies
    ensures NextOccurrence(t, f) > t
  {
  }

  /**
   * A recurring task saved before a frequency was chosen (its
   * `recurringDetails` is not one the modal offers) never enters the cue,
   * and completing it leaves its date where it was.
   */
  lemma UnchosenFrequencyIsInert(t: Task, now: int)
    requires t.isRecurring && t.recurringDetails !in Frequencies
    ensures !Cue.IsDue(t, now)
    ensures Advanced(t).startDate == Some(Instant(t.startDate))
  {
  }

  /** The wizard's state. */
  class Wizard {
    const initialData: Option<Task>
    var taskTitle: string
    var isRecurring: bool
    var recurringType: string
    var startDate: Option<int>
    var showDatePicker: bool
    var notes: string
    var selectedTags: seq<string>
    var step: int
    var frequencyModalVisible: bool

    /** The step counter only takes the values 1, 2 and 3. */
    ghost predicate Valid()
      reads this
    {
      1 <= step <= 3
    }

    /** Whether a Next button is rendered (steps 1 and 2). */
    predicate NextShown()
      reads this
    {
      step == 1 || step == 2
    }

    /** Whether the Back button is rendered (after step 1). */
    predicate BackShown()
      reads this
    {
      step > 1
    }

    /**
     * The form starts from the task being edited, field by field, or from
     * the defaults "", false, "", null, "" and no tags; step 1, nothing open.
     */
    constructor (initialData: Option<Task>)
      ensures this.initialData == initialData && Valid() && step == 1
      ensures !showDatePicker && !frequencyModalVisible
      ensures initialData.None? ==>
                taskTitle == "" && !isRecurring && recurringType == ""
                && startDate == None && notes == "" && selectedTags == []
      ensures initialData.Some? ==>
                var d := initialData.value;
                taskTitle == d.title && isRecurring == d.isRecurring
                && recurringType == d.recurringDetails && startDate == d.startDate
                && notes == d.notes && selectedTags == d.tags
    {
      this.initialData := initialData;
      match initialData {
        case None =>
          taskTitle, isRecurring, recurringType := "", false, "";
          startDate, notes, selectedTags := None, "", [];
        case Some(d) =>
          taskTitle, isRecurring, recurringType := d.title, d.isRecurring, d.recurringDetails;
          startDate, notes, selectedTags := d.startDate, d.notes, d.tags;
      }
      showDatePicker, frequencyModalVisible := false, false;
      step := 1;
    }

    /** `nextStep`, bound to the Next button. */
    method NextStep()
      requires Valid() && NextShown()
      modifies this`step
      ensures Valid() && step == old(step) + 1
    {
      step := step + 1;
    }

    /** `prevStep`, bound to the Back button. */
    method PrevStep()
      requires Valid() && BackShown()
      modifies this`step
      ensures Valid() && step == old(step) - 1
    {
      step := step - 1;
    }

    /** `toggleTag`, bound to each tag on step 3. */
    method ToggleTag(tag: Tag)
      modifies this`selectedTags
      ensures selectedTags == Toggle(old(selectedTags), tag.name)
    {
      selectedTags := Toggle(selectedTags, tag.name);
    }

    /** The One-Time and Recurring options of step 2. */
    method SetRecurring(recurring: bool)
      modifies this`isRecurring
      ensures isRecurring == recurring
    {
      isRecurring := recurring;
    }

    /** The Frequency box of step 2: opens the frequency modal. */
    method OpenFrequencyModal()
      modifies this`frequencyModalVisible
      ensures frequencyModalVisible
    {
      frequencyModalVisible := true;
    }

    /** Picking one of the offered frequencies sets it and closes the modal. */
    method ChooseFrequency(choice: string)
      requires choice in Frequencies
      modifies this`recurringType, this`frequencyModalVisible
      ensures recurringType == choice && recurringType in Frequencies
      ensures !frequencyModalVisible
    {
      recurringType := choice;
      frequencyModalVisible := false;
    }

    /** The Start Date box of step 2: opens the date picker. */
    method OpenDatePicker()
      modifies this`showDatePicker
      ensures showDatePicker
    {
      showDatePicker := true;
    }

    /** `handleDateChange`: keeps the old date when the picker reports none; closes the picker. */
    method HandleDateChange(selectedDate: Option<int>)
      modifies this`startDate, this`showDatePicker
      ensures startDate == if selectedDate.Some? then selectedDate else old(startDate)
      ensures !showDatePicker
    {
      showDatePicker := false;
      startDate := if selectedDate.Some? then selectedDate else startDate;
    }

    /**
     * `handleSave`: the record handed to `onSave`, built from the form, and
     * the id of the task being edited (`null` for a new task).
     */
    method HandleSave() returns (draft: TaskDraft, prevId: Option<string>)
      ensures draft.title == taskTitle && draft.isRecurring == isRecurring
      ensures draft.recurringDetails == recurringType && draft.notes == notes
      ensures draft.tags == selectedTags && draft.startDate == startDate
      ensures prevId.Some? <==> initialData.Some?
      ensures initialData.Some? ==> prevId.value == initialData.value.id
    {
      draft := TaskDraft(taskTitle, isRecurring, recurringType, notes, selectedTags, startDate);
      prevId := if initialData.Some? then Some(initialData.value.id) else None;
    }
  }
}
