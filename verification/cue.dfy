/**
 * The cue: `getSortedTasks(tags, completedTasks)`. It keeps the tasks that
 * were not completed this session and fall in their due window, and orders
 * them by descending average tag urgency, ties in their original order
 * (`Array.prototype.sort` is stable).
 */
module Cue {
  import opened Seqs
  import opened Calendar
  import opened Tasks
  import opened TagsContext

  // ---------------------------------------------------------------- urgency

  /** `tag.urgency || 1`: an urgency of 0 counts as 1. */
  function TableUrgency(u: int): (r: int)
    ensures r != 0
    ensures u != 0 ==> r == u
    ensures 0 <= u <= 10 ==> 1 <= r <= 10
  {
    if u == 0 then 1 else u
  }

  /**
   * The name-to-urgency table built by reducing over the tags: every tag's
   * name is a key, and its value is the (adjusted) urgency of some tag of
   * that name, never 0.
   */
  function UrgencyTable(tags: seq<Tag>): (m: map<string, int>)
    ensures forall g :: g in tags ==> g.name in m
    ensures forall n :: n in m ==> exists g :: g in tags && g.name == n && m[n] == TableUrgency(g.urgency)
    ensures forall n :: n in m ==> m[n] != 0
  {
    if tags == [] then map[]
    else
      var init, last := tags[..|tags| - 1], tags[|tags| - 1];
      assert tags == init + [last];
      UrgencyTable(init)[last.name := TableUrgency(last.urgency)]
  }

  /** When several tags share a name, the last of them decides its urgency. */
  lemma {:induction false} UrgencyTableLastWins(tags: seq<Tag>, i: nat)
    requires i < |tags|
    requires forall j :: i < j < |tags| ==> tags[j].name != tags[i].name
    ensures tags[i].name in UrgencyTable(tags)
    ensures UrgencyTable(tags)[tags[i].name] == TableUrgency(tags[i].urgency)
  {
    if i < |tags| - 1 {
      var init := tags[..|tags| - 1];
      UrgencyTableLastWins(init, i);
    }
  }

  /** `tagUrgencyScores[name] || 1`: a name not in the table counts as 1. */
  function Lookup(m: map<string, int>, name: string): (r: int)
    ensures r != 0
    ensures name !in m ==> r == 1
    ensures name in m && m[name] != 0 ==> r == m[name]
  {
    if name in m && m[name] != 0 then m[name] else 1
  }

  /** The total of the lookups of `names`. */
  function SumOfLookups(m: map<string, int>, names: seq<string>): int {
    if names == [] then 0 else Lookup(m, names[0]) + SumOfLookups(m, names[1..])
  }

  /**
   * Totals add up over concatenation, so the `reduce`, which adds the
   * lookups from left to right, reaches the same total.
   */
  lemma {:induction false} SumOfLookupsAppend(m: map<string, int>, a: seq<string>, b: seq<string>)
    ensures SumOfLookups(m, a + b) == SumOfLookups(m, a) + SumOfLookups(m, b)
  {
    if a == [] {
      assert a + b == b;
    } else {
      assert (a + b)[1..] == a[1..] + b;
      SumOfLookupsAppend(m, a[1..], b);
    }
  }

  /** The `reduce` step: one more name adds its lookup to the running total. */
  lemma SumOfLookupsSnoc(m: map<string, int>, names: seq<string>, name: string)
    ensures SumOfLookups(m, names + [name]) == SumOfLookups(m, names) + Lookup(m, name)
  {
    SumOfLookupsAppend(m, names, [name]);
  }

  /**
   * `calculateUrgencyScore`: 0 for a task without tags, otherwise the
   * average of its tags' lookups.
   */
  function Score(t: Task, m: map<string, int>): (r: real)
    ensures |t.tags| == 0 ==> r == 0.0
    ensures |t.tags| > 0 ==> r * (|t.tags| as real) == SumOfLookups(m, t.tags) as real
  {
    if |t.tags| == 0 then 0.0 else SumOfLookups(m, t.tags) as real / |t.tags| as real
  }

  /** With every table value in 1..10, a total of n lookups lies in n..10n. */
  lemma {:induction false} SumOfLookupsBounds(m: map<string, int>, names: seq<string>)
    requires forall n :: n in m ==> 1 <= m[n] <= 10
    ensures |names| <= SumOfLookups(m, names) <= 10 * |names|
  {
    if names != [] {
      SumOfLookupsBounds(m, names[1..]);
    }
  }

  /** With every table value in 1..10, a task with at least one tag scores in 1..10. */
  lemma ScoreBounds(t: Task, m: map<string, int>)
    requires forall n :: n in m ==> 1 <= m[n] <= 10
    requires |t.tags| > 0
    ensures 1.0 <= Score(t, m) <= 10.0
  {
    SumOfLookupsBounds(m, t.tags);
    var n, total := |t.tags|, SumOfLookups(m, t.tags);
    assert n as real <= total as real <= 10.0 * n as real;
    AverageBounds(Score(t, m), n as real, total as real);
  }

  /**
   * When every tag's urgency lies in 0..10 (0 counting as 1), a task with
   * at least one tag scores between 1 and 10.
   */
  lemma ScoreWithinUrgencyRange(t: Task, tags: seq<Tag>)
    requires forall g :: g in tags ==> 0 <= g.urgency <= 10
    requires |t.tags| > 0
    ensures 1.0 <= Score(t, UrgencyTable(tags)) <= 10.0
  {
    UrgencyTableBounds(tags);
    ScoreBounds(t, UrgencyTable(tags));
  }

  /** Tag urgencies in 0..10 give table values in 1..10. */
  lemma UrgencyTableBounds(tags: seq<Tag>)
    requires forall g :: g in tags ==> 0 <= g.urgency <= 10
    ensures forall n :: n in UrgencyTable(tags) ==> 1 <= UrgencyTable(tags)[n] <= 10
  {
    var m := UrgencyTable(tags);
    forall n | n in m ensures 1 <= m[n] <= 10 {
      var g :| g in tags && g.name == n && m[n] == TableUrgency(g.urgency);
    }
  }

  /** An average of values in 1..10 lies in 1..10. */
  lemma AverageBounds(r: real, n: real, total: real)
    requires n > 0.0 && r * n == total && n <= total <= 10.0 * n
    ensures 1.0 <= r <= 10.0
  {
  }

  // ------------------------------------------------------------ due window

  /**
   * The due-window rule: a one-time task is due once its date has come;
   * Daily always; Weekly when its date lies between now and ten days on;
   * Monthly when its day of month is from today on and its month index is
   * this month's, or its day of month is at most that of today plus ten
   * days and its month index is that day's (years are not compared); any
   * other recurrence never.
   */
  predicate IsDue(t: Task, now: int): (due: bool)
    ensures !t.isRecurring && t.startDate.None? ==> (due <==> 0 <= now)
    ensures !t.isRecurring && t.startDate.Some? ==> (due <==> t.startDate.value <= now)
    ensures t.isRecurring && t.recurringDetails == "Daily" ==> due
    ensures t.isRecurring && t.recurringDetails == "Weekly" ==>
              (due <==> now <= Instant(t.startDate) <= now + 10 * DayMs)
    ensures t.isRecurring && t.recurringDetails == "Monthly" && due ==>
              MonthIndex(Instant(t.startDate)) == MonthIndex(now)
              || MonthIndex(Instant(t.startDate)) == (MonthIndex(now) + 1) % 12
    ensures t.isRecurring && !(t.recurringDetails in {"Daily", "Weekly", "Monthly"}) ==> !due
  {
    TenDaysLandsNearby(now);
    var date := Instant(t.startDate);
    if !t.isRecurring then date <= now
    else if t.recurringDetails == "Daily" then true
    else if t.recurringDetails == "Weekly" then 0 <= date - now <= 10 * DayMs
    else if t.recurringDetails == "Monthly" then
      var later := SetDate(now, DayOfMonth(now) + 10);
      (DayOfMonth(date) >= DayOfMonth(now) && MonthIndex(date) == MonthIndex(now))
      || (DayOfMonth(date) <= DayOfMonth(later) && MonthIndex(date) == MonthIndex(later))
    else false
  }

  /** A task passes the cue's filter: not completed this session, and due. */
  predicate InCue(t: Task, completed: seq<string>, now: int): (r: bool)
    ensures t.id in completed ==> !r
    ensures t.id !in completed ==> (r <==> IsDue(t, now))
  {
    t.id !in completed && IsDue(t, now)
  }

  /** The tasks that pass the filter, in store order. */
  function DueTasks(tasks: seq<Task>, completed: seq<string>, now: int): (r: seq<Task>)
    ensures forall t :: t in r <==> t in tasks && InCue(t, completed, now)
  {
    Filter(tasks, (t: Task) => InCue(t, completed, now))
  }

  /**
   * When today plus ten days is still in this month, every Monthly task
   * whose month index is this month's is due, whatever its day and year,
   * and no other Monthly task is.
   */
  lemma MonthlyWindowWithinMonth(t: Task, now: int)
    requires t.isRecurring && t.recurringDetails == "Monthly"
    requires MonthIndex(SetDate(now, DayOfMonth(now) + 10)) == MonthIndex(now)
    ensures IsDue(t, now) <==> MonthIndex(Instant(t.startDate)) == MonthIndex(now)
  {
    SetDateShift(now, 10);
    AddDaysCivil(now, 10);
  }

  /**
   * When today plus ten days falls in the next month, a Monthly task is due
   * exactly when its day of month lies from today to the end of this month
   * with this month's index, or from the first to today plus ten days with
   * the next month's index.
   */
  lemma MonthlyWindowAcrossMonths(t: Task, now: int)
    requires t.isRecurring && t.recurringDetails == "Monthly"
    requires MonthIndex(SetDate(now, DayOfMonth(now) + 10)) != MonthIndex(now)
    ensures var c := ToCivil(now);
            var date := Instant(t.startDate);
            IsDue(t, now) <==>
              || (MonthIndex(date) == c.month && DayOfMonth(date) >= c.day)
              || (MonthIndex(date) == NextMonth(c.year, c.month).1
                  && DayOfMonth(date) <= c.day + 10 - MonthLength(c.year, c.month))
  {
    TenDaysIntoNextMonth(now);
  }

  /** Today plus ten days falls in this month or the next one. */
  lemma TenDaysLandsNearby(now: int)
    ensures var later := SetDate(now, DayOfMonth(now) + 10);
            MonthIndex(later) == MonthIndex(now) || MonthIndex(later) == (MonthIndex(now) + 1) % 12
  {
    var c := ToCivil(now);
    if MonthIndex(SetDate(now, DayOfMonth(now) + 10)) != MonthIndex(now) {
      TenDaysIntoNextMonth(now);
      NextMonthCarry(c.year, c.month);
    }
  }

  /** Today plus ten days, when it leaves this month, is early in the next one. */
  lemma TenDaysIntoNextMonth(now: int)
    requires MonthIndex(SetDate(now, DayOfMonth(now) + 10)) != MonthIndex(now)
    ensures var c := ToCivil(now);
            var later := SetDate(now, DayOfMonth(now) + 10);
            && MonthIndex(later) == NextMonth(c.year, c.month).1
            && DayOfMonth(later) == c.day + 10 - MonthLength(c.year, c.month)
  {
    SetDateShift(now, 10);
    AddDaysCivil(now, 10);
  }

  // ----------------------------------------------------------------- order

  /** The sort key of the cue: each task's score against the urgency table `m`. */
  function ScoreOf(m: map<string, int>): Task -> real {
    t => Score(t, m)
  }

  /** Keys never increase along `s`. */
  ghost predicate SortedByKey(s: seq<Task>, key: Task -> real) {
    forall i, j :: 0 <= i < j < |s| ==> key(s[i]) >= key(s[j])
  }

  /** The tasks of `s` whose key is exactly `k`, in their order in `s`. */
  function WithKey(s: seq<Task>, key: Task -> real, k: real): (r: seq<Task>)
    ensures forall t :: t in r <==> t in s && key(t) == k
  {
    if s == [] then []
    else if key(s[0]) == k then [s[0]] + WithKey(s[1..], key, k)
    else WithKey(s[1..], key, k)
  }

  /** `x` placed after every task of `s` whose key is strictly greater. */
  function Insert(x: Task, s: seq<Task>, key: Task -> real): seq<Task> {
    if s == [] || key(x) >= key(s[0]) then [x] + s
    else [s[0]] + Insert(x, s[1..], key)
  }

  lemma {:induction false} InsertPermutes(x: Task, s: seq<Task>, key: Task -> real)
    ensures multiset(Insert(x, s, key)) == multiset([x] + s)
  {
    if s != [] && key(x) < key(s[0]) {
      InsertPermutes(x, s[1..], key);
      assert s == [s[0]] + s[1..];
    }
  }

  /** A task that leads a sorted sequence and keys at least as high as `x` stays ahead. */
  lemma ConsSorted(h: Task, s: seq<Task>, key: Task -> real)
    requires SortedByKey(s, key)
    requires forall t :: t in s ==> key(h) >= key(t)
    ensures SortedByKey([h] + s, key)
  {
    var r := [h] + s;
    forall i, j | 0 <= i < j < |r| ensures key(r[i]) >= key(r[j]) {
      assert r[j] == s[j - 1];
      if i > 0 {
        assert r[i] == s[i - 1];
      }
    }
  }

  lemma {:induction false} InsertSorted(x: Task, s: seq<Task>, key: Task -> real)
    requires SortedByKey(s, key)
    ensures SortedByKey(Insert(x, s, key), key)
  {
    if s == [] {
    } else if key(x) >= key(s[0]) {
      forall t | t in s ensures key(x) >= key(t) {
        var i :| 0 <= i < |s| && s[i] == t;
        assert i == 0 || key(s[0]) >= key(s[i]);
      }
      ConsSorted(x, s, key);
    } else {
      var tail := s[1..];
      assert SortedByKey(tail, key) by {
        forall i, j | 0 <= i < j < |tail| ensures key(tail[i]) >= key(tail[j]) {
          assert tail[i] == s[i + 1] && tail[j] == s[j + 1];
        }
      }
      InsertSorted(x, tail, key);
      InsertPermutes(x, tail, key);
      forall t | t in Insert(x, tail, key) ensures key(s[0]) >= key(t) {
        assert t in multiset([x] + tail);
        if t != x {
          assert t in tail;
          var i :| 0 <= i < |tail| && tail[i] == t;
          assert s[i + 1] == t;
        }
      }
      ConsSorted(s[0], Insert(x, tail, key), key);
    }
  }

  /** Inserting keeps, for every key, the tasks with that key in order, `x` first. */
  lemma {:induction false} InsertStable(x: Task, s: seq<Task>, key: Task -> real, k: real)
    ensures WithKey(Insert(x, s, key), key, k) == WithKey([x] + s, key, k)
  {
    if s != [] && key(x) < key(s[0]) {
      InsertStable(x, s[1..], key, k);
      assert ([s[0]] + Insert(x, s[1..], key))[1..] == Insert(x, s[1..], key);
      assert ([x] + s)[1..] == s;
      assert ([x] + s[1..])[1..] == s[1..];
    }
  }

  /**
   * Stable insertion sort by descending key: a permutation of `s`, with
   * keys non-increasing, and tasks of equal key in their order in `s`.
   */
  function SortByKey(s: seq<Task>, key: Task -> real): (r: seq<Task>)
    ensures multiset(r) == multiset(s)
    ensures SortedByKey(r, key)
    ensures forall k :: WithKey(r, key, k) == WithKey(s, key, k)
  {
    if s == [] then []
    else
      var rest := SortByKey(s[1..], key);
      InsertPermutes(s[0], rest, key);
      InsertSorted(s[0], rest, key);
      assert s == [s[0]] + s[1..];
      assert forall k :: WithKey(Insert(s[0], rest, key), key, k) == WithKey(s, key, k) by {
        forall k ensures WithKey(Insert(s[0], rest, key), key, k) == WithKey(s, key, k) {
          InsertStable(s[0], rest, key, k);
          assert ([s[0]] + rest)[1..] == rest;
        }
      }
      Insert(s[0], rest, key)
  }

  /** The rest of a sorted sequence is sorted. */
  lemma SortedTail(s: seq<Task>, key: Task -> real)
    requires SortedByKey(s, key) && s != []
    ensures SortedByKey(s[1..], key)
  {
    forall i, j | 0 <= i < j < |s| - 1 ensures key(s[1..][i]) >= key(s[1..][j]) {
      assert s[1..][i] == s[i + 1] && s[1..][j] == s[j + 1];
    }
  }

  /** The first task of a non-empty sequence is among the tasks of its own key. */
  lemma LeaderHasKey(s: seq<Task>, key: Task -> real)
    requires s != []
    ensures WithKey(s, key, key(s[0])) != []
  {
  }

  /** Two sorted sequences with the same tasks for every key start with the same task. */
  lemma SameLeader(a: seq<Task>, b: seq<Task>, key: Task -> real)
    requires a != [] && b != []
    requires SortedByKey(a, key) && SortedByKey(b, key)
    requires forall k :: WithKey(a, key, k) == WithKey(b, key, k)
    ensures a[0] == b[0]
  {
    var ka, kb := key(a[0]), key(b[0]);
    assert a[0] in WithKey(b, key, ka) by {
      assert a[0] in WithKey(a, key, ka);
    }
    assert b[0] in WithKey(a, key, kb) by {
      assert b[0] in WithKey(b, key, kb);
    }
    assert ka <= kb by {
      var j :| 0 <= j < |b| && b[j] == a[0];
      assert j == 0 || key(b[0]) >= key(b[j]);
    }
    assert kb <= ka by {
      var j :| 0 <= j < |a| && a[j] == b[0];
      assert j == 0 || key(a[0]) >= key(a[j]);
    }
    assert WithKey(a, key, ka) == [a[0]] + WithKey(a[1..], key, ka);
    assert WithKey(b, key, ka) == [b[0]] + WithKey(b[1..], key, ka);
    assert a[0] == WithKey(a, key, ka)[0] == WithKey(b, key, ka)[0] == b[0];
  }

  /** Dropping the same leading task from both keeps them in agreement. */
  lemma TailsAgree(a: seq<Task>, b: seq<Task>, key: Task -> real)
    requires a != [] && b != [] && a[0] == b[0]
    requires forall k :: WithKey(a, key, k) == WithKey(b, key, k)
    ensures forall k :: WithKey(a[1..], key, k) == WithKey(b[1..], key, k)
  {
    forall k ensures WithKey(a[1..], key, k) == WithKey(b[1..], key, k) {
      assert WithKey(a, key, k) == WithKey(b, key, k);
      if k == key(a[0]) {
        assert WithKey(a, key, k)[1..] == WithKey(a[1..], key, k);
        assert WithKey(b, key, k)[1..] == WithKey(b[1..], key, k);
      }
    }
  }

  /**
   * Sorting by key with ties kept in order has one answer: two sequences
   * that are both sorted and agree on the tasks of every key are equal.
   */
  lemma {:induction false} StableSortIsUnique(a: seq<Task>, b: seq<Task>, key: Task -> real)
    requires SortedByKey(a, key) && SortedByKey(b, key)
    requires forall k :: WithKey(a, key, k) == WithKey(b, key, k)
    ensures a == b
    decreases |a|
  {
    if a == [] || b == [] {
      // a task of the non-empty one would be missing from the other's tasks of its key
      if a != [] {
        LeaderHasKey(a, key);
      } else if b != [] {
        LeaderHasKey(b, key);
      }
    } else {
      SameLeader(a, b, key);
      TailsAgree(a, b, key);
      SortedTail(a, key);
      SortedTail(b, key);
      StableSortIsUnique(a[1..], b[1..], key);
      assert a == [a[0]] + a[1..] && b == [b[0]] + b[1..];
    }
  }

  // ------------------------------------------------------------------- cue

  /**
   * `getSortedTasks(tags, completedTasks)` over the store's `tasks` at
   * instant `now`: exactly the due tasks not completed this session, each as
   * often as in the store, highest score first, ties in store order.
   */
  function SortedTasks(tasks: seq<Task>, tags: seq<Tag>, completed: seq<string>, now: int): (r: seq<Task>)
    ensures forall t :: t in r ==> t.id !in completed
    ensures forall t :: t in r <==> t in tasks && InCue(t, completed, now)
    ensures multiset(r) == multiset(DueTasks(tasks, completed, now))
    ensures SortedByKey(r, ScoreOf(UrgencyTable(tags)))
    ensures forall k :: WithKey(r, ScoreOf(UrgencyTable(tags)), k) == WithKey(DueTasks(tasks, completed, now), ScoreOf(UrgencyTable(tags)), k)
  {
    var due := DueTasks(tasks, completed, now);
    var r := SortByKey(due, ScoreOf(UrgencyTable(tags)));
    assert forall t :: t in r <==> t in multiset(r);
    assert forall t :: t in due <==> t in multiset(due);
    r
  }

  /** Each task appears in the cue as many times as in the store if it passes the filter, else never. */
  lemma CueCounts(tasks: seq<Task>, tags: seq<Tag>, completed: seq<string>, now: int, t: Task)
    ensures multiset(SortedTasks(tasks, tags, completed, now))[t]
            == if InCue(t, completed, now) then multiset(tasks)[t] else 0
  {
    FilterMultiset(tasks, (x: Task) => InCue(x, completed, now), t);
  }

  /**
   * The cue is the only order that is sorted by score and keeps ties in
   * store order: any stable descending sort of the due tasks yields it.
   */
  lemma CueIsTheStableSort(tasks: seq<Task>, tags: seq<Tag>, completed: seq<string>, now: int, other: seq<Task>)
    requires SortedByKey(other, ScoreOf(UrgencyTable(tags)))
    requires forall k :: WithKey(other, ScoreOf(UrgencyTable(tags)), k) == WithKey(DueTasks(tasks, completed, now), ScoreOf(UrgencyTable(tags)), k)
    ensures other == SortedTasks(tasks, tags, completed, now)
  {
    StableSortIsUnique(other, SortedTasks(tasks, tags, completed, now), ScoreOf(UrgencyTable(tags)));
  }
}
