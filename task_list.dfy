/**
 * The task records of the voice task manager page and the pure list
 * transformations its handlers pass to `setTasks`, together with the derived
 * values the page shows: completed and pending counts, the progress
 * percentage, the incomplete-first ordering, and the reminder and overdue tests.
 */
module TaskList {
  import opened Optional
  import opened JsString
  import opened SeqFilter

  /** A due date as stored (the text the user typed) and the instant `new Date` resolves it to, if it parses. */
  datatype Due = Due(raw: string, instant: Option<int>)

  /** One task record `{id, text, completed, createdAt, dueDate}`; ids and times are milliseconds since the epoch. */
  datatype Task = Task(id: int, text: string, completed: bool, createdAt: int, dueDate: Option<Due>)

  /** The task text as voice commands compare it: lower-cased. */
  function LowerText(t: Task): string {
    ToLower(t.text)
  }

  predicate IsCompleted(t: Task) {
    t.completed
  }

  predicate IsPending(t: Task) {
    !t.completed
  }

  // ---------------------------------------------------------------------------
  // Voice delete and complete: match on the lower-cased text
  // ---------------------------------------------------------------------------

  /** The filter predicate of the voice delete: the task's lower-cased text differs from `text`. */
  function TextDiffers(text: string): Task -> bool {
    t => LowerText(t) != text
  }

  /** The voice delete: keep the tasks whose lower-cased text is not the spoken text, in order. */
  function DeleteByText(ts: seq<Task>, text: string): (r: seq<Task>)
    ensures |r| <= |ts|
    ensures forall t :: t in r <==> t in ts && LowerText(t) != text
  {
    Filter(ts, TextDiffers(text))
  }

  /** Deleting by text keeps the survivors in their original order: it distributes over concatenation. */
  lemma DeleteByTextConcat(a: seq<Task>, b: seq<Task>, text: string)
    ensures DeleteByText(a + b, text) == DeleteByText(a, text) + DeleteByText(b, text)
  {
    FilterConcat(a, b, TextDiffers(text));
  }

  /** When no task's lower-cased text equals `text`, deleting by text changes nothing. */
  lemma DeleteByTextNoMatch(ts: seq<Task>, text: string)
    requires forall t :: t in ts ==> LowerText(t) != text
    ensures DeleteByText(ts, text) == ts
  {
    FilterKeepsAll(ts, TextDiffers(text));
  }

  /**
   * The voice complete: mark done every task whose lower-cased text is the spoken text;
   * same length and order; exactly the matching tasks become completed and no
   * other field of any task changes.
   */
  function CompleteByText(ts: seq<Task>, text: string): (r: seq<Task>)
    ensures |r| == |ts|
    ensures forall i :: 0 <= i < |ts| ==> r[i].completed == (ts[i].completed || LowerText(ts[i]) == text)
    ensures forall i :: 0 <= i < |ts| ==> r[i].(completed := ts[i].completed) == ts[i]
  {
    if ts == [] then []
    else
      var t := ts[0];
      [if LowerText(t) == text then t.(completed := true) else t] + CompleteByText(ts[1..], text)
  }

  /** Completing the same text twice is the same as completing it once. */
  lemma {:induction false} CompleteByTextIdempotent(ts: seq<Task>, text: string)
    ensures CompleteByText(CompleteByText(ts, text), text) == CompleteByText(ts, text)
  {
    var once := CompleteByText(ts, text);
    var twice := CompleteByText(once, text);
    forall i | 0 <= i < |ts| ensures twice[i] == once[i] {
      assert once[i].(completed := ts[i].completed) == ts[i];
      assert LowerText(once[i]) == LowerText(ts[i]);
    }
  }

  // ---------------------------------------------------------------------------
  // Click handlers: toggle and delete by id
  // ---------------------------------------------------------------------------

  /**
   * The completion toggle of a task card, applied to every task carrying that id:
   * flips `completed` on the tasks with that id and changes nothing else.
   */
  function ToggleById(ts: seq<Task>, id: int): (r: seq<Task>)
    ensures |r| == |ts|
    ensures forall i :: 0 <= i < |ts| ==> r[i].completed == (ts[i].completed != (ts[i].id == id))
    ensures forall i :: 0 <= i < |ts| ==> r[i].(completed := ts[i].completed) == ts[i]
  {
    if ts == [] then []
    else
      var t := ts[0];
      [if t.id == id then t.(completed := !t.completed) else t] + ToggleById(ts[1..], id)
  }

  /** Toggling the same id twice restores the original list. */
  lemma {:induction false} ToggleByIdTwice(ts: seq<Task>, id: int)
    ensures ToggleById(ToggleById(ts, id), id) == ts
  {
    var once := ToggleById(ts, id);
    var twice := ToggleById(once, id);
    forall i | 0 <= i < |ts| ensures twice[i] == ts[i] {
      assert once[i].(completed := ts[i].completed) == ts[i];
      assert twice[i].(completed := once[i].completed) == once[i];
    }
  }

  /** The filter predicate of the delete button: the task carries another id. */
  function IdDiffers(id: int): Task -> bool {
    (t: Task) => t.id != id
  }

  /** The delete button of a task card: removes exactly the tasks carrying that id. */
  function DeleteById(ts: seq<Task>, id: int): (r: seq<Task>)
    ensures |r| <= |ts|
    ensures forall t :: t in r <==> t in ts && t.id != id
  {
    Filter(ts, IdDiffers(id))
  }

  /** Deleting by id keeps the other tasks in their original order: it distributes over concatenation. */
  lemma DeleteByIdConcat(a: seq<Task>, b: seq<Task>, id: int)
    ensures DeleteById(a + b, id) == DeleteById(a, id) + DeleteById(b, id)
  {
    FilterConcat(a, b, IdDiffers(id));
  }

  /** Deleting an id that no task carries changes nothing. */
  lemma DeleteByIdAbsent(ts: seq<Task>, id: int)
    requires forall t :: t in ts ==> t.id != id
    ensures DeleteById(ts, id) == ts
  {
    FilterKeepsAll(ts, IdDiffers(id));
  }

  // ---------------------------------------------------------------------------
  // Counts and progress
  // ---------------------------------------------------------------------------

  /** The number of completed tasks. */
  function CompletedCount(ts: seq<Task>): (n: nat)
    ensures n <= |ts|
  {
    |Filter(ts, IsCompleted)|
  }

  /** The number of open tasks, the "pending" figure in the list heading. */
  function PendingCount(ts: seq<Task>): (n: nat)
    ensures n <= |ts|
  {
    |Filter(ts, IsPending)|
  }

  /** Pending and completed tasks split the list: together they are the whole list, as a multiset. */
  lemma {:induction false} PendingCompletedPartition(ts: seq<Task>)
    ensures multiset(Filter(ts, IsPending)) + multiset(Filter(ts, IsCompleted)) == multiset(ts)
    ensures PendingCount(ts) + CompletedCount(ts) == |ts|
  {
    if ts != [] {
      PendingCompletedPartition(ts[1..]);
      assert ts == [ts[0]] + ts[1..];
    }
  }

  /** Multiplying by a non-negative number keeps the order. */
  lemma MulMonotone(a: int, b: int, d: int)
    requires a <= b && d >= 0
    ensures a * d <= b * d
  {
    assert b * d - a * d == (b - a) * d;
  }

  /** `x / d == q` whenever `q * d <= x < (q + 1) * d`. */
  lemma DivIsBetween(x: int, d: int, q: int)
    requires d > 0 && q * d <= x < (q + 1) * d
    ensures x / d == q
  {
    var k := x / d;
    assert k * d <= x < (k + 1) * d;
    if k < q {
      MulMonotone(k + 1, q, d);
    } else if k > q {
      MulMonotone(q + 1, k, d);
    }
  }

  /** The integer nearest to `100 * c / n`, halves rounded up, lies in [0, 100] and hits both ends. */
  lemma RoundedPercentBounds(c: int, n: int)
    requires 0 <= c <= n && n > 0
    ensures 0 <= (200 * c + n) / (2 * n) <= 100
    ensures 2 * n * ((200 * c + n) / (2 * n)) <= 200 * c + n < 2 * n * ((200 * c + n) / (2 * n) + 1)
    ensures c == 0 ==> (200 * c + n) / (2 * n) == 0
    ensures c == n ==> (200 * c + n) / (2 * n) == 100
  {
    var x, d := 200 * c + n, 2 * n;
    var p := x / d;
    assert p * d <= x < (p + 1) * d;
    assert d * p == p * d && d * (p + 1) == (p + 1) * d;
    if p < 0 {
      MulMonotone(p + 1, 0, d);
    } else if p > 100 {
      MulMonotone(101, p, d);
    }
    if c == 0 {
      DivIsBetween(x, d, 0);
    }
    if c == n {
      DivIsBetween(x, d, 100);
    }
  }

  /**
   * The progress percentage, the completed share of the list rounded to a whole percent, or 0 for an
   * empty list, computed on exact rationals: the integer nearest to
   * `100 * completed / total`, halves rounded up.
   */
  function Progress(ts: seq<Task>): (p: int)
    ensures 0 <= p <= 100
    ensures |ts| > 0 ==> 2 * |ts| * p <= 200 * CompletedCount(ts) + |ts| < 2 * |ts| * (p + 1)
    ensures CompletedCount(ts) == 0 ==> p == 0
    ensures |ts| > 0 && CompletedCount(ts) == |ts| ==> p == 100
  {
    var n, c := |ts|, CompletedCount(ts);
    if n == 0 then 0
    else
      RoundedPercentBounds(c, n);
      (200 * c + n) / (2 * n)
  }

  // ---------------------------------------------------------------------------
  // Incomplete-first ordering
  // ---------------------------------------------------------------------------

  /** The sort key: 0 for an open task, 1 for a completed one. */
  function Rank(t: Task): int {
    if t.completed then 1 else 0
  }

  /** Inserts `t`, which came before every element of `sorted`, ahead of the first element whose key is not smaller. */
  function InsertByRank(t: Task, sorted: seq<Task>): seq<Task> {
    if sorted == [] || Rank(t) <= Rank(sorted[0]) then [t] + sorted
    else [sorted[0]] + InsertByRank(t, sorted[1..])
  }

  /**
   * The displayed order: a sorted copy with open tasks (key 0) before completed
   * ones (key 1), stable as the language requires; here an insertion sort on the key.
   */
  function SortIncompleteFirst(ts: seq<Task>): seq<Task> {
    if ts == [] then [] else InsertByRank(ts[0], SortIncompleteFirst(ts[1..]))
  }

  /** An incomplete task goes in front: its key is the smallest. */
  lemma InsertPendingFirst(t: Task, sorted: seq<Task>)
    requires !t.completed
    ensures InsertByRank(t, sorted) == [t] + sorted
  {
  }

  /** A completed task inserted into "pending then completed" goes right after the pending ones. */
  lemma {:induction false} InsertCompletedAfterPending(t: Task, pending: seq<Task>, done: seq<Task>)
    requires t.completed
    requires forall x :: x in pending ==> !x.completed
    requires forall x :: x in done ==> x.completed
    ensures InsertByRank(t, pending + done) == pending + [t] + done
  {
    if pending == [] {
      assert pending + done == done;
    } else {
      assert (pending + done)[0] == pending[0];
      assert (pending + done)[1..] == pending[1..] + done;
      InsertCompletedAfterPending(t, pending[1..], done);
    }
  }

  /** An open task inserted into a list's two groups lands ahead of both. */
  lemma InsertPendingBeforeGroups(t: Task, rest: seq<Task>)
    requires !t.completed
    ensures InsertByRank(t, Filter(rest, IsPending) + Filter(rest, IsCompleted))
            == ([t] + Filter(rest, IsPending)) + Filter(rest, IsCompleted)
  {
    var pending, done := Filter(rest, IsPending), Filter(rest, IsCompleted);
    InsertPendingFirst(t, pending + done);
    assert [t] + (pending + done) == ([t] + pending) + done;
  }

  /** With an open first task, the pending group starts with it and the completed group skips it. */
  lemma GroupsOfPendingHead(ts: seq<Task>)
    requires ts != [] && !ts[0].completed
    ensures Filter(ts, IsPending) == [ts[0]] + Filter(ts[1..], IsPending)
    ensures Filter(ts, IsCompleted) == Filter(ts[1..], IsCompleted)
  {
    assert ts == [ts[0]] + ts[1..];
    FilterCons(ts[0], ts[1..], IsPending);
    FilterCons(ts[0], ts[1..], IsCompleted);
  }

  /** One step of the sort when the first task is incomplete: it lands at the front. */
  lemma SortStepPending(ts: seq<Task>)
    requires ts != [] && !ts[0].completed
    requires SortIncompleteFirst(ts[1..]) == Filter(ts[1..], IsPending) + Filter(ts[1..], IsCompleted)
    ensures SortIncompleteFirst(ts) == Filter(ts, IsPending) + Filter(ts, IsCompleted)
  {
    assert SortIncompleteFirst(ts) == InsertByRank(ts[0], SortIncompleteFirst(ts[1..]));
    InsertPendingBeforeGroups(ts[0], ts[1..]);
    GroupsOfPendingHead(ts);
  }

  /** A completed task inserted into a list's two groups lands between them. */
  lemma InsertCompletedBetweenGroups(t: Task, rest: seq<Task>)
    requires t.completed
    ensures InsertByRank(t, Filter(rest, IsPending) + Filter(rest, IsCompleted))
            == Filter(rest, IsPending) + ([t] + Filter(rest, IsCompleted))
  {
    var pending, done := Filter(rest, IsPending), Filter(rest, IsCompleted);
    assert forall x :: x in pending ==> !x.completed;
    assert forall x :: x in done ==> x.completed;
    InsertCompletedAfterPending(t, pending, done);
  }

  /** With a completed first task, the pending group skips it and the completed group starts with it. */
  lemma GroupsOfCompletedHead(ts: seq<Task>)
    requires ts != [] && ts[0].completed
    ensures Filter(ts, IsPending) == Filter(ts[1..], IsPending)
    ensures Filter(ts, IsCompleted) == [ts[0]] + Filter(ts[1..], IsCompleted)
  {
    assert ts == [ts[0]] + ts[1..];
    FilterCons(ts[0], ts[1..], IsPending);
    FilterCons(ts[0], ts[1..], IsCompleted);
  }

  /** One step of the sort when the first task is completed: it lands right after the incomplete ones. */
  lemma SortStepCompleted(ts: seq<Task>)
    requires ts != [] && ts[0].completed
    requires SortIncompleteFirst(ts[1..]) == Filter(ts[1..], IsPending) + Filter(ts[1..], IsCompleted)
    ensures SortIncompleteFirst(ts) == Filter(ts, IsPending) + Filter(ts, IsCompleted)
  {
    assert SortIncompleteFirst(ts) == InsertByRank(ts[0], SortIncompleteFirst(ts[1..]));
    InsertCompletedBetweenGroups(ts[0], ts[1..]);
    GroupsOfCompletedHead(ts);
  }

  /** The sorted list is the pending tasks followed by the completed tasks, each group in list order. */
  lemma {:induction false} SortIsPendingThenCompleted(ts: seq<Task>)
    ensures SortIncompleteFirst(ts) == Filter(ts, IsPending) + Filter(ts, IsCompleted)
  {
    if ts != [] {
      SortIsPendingThenCompleted(ts[1..]);
      if ts[0].completed {
        SortStepCompleted(ts);
      } else {
        SortStepPending(ts);
      }
    }
  }

  /** The incomplete-first ordering is a permutation of the list. */
  lemma SortedIsPermutation(ts: seq<Task>)
    ensures multiset(SortIncompleteFirst(ts)) == multiset(ts)
  {
    SortIsPendingThenCompleted(ts);
    PendingCompletedPartition(ts);
  }

  /** In the incomplete-first ordering no completed task precedes an incomplete one. */
  lemma SortedPutsPendingFirst(ts: seq<Task>)
    ensures var sorted := SortIncompleteFirst(ts);
      forall i, j :: 0 <= i < j < |sorted| && sorted[i].completed ==> sorted[j].completed
  {
    var pending, done := Filter(ts, IsPending), Filter(ts, IsCompleted);
    var sorted := SortIncompleteFirst(ts);
    SortIsPendingThenCompleted(ts);
    forall k | 0 <= k < |pending| ensures !sorted[k].completed {
      assert sorted[k] == pending[k] && pending[k] in pending;
    }
    forall k | |pending| <= k < |sorted| ensures sorted[k].completed {
      assert sorted[k] == done[k - |pending|] && done[k - |pending|] in done;
    }
  }

  /** The incomplete-first ordering is stable: each group keeps its order from the list. */
  lemma SortedIsStable(ts: seq<Task>)
    ensures Filter(SortIncompleteFirst(ts), IsPending) == Filter(ts, IsPending)
    ensures Filter(SortIncompleteFirst(ts), IsCompleted) == Filter(ts, IsCompleted)
  {
    var pending, done := Filter(ts, IsPending), Filter(ts, IsCompleted);
    SortIsPendingThenCompleted(ts);
    FilterConcat(pending, done, IsPending);
    FilterConcat(pending, done, IsCompleted);
    FilterKeepsAll(pending, IsPending);
    FilterDropsAll(done, IsPending);
    FilterDropsAll(pending, IsCompleted);
    FilterKeepsAll(done, IsCompleted);
    assert pending + [] == pending;
    assert [] + done == done;
  }

  // ---------------------------------------------------------------------------
  // Reminder and overdue tests
  // ---------------------------------------------------------------------------

  /** The task has a due date: present and not the empty string. */
  predicate HasDueDate(t: Task) {
    t.dueDate.Some? && t.dueDate.value.raw != ""
  }

  /** The reminder test: an open task with a due date that falls strictly within the next minute. */
  predicate DueSoon(t: Task, now: int) {
    HasDueDate(t) && !t.completed
    && match t.dueDate.value.instant
       case None => false
       case Some(due) => 0 < due - now < 60000
  }

  /** `DueSoon` at a fixed instant, as the predicate handed to `filter`. */
  function DueSoonAt(now: int): Task -> bool {
    t => DueSoon(t, now)
  }

  /** The overdue highlight: an open task whose due date lies before now. */
  predicate Overdue(t: Task, now: int) {
    HasDueDate(t) && !t.completed
    && match t.dueDate.value.instant
       case None => false
       case Some(due) => due < now
  }

  /** A task that is due soon is not overdue yet, and is overdue once the minute has passed. */
  lemma DueSoonThenOverdue(t: Task, now: int)
    requires DueSoon(t, now)
    ensures !Overdue(t, now)
    ensures Overdue(t, now + 60000)
  {
  }


  /**
   * The reminders of one walk over the first `n` tasks, where `nows[i]` is the
   * clock reading taken when task `i` is reached: in list order, the tasks
   * that are due soon at their own reading.
   */
  function Reminders(ts: seq<Task>, nows: seq<int>, n: nat): (r: seq<Task>)
    requires n <= |ts| && |ts| == |nows|
    ensures |r| <= n
  {
    if n == 0 then []
    else Reminders(ts, nows, n - 1) + (if DueSoon(ts[n - 1], nows[n - 1]) then [ts[n - 1]] else [])
  }

  /** A task is reminded of exactly when it is due soon at the clock reading taken for it. */
  lemma {:induction false} RemindersMembers(ts: seq<Task>, nows: seq<int>, n: nat)
    requires n <= |ts| && |ts| == |nows|
    ensures forall t :: t in Reminders(ts, nows, n) <==>
              exists i :: 0 <= i < n && ts[i] == t && DueSoon(ts[i], nows[i])
  {
    if n > 0 {
      RemindersMembers(ts, nows, n - 1);
    }
  }

  /** With one clock reading for the whole walk, the reminders are the list filtered by `DueSoon` at that instant. */
  lemma {:induction false} RemindersAtOneInstant(ts: seq<Task>, nows: seq<int>, n: nat, now: int)
    requires n <= |ts| && |ts| == |nows|
    requires forall i :: 0 <= i < n ==> nows[i] == now
    ensures Reminders(ts, nows, n) == Filter(ts[..n], DueSoonAt(now))
  {
    if n > 0 {
      RemindersAtOneInstant(ts, nows, n - 1, now);
      FilterPrefixStep(ts, n - 1, DueSoonAt(now));
    }
  }

  /**
   * The clock is read again for each task, after any earlier reminder has been
   * dismissed: two tasks due 50 s and 55 s ahead, with the first reminder
   * dismissed 56 s in, give only the first reminder, although both were due
   * soon when the walk started.
   */
  lemma LateDismissalSkipsReminder()
    ensures var first := Task(1, "first", false, 0, Some(Due("at 50 s", Some(50000))));
      var second := Task(2, "second", false, 0, Some(Due("at 55 s", Some(55000))));
      && Reminders([first, second], [0, 56000], 2) == [first]
      && Filter([first, second], DueSoonAt(0)) == [first, second]
  {
    var first := Task(1, "first", false, 0, Some(Due("at 50 s", Some(50000))));
    var second := Task(2, "second", false, 0, Some(Due("at 55 s", Some(55000))));
    FilterKeepsAll([first, second], DueSoonAt(0));
  }

}
