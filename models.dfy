/**
  The planner's records (categories, tasks, events, habits and habit check-ins),
  their choice sets and defaults, the database constraints declared on them, and
  what the database does on save and delete. The database itself is a `Db`
  object holding one sequence per table; each of its operations is proved
  against a transition function on a `Tables` snapshot, and the lemmas about
  those functions state what the operations promise.
*/
module Models {
  import opened Wrappers
  import opened Text
  import opened Collections

  type UserId = nat

  // ------------------------------------------------------------- timestamps

  /** A calendar date (year, month, day). */
  datatype Date = Date(year: int, month: int, day: int)

  /** A naive timestamp (year, month, day, hour, minute, second, microsecond). */
  datatype DateTime = DateTime(year: int, month: int, day: int,
                               hour: int, minute: int, second: int, microsecond: int)

  /** `t.date()`. */
  function DateOf(t: DateTime): Date {
    Date(t.year, t.month, t.day)
  }

  /** `a < b` on dates. */
  predicate DateBefore(a: Date, b: Date) {
    if a.year != b.year then a.year < b.year
    else if a.month != b.month then a.month < b.month
    else a.day < b.day
  }

  /** `a < b` on timestamps: field by field, most significant first. */
  predicate Before(a: DateTime, b: DateTime) {
    if a.year != b.year then a.year < b.year
    else if a.month != b.month then a.month < b.month
    else if a.day != b.day then a.day < b.day
    else if a.hour != b.hour then a.hour < b.hour
    else if a.minute != b.minute then a.minute < b.minute
    else if a.second != b.second then a.second < b.second
    else a.microsecond < b.microsecond
  }

  lemma BeforeIsStrictTotalOrder(a: DateTime, b: DateTime, c: DateTime)
    ensures !Before(a, a)
    ensures Before(a, b) && Before(b, c) ==> Before(a, c)
    ensures a == b || Before(a, b) || Before(b, a)
  {
  }

  /** `t.replace(second=0, microsecond=0)`: the same minute, seconds and microseconds zeroed. */
  function TruncateToMinute(t: DateTime): (r: DateTime)
    ensures r.second == 0 && r.microsecond == 0
    ensures r.(second := t.second, microsecond := t.microsecond) == t
  {
    t.(second := 0, microsecond := 0)
  }

  /** Both timestamps fall in the same minute. */
  predicate SameMinute(a: DateTime, b: DateTime) {
    a.year == b.year && a.month == b.month && a.day == b.day && a.hour == b.hour && a.minute == b.minute
  }

  predicate MinuteResolution(t: DateTime) {
    t.second == 0 && t.microsecond == 0
  }

  // ---------------------------------------------------------------- choices

  datatype Frequency = Hourly | Daily | Weekly | Monthly | Yearly

  /** The text stored for a frequency. */
  function FrequencyCode(f: Frequency): string {
    match f
    case Hourly => "hourly"
    case Daily => "daily"
    case Weekly => "weekly"
    case Monthly => "monthly"
    case Yearly => "yearly"
  }

  /** The frequency a stored text denotes, if it is one of the five choices. */
  function ParseFrequency(s: string): (r: Option<Frequency>)
    ensures r.Some? ==> FrequencyCode(r.value) == s
    ensures forall f :: FrequencyCode(f) == s ==> r == Some(f)
  {
    if s == "hourly" then Some(Hourly)
    else if s == "daily" then Some(Daily)
    else if s == "weekly" then Some(Weekly)
    else if s == "monthly" then Some(Monthly)
    else if s == "yearly" then Some(Yearly)
    else None
  }

  datatype ReminderRepeat = NoRepeat | RepeatHourly | RepeatDaily | RepeatWeekly | RepeatMonthly

  /** The text stored for a reminder repeat. */
  function RepeatCode(r: ReminderRepeat): string {
    match r
    case NoRepeat => "none"
    case RepeatHourly => "hourly"
    case RepeatDaily => "daily"
    case RepeatWeekly => "weekly"
    case RepeatMonthly => "monthly"
  }

  /** The reminder repeat a stored text denotes, if it is one of the five choices. */
  function ParseRepeat(s: string): (r: Option<ReminderRepeat>)
    ensures r.Some? ==> RepeatCode(r.value) == s
    ensures forall x :: RepeatCode(x) == s ==> r == Some(x)
  {
    if s == "none" then Some(NoRepeat)
    else if s == "hourly" then Some(RepeatHourly)
    else if s == "daily" then Some(RepeatDaily)
    else if s == "weekly" then Some(RepeatWeekly)
    else if s == "monthly" then Some(RepeatMonthly)
    else None
  }

  datatype Priority = Low | Medium | High

  /** The integer stored for a priority. */
  function PriorityValue(p: Priority): int {
    match p
    case Low => 1
    case Medium => 2
    case High => 3
  }

  /** The priority a stored integer denotes, if it is 1, 2 or 3. */
  function ParsePriority(n: int): (r: Option<Priority>)
    ensures r.Some? ==> PriorityValue(r.value) == n
    ensures forall p :: PriorityValue(p) == n ==> r == Some(p)
  {
    if n == 1 then Some(Low) else if n == 2 then Some(Medium) else if n == 3 then Some(High) else None
  }

  datatype TaskStatus = Todo | InProgress | Done

  /** The text stored for a task status. */
  function StatusCode(s: TaskStatus): string {
    match s
    case Todo => "todo"
    case InProgress => "in_progress"
    case Done => "done"
  }

  // ---------------------------------------------------------------- records

  datatype Category = Category(id: nat, name: string, owner: UserId, isInbox: bool)

  /** A row that belongs to an owner and may sit in a category: tasks and events share this shape. */
  datatype Row<F> = Row(id: nat, owner: UserId, category: Option<nat>, fields: F)

  datatype TaskFields = TaskFields(title: string, description: string, priority: Priority,
                                   status: TaskStatus, dueDate: Option<Date>,
                                   estimatedTime: Option<nat>, createdAt: DateTime)

  datatype EventFields = EventFields(title: string, description: string, location: string,
                                     start: DateTime, end: Option<DateTime>)

  type Task = Row<TaskFields>
  type Event = Row<EventFields>

  datatype Habit = Habit(id: nat, owner: UserId, name: string, active: bool,
                         frequency: Frequency, targetCount: nat,
                         preferredTimes: string, preferredWeekdays: string, preferredMonths: string,
                         reminderEnabled: bool, reminderStart: Option<DateTime>,
                         reminderRepeat: ReminderRepeat, reminderUntil: Option<Date>)

  datatype Checkin = Checkin(id: nat, habit: nat, performedAt: DateTime, done: bool)

  /** The reminder settings hang together: a start when enabled, no repeat unless enabled, no end before the start's date. */
  predicate ReminderConsistent(h: Habit) {
    && (h.reminderEnabled ==> h.reminderStart.Some?)
    && (h.reminderRepeat != NoRepeat ==> h.reminderEnabled)
    && (h.reminderStart.Some? && h.reminderUntil.Some? ==> !DateBefore(h.reminderUntil.value, DateOf(h.reminderStart.value)))
  }

  // --------------------------------------------------------------- defaults

  /** A category as the model declares it when only its name and owner are given. */
  function NewCategory(id: nat, name: string, owner: UserId): (c: Category)
    ensures !c.isInbox && c.id == id && c.name == name && c.owner == owner
  {
    Category(id, name, owner, false)
  }

  /** A task's fields when only title, description and creation time are given. */
  function NewTaskFields(title: string, description: string, createdAt: DateTime): (f: TaskFields)
    ensures PriorityValue(f.priority) == 2 && StatusCode(f.status) == "todo"
    ensures f.dueDate.None? && f.estimatedTime.None?
    ensures f.title == title && f.description == description && f.createdAt == createdAt
  {
    TaskFields(title, description, Medium, Todo, None, None, createdAt)
  }

  /** A habit when only its name and owner are given: it also meets the reminder rules. */
  function NewHabit(id: nat, owner: UserId, name: string): (h: Habit)
    ensures h.active && FrequencyCode(h.frequency) == "daily" && h.targetCount == 1
    ensures !h.reminderEnabled && RepeatCode(h.reminderRepeat) == "none"
    ensures h.reminderStart.None? && h.reminderUntil.None?
    ensures h.preferredTimes == "" && h.preferredWeekdays == "" && h.preferredMonths == ""
    ensures ReminderConsistent(h)
  {
    Habit(id, owner, name, true, Daily, 1, "", "", "", false, None, NoRepeat, None)
  }

  /** A check-in when only habit and time are given. */
  function NewCheckin(id: nat, habit: nat, performedAt: DateTime): (c: Checkin)
    ensures c.done && c.habit == habit && c.performedAt == performedAt
  {
    Checkin(id, habit, performedAt, true)
  }

  // ----------------------------------------------------------------- tables

  datatype DbError = IntegrityError | MultipleObjectsReturned

  /** One snapshot of the database: a sequence of rows per table and the next free primary key. */
  datatype Tables = Tables(categories: seq<Category>, tasks: seq<Task>, events: seq<Event>,
                           habits: seq<Habit>, checkins: seq<Checkin>, nextId: nat)

  function CategoryIds(cs: seq<Category>): set<nat> {
    set c | c in cs :: c.id
  }

  function HabitIds(hs: seq<Habit>): set<nat> {
    set h | h in hs :: h.id
  }

  /** Distinct primary keys, and `unique_together = (owner, name)`. */
  predicate CategoriesApart(a: Category, b: Category) {
    a.id != b.id && !(a.owner == b.owner && a.name == b.name)
  }

  predicate RowsApart<F>(a: Row<F>, b: Row<F>) {
    a.id != b.id
  }

  /** Distinct primary keys, and `unique_together = (owner, name)`. */
  predicate HabitsApart(a: Habit, b: Habit) {
    a.id != b.id && !(a.owner == b.owner && a.name == b.name)
  }

  /** Distinct primary keys, and the constraint `uniq_habit_performed_at`. */
  predicate CheckinsApart(a: Checkin, b: Checkin) {
    a.id != b.id && !(a.habit == b.habit && a.performedAt == b.performedAt)
  }

  /** Rows have distinct keys below `nextId` and every category they name exists. */
  ghost predicate RowsValid<F>(rows: seq<Row<F>>, categoryIds: set<nat>, nextId: nat) {
    && Pairwise(rows, RowsApart)
    && forall r :: r in rows ==> r.id < nextId && (r.category.Some? ==> r.category.value in categoryIds)
  }

  /** The constraints the database enforces, and the minute resolution every saved check-in has. */
  ghost predicate TablesValid(t: Tables) {
    && Pairwise(t.categories, CategoriesApart)
    && (forall c :: c in t.categories ==> c.id < t.nextId)
    && RowsValid(t.tasks, CategoryIds(t.categories), t.nextId)
    && RowsValid(t.events, CategoryIds(t.categories), t.nextId)
    && Pairwise(t.habits, HabitsApart)
    && (forall h :: h in t.habits ==> h.id < t.nextId)
    && Pairwise(t.checkins, CheckinsApart)
    && (forall c :: c in t.checkins ==>
          c.id < t.nextId && c.habit in HabitIds(t.habits) && MinuteResolution(c.performedAt))
  }

  // ------------------------------------------------------------- the inbox

  const InboxName: string := "Inbox"

  /** The inbox categories `u` owns. */
  function InboxesOf(cs: seq<Category>, u: UserId): (r: seq<Category>)
    ensures forall c :: c in r <==> c in cs && c.owner == u && c.isInbox
  {
    Filter(cs, (c: Category) => c.owner == u && c.isInbox)
  }

  predicate NameTaken(cs: seq<Category>, u: UserId, name: string) {
    exists c :: c in cs && c.owner == u && c.name == name
  }

  /**
    `Category.objects.get_or_create(owner=u, is_inbox=True, defaults={"name": "Inbox"})`:
    one match is returned, several raise, none inserts a new "Inbox" row, which the
    (owner, name) constraint refuses when `u` already has a category of that name.
  */
  function GetOrCreateInboxOutcome(t: Tables, u: UserId): (Tables, Result<Category, DbError>)
  {
    var found := InboxesOf(t.categories, u);
    if |found| == 1 then (t, Ok(found[0]))
    else if |found| > 1 then (t, Err(MultipleObjectsReturned))
    else if NameTaken(t.categories, u, InboxName) then (t, Err(IntegrityError))
    else
      var inbox := Category(t.nextId, InboxName, u, true);
      (t.(categories := t.categories + [inbox], nextId := t.nextId + 1), Ok(inbox))
  }

  lemma {:induction false} GetOrCreateInboxKeepsValid(t: Tables, u: UserId)
    requires TablesValid(t)
    ensures TablesValid(GetOrCreateInboxOutcome(t, u).0)
  {
    var found := InboxesOf(t.categories, u);
    if |found| == 0 && !NameTaken(t.categories, u, InboxName) {
      var inbox := Category(t.nextId, InboxName, u, true);
      AppendKeepsPairwise(t.categories, inbox, CategoriesApart);
      assert CategoryIds(t.categories) <= CategoryIds(t.categories + [inbox]);
    }
  }

  // ------------------------------------------------------- delete behaviour

  /** `on_delete=SET_NULL`: rows that named category `pk` now name none; nothing else changes. */
  function SetNullCategory<F>(rows: seq<Row<F>>, pk: nat): (r: seq<Row<F>>)
    ensures |r| == |rows|
    ensures forall i :: 0 <= i < |r| ==> r[i].(category := rows[i].category) == rows[i]
    ensures forall i :: 0 <= i < |r| ==> r[i].category != Some(pk)
    ensures forall i :: 0 <= i < |r| ==> rows[i].category != Some(pk) ==> r[i] == rows[i]
  {
    seq(|rows|, i requires 0 <= i < |rows| =>
      if rows[i].category == Some(pk) then rows[i].(category := None) else rows[i])
  }

  /** `category.delete()`: the row goes, and its tasks and events stay with a null category. */
  function DeleteCategoryOutcome(t: Tables, pk: nat): (r: Tables)
    ensures forall c :: c in r.categories <==> c in t.categories && c.id != pk
    ensures r.tasks == SetNullCategory(t.tasks, pk) && r.events == SetNullCategory(t.events, pk)
    ensures r.habits == t.habits && r.checkins == t.checkins && r.nextId == t.nextId
  {
    t.(categories := Filter(t.categories, (c: Category) => c.id != pk),
       tasks := SetNullCategory(t.tasks, pk),
       events := SetNullCategory(t.events, pk))
  }

  lemma {:induction false} SetNullKeepsRowsValid<F>(rows: seq<Row<F>>, ids: set<nat>, pk: nat, nextId: nat)
    requires RowsValid(rows, ids, nextId)
    ensures RowsValid(SetNullCategory(rows, pk), ids - {pk}, nextId)
  {
    var r := SetNullCategory(rows, pk);
    forall x | x in r
      ensures x.id < nextId && (x.category.Some? ==> x.category.value in ids - {pk})
    {
      var i :| 0 <= i < |r| && r[i] == x;
      assert rows[i] in rows;
    }
  }

  lemma {:induction false} DeleteCategoryKeepsValid(t: Tables, pk: nat)
    requires TablesValid(t)
    ensures TablesValid(DeleteCategoryOutcome(t, pk))
  {
    var r := DeleteCategoryOutcome(t, pk);
    FilterKeepsPairwise(t.categories, (c: Category) => c.id != pk, CategoriesApart);
    assert CategoryIds(t.categories) - {pk} <= CategoryIds(r.categories);
    SetNullKeepsRowsValid(t.tasks, CategoryIds(t.categories), pk, t.nextId);
    SetNullKeepsRowsValid(t.events, CategoryIds(t.categories), pk, t.nextId);
    RowsValidWiderIds(r.tasks, CategoryIds(t.categories) - {pk}, CategoryIds(r.categories), t.nextId);
    RowsValidWiderIds(r.events, CategoryIds(t.categories) - {pk}, CategoryIds(r.categories), t.nextId);
  }

  lemma RowsValidWiderIds<F>(rows: seq<Row<F>>, ids: set<nat>, wider: set<nat>, nextId: nat)
    requires RowsValid(rows, ids, nextId) && ids <= wider
    ensures RowsValid(rows, wider, nextId)
  {
  }

  /** `habit.delete()` with `on_delete=CASCADE`: the habit and every check-in of it go. */
  function DeleteHabitOutcome(t: Tables, id: nat): (r: Tables)
    ensures forall h :: h in r.habits <==> h in t.habits && h.id != id
    ensures forall c :: c in r.checkins <==> c in t.checkins && c.habit != id
    ensures r.categories == t.categories && r.tasks == t.tasks && r.events == t.events && r.nextId == t.nextId
  {
    t.(habits := Filter(t.habits, (h: Habit) => h.id != id),
       checkins := Filter(t.checkins, (c: Checkin) => c.habit != id))
  }

  lemma {:induction false} DeleteHabitKeepsValid(t: Tables, id: nat)
    requires TablesValid(t)
    ensures TablesValid(DeleteHabitOutcome(t, id))
  {
    var r := DeleteHabitOutcome(t, id);
    FilterKeepsPairwise(t.habits, (h: Habit) => h.id != id, HabitsApart);
    FilterKeepsPairwise(t.checkins, (c: Checkin) => c.habit != id, CheckinsApart);
    forall c | c in r.checkins
      ensures c.habit in HabitIds(r.habits)
    {
      var h :| h in t.habits && h.id == c.habit;
      assert h in r.habits;
    }
  }

  // ------------------------------------------------------ bulk updates

  /** The row belongs to `u` and sits in category `pk`: `filter(owner=u, category=pk)`. */
  predicate InCategory<F>(r: Row<F>, u: UserId, pk: nat) {
    r.owner == u && r.category == Some(pk)
  }

  /** `filter(owner=u, category=pk).delete()`: those rows go, every other row stays. */
  function RemoveRows<F(!new)>(rows: seq<Row<F>>, u: UserId, pk: nat): (r: seq<Row<F>>)
    ensures forall x :: x in r <==> x in rows && !InCategory(x, u, pk)
  {
    Filter(rows, (x: Row<F>) => !InCategory(x, u, pk))
  }

  /** `filter(owner=u, category=pk).update(category=target)`: those rows move, in place; nothing else changes. */
  function MoveRows<F>(rows: seq<Row<F>>, u: UserId, pk: nat, target: nat): (r: seq<Row<F>>)
    ensures |r| == |rows|
    ensures forall i :: 0 <= i < |r| ==> r[i].(category := rows[i].category) == rows[i]
    ensures forall i :: 0 <= i < |r| ==> InCategory(rows[i], u, pk) ==> r[i].category == Some(target)
    ensures forall i :: 0 <= i < |r| ==> !InCategory(rows[i], u, pk) ==> r[i] == rows[i]
  {
    seq(|rows|, i requires 0 <= i < |rows| =>
      if InCategory(rows[i], u, pk) then rows[i].(category := Some(target)) else rows[i])
  }

  /** The same `delete()` on the task and on the event table. */
  function RemoveCategoryRowsOutcome(t: Tables, u: UserId, pk: nat): Tables {
    t.(tasks := RemoveRows(t.tasks, u, pk), events := RemoveRows(t.events, u, pk))
  }

  /** The same `update(category=target)` on the task and on the event table. */
  function MoveCategoryRowsOutcome(t: Tables, u: UserId, pk: nat, target: nat): Tables {
    t.(tasks := MoveRows(t.tasks, u, pk, target), events := MoveRows(t.events, u, pk, target))
  }

  lemma {:induction false} RemoveRowsKeepsValid<F(!new)>(rows: seq<Row<F>>, ids: set<nat>, nextId: nat, u: UserId, pk: nat)
    requires RowsValid(rows, ids, nextId)
    ensures RowsValid(RemoveRows(rows, u, pk), ids, nextId)
  {
    FilterKeepsPairwise(rows, (x: Row<F>) => !InCategory(x, u, pk), RowsApart);
  }

  lemma {:induction false} MoveRowsKeepsValid<F>(rows: seq<Row<F>>, ids: set<nat>, nextId: nat, u: UserId, pk: nat, target: nat)
    requires RowsValid(rows, ids, nextId) && target in ids
    ensures RowsValid(MoveRows(rows, u, pk, target), ids, nextId)
  {
    var r := MoveRows(rows, u, pk, target);
    forall i, j | 0 <= i < |r| && 0 <= j < |r| && i != j
      ensures RowsApart(r[i], r[j])
    {
      assert RowsApart(rows[i], rows[j]);
    }
    forall x | x in r
      ensures x.id < nextId && (x.category.Some? ==> x.category.value in ids)
    {
      var i :| 0 <= i < |r| && r[i] == x;
      assert rows[i] in rows;
    }
  }

  lemma RemoveCategoryRowsKeepsValid(t: Tables, u: UserId, pk: nat)
    requires TablesValid(t)
    ensures TablesValid(RemoveCategoryRowsOutcome(t, u, pk))
  {
    RemoveRowsKeepsValid(t.tasks, CategoryIds(t.categories), t.nextId, u, pk);
    RemoveRowsKeepsValid(t.events, CategoryIds(t.categories), t.nextId, u, pk);
  }

  lemma MoveCategoryRowsKeepsValid(t: Tables, u: UserId, pk: nat, target: nat)
    requires TablesValid(t) && target in CategoryIds(t.categories)
    ensures TablesValid(MoveCategoryRowsOutcome(t, u, pk, target))
  {
    MoveRowsKeepsValid(t.tasks, CategoryIds(t.categories), t.nextId, u, pk, target);
    MoveRowsKeepsValid(t.events, CategoryIds(t.categories), t.nextId, u, pk, target);
  }

  // ----------------------------------------------------------- new rows

  /**
    Saving a new task: it takes the next free key; a category that does not
    exist breaks the foreign key constraint.
  */
  function SaveTaskOutcome(t: Tables, owner: UserId, category: Option<nat>, fields: TaskFields): (Tables, Result<Task, DbError>)
  {
    var row := Row(t.nextId, owner, category, fields);
    if category.Some? && category.value !in CategoryIds(t.categories) then (t, Err(IntegrityError))
    else (t.(tasks := t.tasks + [row], nextId := t.nextId + 1), Ok(row))
  }

  /** Saving a new event, under the same rules as a new task. */
  function SaveEventOutcome(t: Tables, owner: UserId, category: Option<nat>, fields: EventFields): (Tables, Result<Event, DbError>)
  {
    var row := Row(t.nextId, owner, category, fields);
    if category.Some? && category.value !in CategoryIds(t.categories) then (t, Err(IntegrityError))
    else (t.(events := t.events + [row], nextId := t.nextId + 1), Ok(row))
  }

  lemma {:induction false} AppendRowKeepsValid<F>(rows: seq<Row<F>>, ids: set<nat>, nextId: nat, row: Row<F>)
    requires RowsValid(rows, ids, nextId)
    requires row.id == nextId && (row.category.Some? ==> row.category.value in ids)
    ensures RowsValid(rows + [row], ids, nextId + 1)
  {
    AppendKeepsPairwise(rows, row, RowsApart);
  }

  lemma SaveTaskKeepsValid(t: Tables, owner: UserId, category: Option<nat>, fields: TaskFields)
    requires TablesValid(t)
    ensures TablesValid(SaveTaskOutcome(t, owner, category, fields).0)
  {
    var row := Row(t.nextId, owner, category, fields);
    if !(category.Some? && category.value !in CategoryIds(t.categories)) {
      AppendRowKeepsValid(t.tasks, CategoryIds(t.categories), t.nextId, row);
    }
  }

  lemma SaveEventKeepsValid(t: Tables, owner: UserId, category: Option<nat>, fields: EventFields)
    requires TablesValid(t)
    ensures TablesValid(SaveEventOutcome(t, owner, category, fields).0)
  {
    var row := Row(t.nextId, owner, category, fields);
    if !(category.Some? && category.value !in CategoryIds(t.categories)) {
      AppendRowKeepsValid(t.events, CategoryIds(t.categories), t.nextId, row);
    }
  }

  // ------------------------------------------------------------ check-ins

  /** A stored check-in of `habit` already sits at `at`. */
  predicate CheckinAt(cs: seq<Checkin>, habit: nat, at: DateTime) {
    exists k :: k in cs && k.habit == habit && k.performedAt == at
  }

  /**
    `HabitCheckin(habit=…, performed_at=…, done=…).save()` for a new row: the time is
    truncated to the minute, then the row is inserted, unless the habit does not
    exist or the (habit, performed_at) constraint already holds a row for that minute.
  */
  function SaveCheckinOutcome(t: Tables, habit: nat, performedAt: DateTime, done: bool): (Tables, Result<Checkin, DbError>)
  {
    var c := Checkin(t.nextId, habit, TruncateToMinute(performedAt), done);
    if habit !in HabitIds(t.habits) then (t, Err(IntegrityError))
    else if CheckinAt(t.checkins, habit, c.performedAt) then (t, Err(IntegrityError))
    else (t.(checkins := t.checkins + [c], nextId := t.nextId + 1), Ok(c))
  }

  lemma {:induction false} SaveCheckinKeepsValid(t: Tables, habit: nat, performedAt: DateTime, done: bool)
    requires TablesValid(t)
    ensures TablesValid(SaveCheckinOutcome(t, habit, performedAt, done).0)
  {
    var c := Checkin(t.nextId, habit, TruncateToMinute(performedAt), done);
    if habit in HabitIds(t.habits) && !CheckinAt(t.checkins, habit, c.performedAt) {
      AppendKeepsPairwise(t.checkins, c, CheckinsApart);
    }
  }

  /**
    A new check-in is stored with its time cut to the minute and its habit and `done` as
    given; a refused one (unknown habit, or that minute taken) leaves the tables as they are.
  */
  lemma SaveCheckinStores(t: Tables, habit: nat, performedAt: DateTime, done: bool)
    ensures var (t', r) := SaveCheckinOutcome(t, habit, performedAt, done);
      && (r.Ok? <==> habit in HabitIds(t.habits) && !CheckinAt(t.checkins, habit, TruncateToMinute(performedAt)))
      && (r.Ok? ==> && r.value.performedAt == TruncateToMinute(performedAt)
                    && r.value.habit == habit && r.value.done == done
                    && t' == t.(checkins := t.checkins + [r.value], nextId := t.nextId + 1))
      && (r.Err? ==> t' == t && r.error == IntegrityError)
  {
  }

  // --------------------------------------------------------------- habits

  /** A stored habit of `owner` already has exactly this name. */
  predicate HabitNameTaken(hs: seq<Habit>, owner: UserId, name: string) {
    exists h :: h in hs && h.owner == owner && h.name == name
  }

  /**
    `Habit.save()` of a new habit: the row is inserted under the next key, unless the
    (owner, name) constraint already holds a habit of that owner with that exact name.
  */
  function SaveHabitOutcome(t: Tables, h: Habit): (Tables, Result<Habit, DbError>)
  {
    var row := h.(id := t.nextId);
    if HabitNameTaken(t.habits, h.owner, h.name) then (t, Err(IntegrityError))
    else (t.(habits := t.habits + [row], nextId := t.nextId + 1), Ok(row))
  }

  lemma {:induction false} SaveHabitKeepsValid(t: Tables, h: Habit)
    requires TablesValid(t)
    ensures TablesValid(SaveHabitOutcome(t, h).0)
  {
    var row := h.(id := t.nextId);
    if !HabitNameTaken(t.habits, h.owner, h.name) {
      AppendKeepsPairwise(t.habits, row, HabitsApart);
      var r := SaveHabitOutcome(t, h).0;
      assert HabitIds(t.habits) <= HabitIds(r.habits);
    }
  }

  /**
    A new habit is stored with every field as given and a fresh key, exactly when its owner
    has no habit of that name; a refused one leaves the tables as they are.
  */
  lemma SaveHabitStores(t: Tables, h: Habit)
    ensures var (t', r) := SaveHabitOutcome(t, h);
      && (r.Ok? <==> !HabitNameTaken(t.habits, h.owner, h.name))
      && (r.Ok? ==> && r.value.(id := h.id) == h && r.value.id == t.nextId
                    && t' == t.(habits := t.habits + [r.value], nextId := t.nextId + 1))
      && (r.Err? ==> t' == t && r.error == IntegrityError)
  {
  }

  // ------------------------------------------------------------- database

  /** The database: one sequence of rows per table, and the next free primary key. */
  class Db {
    var categories: seq<Category>
    var tasks: seq<Task>
    var events: seq<Event>
    var habits: seq<Habit>
    var checkins: seq<Checkin>
    var nextId: nat

    function Snapshot(): Tables
      reads this
    {
      Tables(categories, tasks, events, habits, checkins, nextId)
    }

    ghost predicate Valid()
      reads this
    {
      TablesValid(Snapshot())
    }

    constructor ()
      ensures Valid()
      ensures Snapshot() == Tables([], [], [], [], [], 1)
    {
      categories, tasks, events, habits, checkins := [], [], [], [], [];
      nextId := 1;
    }

    /** `Category.objects.get_or_create(owner=u, is_inbox=True, defaults={"name": "Inbox"})`. */
    method GetOrCreateInbox(u: UserId) returns (r: Result<Category, DbError>)
      requires Valid()
      modifies this
      ensures Valid()
      ensures (Snapshot(), r) == GetOrCreateInboxOutcome(old(Snapshot()), u)
    {
      GetOrCreateInboxKeepsValid(Snapshot(), u);
      var found := InboxesOf(categories, u);
      if |found| == 1 {
        r := Ok(found[0]);
      } else if |found| > 1 {
        r := Err(MultipleObjectsReturned);
      } else if NameTaken(categories, u, InboxName) {
        r := Err(IntegrityError);
      } else {
        var inbox := Category(nextId, InboxName, u, true);
        categories := categories + [inbox];
        nextId := nextId + 1;
        r := Ok(inbox);
      }
    }

    /** `Category.delete()`: `SET_NULL` on the tasks and events that name it, then the row goes. */
    method DeleteCategory(pk: nat)
      requires Valid()
      modifies this
      ensures Valid()
      ensures Snapshot() == DeleteCategoryOutcome(old(Snapshot()), pk)
    {
      ghost var after := DeleteCategoryOutcome(Snapshot(), pk);
      DeleteCategoryKeepsValid(Snapshot(), pk);
      tasks := SetNullCategory(tasks, pk);
      events := SetNullCategory(events, pk);
      categories := Filter(categories, (c: Category) => c.id != pk);
      assert Snapshot() == after;
    }

    /** `Habit.delete()`: the habit's check-ins are deleted with it. */
    method DeleteHabit(id: nat)
      requires Valid()
      modifies this
      ensures Valid()
      ensures Snapshot() == DeleteHabitOutcome(old(Snapshot()), id)
    {
      DeleteHabitKeepsValid(Snapshot(), id);
      checkins := Filter(checkins, (c: Checkin) => c.habit != id);
      habits := Filter(habits, (h: Habit) => h.id != id);
    }

    /** `Task.objects.filter(owner=u, category=pk).delete()` and the same on events. */
    method RemoveCategoryRows(u: UserId, pk: nat)
      requires Valid()
      modifies this
      ensures Valid()
      ensures Snapshot() == RemoveCategoryRowsOutcome(old(Snapshot()), u, pk)
    {
      ghost var after := RemoveCategoryRowsOutcome(Snapshot(), u, pk);
      RemoveCategoryRowsKeepsValid(Snapshot(), u, pk);
      tasks := RemoveRows(tasks, u, pk);
      events := RemoveRows(events, u, pk);
      assert Snapshot() == after;
    }

    /** `Task.objects.filter(owner=u, category=pk).update(category=target)` and the same on events. */
    method MoveCategoryRows(u: UserId, pk: nat, target: nat)
      requires Valid() && target in CategoryIds(categories)
      modifies this
      ensures Valid()
      ensures Snapshot() == MoveCategoryRowsOutcome(old(Snapshot()), u, pk, target)
    {
      MoveCategoryRowsKeepsValid(Snapshot(), u, pk, target);
      tasks := MoveRows(tasks, u, pk, target);
      events := MoveRows(events, u, pk, target);
    }

    /** `Task.save()` of a new task. */
    method SaveTask(owner: UserId, category: Option<nat>, fields: TaskFields) returns (r: Result<Task, DbError>)
      requires Valid()
      modifies this
      ensures Valid()
      ensures (Snapshot(), r) == SaveTaskOutcome(old(Snapshot()), owner, category, fields)
    {
      SaveTaskKeepsValid(Snapshot(), owner, category, fields);
      var row := Row(nextId, owner, category, fields);
      if category.Some? && category.value !in CategoryIds(categories) {
        r := Err(IntegrityError);
      } else {
        tasks := tasks + [row];
        nextId := nextId + 1;
        r := Ok(row);
      }
    }

    /** `Event.save()` of a new event. */
    method SaveEvent(owner: UserId, category: Option<nat>, fields: EventFields) returns (r: Result<Event, DbError>)
      requires Valid()
      modifies this
      ensures Valid()
      ensures (Snapshot(), r) == SaveEventOutcome(old(Snapshot()), owner, category, fields)
    {
      SaveEventKeepsValid(Snapshot(), owner, category, fields);
      var row := Row(nextId, owner, category, fields);
      if category.Some? && category.value !in CategoryIds(categories) {
        r := Err(IntegrityError);
      } else {
        events := events + [row];
        nextId := nextId + 1;
        r := Ok(row);
      }
    }

    /** `HabitCheckin.save()` of a new check-in: `performed_at` is cut to the minute in place, then the row is inserted. */
    method SaveCheckin(habit: nat, performedAt: DateTime, done: bool) returns (r: Result<Checkin, DbError>)
      requires Valid()
      modifies this
      ensures Valid()
      ensures (Snapshot(), r) == SaveCheckinOutcome(old(Snapshot()), habit, performedAt, done)
    {
      SaveCheckinKeepsValid(Snapshot(), habit, performedAt, done);
      var at := performedAt;
      at := at.(second := 0, microsecond := 0);
      var c := Checkin(nextId, habit, at, done);
      if habit !in HabitIds(habits) {
        r := Err(IntegrityError);
      } else if CheckinAt(checkins, habit, at) {
        r := Err(IntegrityError);
      } else {
        checkins := checkins + [c];
        nextId := nextId + 1;
        r := Ok(c);
      }
    }

    /** `Habit.save()` of a new habit: the row is inserted under the next key. */
    method SaveHabit(h: Habit) returns (r: Result<Habit, DbError>)
      requires Valid()
      modifies this
      ensures Valid()
      ensures (Snapshot(), r) == SaveHabitOutcome(old(Snapshot()), h)
    {
      SaveHabitKeepsValid(Snapshot(), h);
      if HabitNameTaken(habits, h.owner, h.name) {
        r := Err(IntegrityError);
      } else {
        var row := h.(id := nextId);
        habits := habits + [row];
        nextId := nextId + 1;
        r := Ok(row);
      }
    }
  }
}
