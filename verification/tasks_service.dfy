/** The task repository behind the task routes: the mapping between the
    API's lower-case status and priority names and the database enums, the
    serialised task, filtered and paginated listing, owner-scoped lookup,
    creation with defaults, partial update, deletion and statistics.

    The task table is a sequence of rows with distinct ids. Timestamps are
    integers (milliseconds); `new Date(iso)` and `toISOString()` are the
    parameters of `Dates`. */
module TaskService {
  import opened Common
  import opened Text
  import opened Ordering
  import opened TaskSchemas

  datatype TaskStatus = PENDING | IN_PROGRESS | COMPLETED
  datatype TaskPriority = LOW | MEDIUM | HIGH

  const TASK_NOT_FOUND := AppError("Task not found", 404)

  /** Conversions between ISO-8601 text and timestamps. */
  datatype Dates = Dates(parse: string -> int, render: int -> string)

  datatype Task = Task(
    id: string,
    title: string,
    description: string,
    status: TaskStatus,
    priority: TaskPriority,
    dueDate: Option<int>,
    userId: string,
    createdAt: int,
    updatedAt: int)

  /** A task as the API returns it. */
  datatype SerializedTask = SerializedTask(
    id: string,
    title: string,
    description: string,
    status: StatusName,
    priority: PriorityName,
    dueDate: Option<string>,
    userId: string,
    createdAt: string,
    updatedAt: string)

  datatype Pagination = Pagination(page: int, limit: int, total: nat, totalPages: nat)
  datatype TaskPage = TaskPage(data: seq<SerializedTask>, pagination: Pagination)

  datatype Stats = Stats(total: nat, pending: nat, inProgress: nat, completed: nat, completionRate: nat)

  /** The new table and what the call returned or threw. */
  datatype Outcome<+T> = Outcome(store: seq<Task>, result: Result<T>)

  // ---------------------------------------------------------------------------
  // Enum maps

  function StatusOf(name: StatusName): TaskStatus
  {
    if name == "pending" then PENDING else if name == "in_progress" then IN_PROGRESS else COMPLETED
  }

  function StatusNameOf(s: TaskStatus): StatusName
  {
    match s
    case PENDING => "pending"
    case IN_PROGRESS => "in_progress"
    case COMPLETED => "completed"
  }

  function PriorityOf(name: PriorityName): TaskPriority
  {
    if name == "low" then LOW else if name == "medium" then MEDIUM else HIGH
  }

  function PriorityNameOf(p: TaskPriority): PriorityName
  {
    match p
    case LOW => "low"
    case MEDIUM => "medium"
    case HIGH => "high"
  }

  /** The forward and reverse maps are inverse bijections. */
  lemma StatusMapsInverse(name: StatusName, s: TaskStatus)
    ensures StatusNameOf(StatusOf(name)) == name
    ensures StatusOf(StatusNameOf(s)) == s
  {
  }

  lemma PriorityMapsInverse(name: PriorityName, p: TaskPriority)
    ensures PriorityNameOf(PriorityOf(name)) == name
    ensures PriorityOf(PriorityNameOf(p)) == p
  {
  }

  function Serialize(t: Task, dates: Dates): SerializedTask
  {
    SerializedTask(t.id, t.title, t.description, StatusNameOf(t.status), PriorityNameOf(t.priority),
                   if t.dueDate.Some? then Some(dates.render(t.dueDate.value)) else None,
                   t.userId, dates.render(t.createdAt), dates.render(t.updatedAt))
  }

  /** The serialised task carries the stored enums back as their names, and
      a due date exactly when one is stored. */
  lemma SerializeFaithful(t: Task, dates: Dates)
    ensures var out := Serialize(t, dates);
            && StatusOf(out.status) == t.status
            && PriorityOf(out.priority) == t.priority
            && (out.dueDate.None? <==> t.dueDate.None?)
            && out.id == t.id && out.userId == t.userId && out.title == t.title && out.description == t.description
  {
    StatusMapsInverse("pending", t.status);
    PriorityMapsInverse("low", t.priority);
  }

  function SerializeAll(ts: seq<Task>, dates: Dates): (r: seq<SerializedTask>)
    ensures |r| == |ts|
    ensures forall i :: 0 <= i < |ts| ==> r[i] == Serialize(ts[i], dates)
  {
    seq(|ts|, i requires 0 <= i < |ts| => Serialize(ts[i], dates))
  }

  // ---------------------------------------------------------------------------
  // The table

  ghost predicate Valid(store: seq<Task>)
  {
    forall i, j :: 0 <= i < j < |store| ==> store[i].id != store[j].id
  }

  predicate IdUnused(store: seq<Task>, id: string)
  {
    forall i :: 0 <= i < |store| ==> store[i].id != id
  }

  predicate Owned(t: Task, userId: string, taskId: string)
  {
    t.id == taskId && t.userId == userId
  }

  /** `findFirst({ where: { id, userId } })`: the position of the first such row. */
  function FindOwned(store: seq<Task>, userId: string, taskId: string): (r: Option<nat>)
    ensures r.Some? ==> r.value < |store| && Owned(store[r.value], userId, taskId)
    ensures r.None? <==> forall i :: 0 <= i < |store| ==> !Owned(store[i], userId, taskId)
    ensures r.Some? ==> forall i :: 0 <= i < r.value ==> !Owned(store[i], userId, taskId)
    decreases |store|
  {
    if |store| == 0 then None
    else if Owned(store[0], userId, taskId) then Some(0)
    else match FindOwned(store[1..], userId, taskId)
      case None => None
      case Some(i) => Some(i + 1)
  }

  // ---------------------------------------------------------------------------
  // Listing

  /** The `where` clause of `getTasks`. An empty search string is falsy and
      adds no condition. */
  predicate MatchesFilters(t: Task, userId: string, filters: TaskFilters)
  {
    && t.userId == userId
    && (filters.status.Some? ==> t.status == StatusOf(filters.status.value))
    && (filters.priority.Some? ==> t.priority == PriorityOf(filters.priority.value))
    && (filters.search.Some? && filters.search.value != "" ==>
          ContainsIgnoringCase(t.title, filters.search.value)
          || ContainsIgnoringCase(t.description, filters.search.value))
  }

  function Matching(store: seq<Task>, userId: string, filters: TaskFilters): (r: seq<Task>)
    ensures forall t :: t in r <==> t in store && MatchesFilters(t, userId, filters)
    ensures |r| <= |store|
    decreases |store|
  {
    if |store| == 0 then []
    else
      var rest := Matching(store[1..], userId, filters);
      assert forall t :: t in store <==> t == store[0] || t in store[1..];
      if MatchesFilters(store[0], userId, filters) then [store[0]] + rest else rest
  }

  /** The filtered rows keep each matching row as many times as the store
      holds it, and no other row. */
  lemma {:induction false} MatchingCounts(store: seq<Task>, userId: string, filters: TaskFilters)
    ensures forall t :: multiset(Matching(store, userId, filters))[t]
                          == if MatchesFilters(t, userId, filters) then multiset(store)[t] else 0
    decreases |store|
  {
    if |store| > 0 {
      MatchingCounts(store[1..], userId, filters);
      assert store == [store[0]] + store[1..];
    }
  }

  /** Code-unit order on strings, standing for the database collation. */
  predicate TextLe(a: string, b: string)
    decreases |a|
  {
    if |a| == 0 then true
    else if |b| == 0 then false
    else if a[0] != b[0] then a[0] < b[0]
    else TextLe(a[1..], b[1..])
  }

  lemma {:induction false} TextLeTotal(a: string, b: string)
    ensures TextLe(a, b) || TextLe(b, a)
    decreases |a|
  {
    if |a| > 0 && |b| > 0 && a[0] == b[0] {
      TextLeTotal(a[1..], b[1..]);
    }
  }

  lemma {:induction false} TextLeTransitive(a: string, b: string, c: string)
    requires TextLe(a, b) && TextLe(b, c)
    ensures TextLe(a, c)
    decreases |a|
  {
    if |a| > 0 && |b| > 0 && |c| > 0 && a[0] == b[0] && b[0] == c[0] {
      TextLeTransitive(a[1..], b[1..], c[1..]);
    }
  }

  function PriorityRank(p: TaskPriority): nat
  {
    match p
    case LOW => 0
    case MEDIUM => 1
    case HIGH => 2
  }

  /** Ascending due dates put tasks without one last, as PostgreSQL does. */
  predicate DueLe(a: Option<int>, b: Option<int>)
  {
    b.None? || (a.Some? && a.value <= b.value)
  }

  /** `a` comes no later than `b` when sorting ascending on `field`. */
  predicate KeyLe(field: SortField, a: Task, b: Task)
  {
    if field == "createdAt" then a.createdAt <= b.createdAt
    else if field == "dueDate" then DueLe(a.dueDate, b.dueDate)
    else if field == "priority" then PriorityRank(a.priority) <= PriorityRank(b.priority)
    else TextLe(a.title, b.title)
  }

  /** `orderBy: { [sortBy]: sortOrder }` as a comparator. */
  function OrderFor(field: SortField, order: SortOrder): (Task, Task) -> bool
  {
    if order == "asc" then (a: Task, b: Task) => KeyLe(field, a, b) else (a: Task, b: Task) => KeyLe(field, b, a)
  }

  lemma OrderIsTotalPreorder(field: SortField, order: SortOrder)
    ensures TotalPreorder(OrderFor(field, order))
  {
    forall a: Task, b: Task ensures KeyLe(field, a, b) || KeyLe(field, b, a) {
      TextLeTotal(a.title, b.title);
    }
    forall a: Task, b: Task, c: Task | KeyLe(field, a, b) && KeyLe(field, b, c) ensures KeyLe(field, a, c) {
      if field == "title" {
        TextLeTransitive(a.title, b.title, c.title);
      }
    }
  }

  /** The matching rows in the requested order. */
  function Ordered(store: seq<Task>, userId: string, filters: TaskFilters): (r: seq<Task>)
  {
    OrderIsTotalPreorder(filters.sortBy, filters.sortOrder);
    Sort(Matching(store, userId, filters), OrderFor(filters.sortBy, filters.sortOrder))
  }

  /** `Math.ceil(n / d)` for a positive divisor. */
  function CeilDiv(n: nat, d: nat): nat
    requires d > 0
  {
    (n + d - 1) / d
  }

  function Min(a: int, b: int): int { if a <= b then a else b }

  lemma MulMonotone(a: int, b: int, d: nat)
    requires a <= b
    ensures a * d <= b * d
  {
  }

  /** `ceil(n / d)` is the least number of blocks of `d` that hold `n`, and
      block `page` starts before `n` exactly when `page` is at most it. */
  lemma CeilDivMeaning(n: nat, d: nat, page: int)
    requires d > 0 && page >= 1
    ensures CeilDiv(n, d) * d >= n
    ensures CeilDiv(n, d) > 0 ==> (CeilDiv(n, d) - 1) * d < n
    ensures (page - 1) * d < n <==> page <= CeilDiv(n, d)
  {
    var q := CeilDiv(n, d);
    var m := n + d - 1;
    assert m == q * d + m % d;
    if page <= q {
      MulMonotone(page - 1, q - 1, d);
    } else {
      MulMonotone(q, page - 1, d);
    }
  }

  /** Prisma's `skip` and `take` applied to a list: the window of at most
      `take` items starting at position `skip`. */
  function PageSlice<T>(items: seq<T>, skip: nat, take: nat): (r: seq<T>)
    ensures |r| <= take
    ensures |r| > 0 <==> skip < |items| && take > 0
    ensures forall k :: 0 <= k < |r| ==> skip + k < |items| && r[k] == items[skip + k]
  {
    items[Min(skip, |items|)..Min(skip + take, |items|)]
  }

  /** The number of rows before page `page`: `(page - 1) * limit`. */
  function Skip(page: int, limit: int): (s: nat)
    requires page >= 1 && limit >= 1
  {
    MulMonotone(0, page - 1, limit);
    (page - 1) * limit
  }

  function GetTasks(store: seq<Task>, userId: string, filters: TaskFilters, dates: Dates): (r: TaskPage)
    requires filters.page >= 1 && filters.limit >= 1
  {
    var ordered := Ordered(store, userId, filters);
    TaskPage(SerializeAll(PageSlice(ordered, Skip(filters.page, filters.limit), filters.limit), dates),
             Pagination(filters.page, filters.limit, |ordered|, CeilDiv(|ordered|, filters.limit)))
  }

  /** The rows `getTasks` lists from: exactly the caller's tasks that pass
      the filters. */
  lemma OrderedMembers(store: seq<Task>, userId: string, filters: TaskFilters)
    ensures var ordered := Ordered(store, userId, filters);
            && |ordered| == |Matching(store, userId, filters)|
            && (forall t :: t in ordered <==> t in store && MatchesFilters(t, userId, filters))
  {
    OrderIsTotalPreorder(filters.sortBy, filters.sortOrder);
    forall t ensures t in Ordered(store, userId, filters) <==> t in Matching(store, userId, filters) {
      SortMembers(Matching(store, userId, filters), OrderFor(filters.sortBy, filters.sortOrder), t);
    }
  }

  /** ... and they come in the order `orderBy` asks for. */
  lemma OrderedSorted(store: seq<Task>, userId: string, filters: TaskFilters)
    ensures Sorted(Ordered(store, userId, filters), OrderFor(filters.sortBy, filters.sortOrder))
  {
    OrderIsTotalPreorder(filters.sortBy, filters.sortOrder);
  }

  /** Everything on a page comes from the list. */
  lemma PageSliceFrom<T>(items: seq<T>, skip: nat, take: nat)
    ensures forall x :: x in PageSlice(items, skip, take) ==> x in items
  {
    var r := PageSlice(items, skip, take);
    forall x | x in r ensures x in items {
      var k :| 0 <= k < |r| && r[k] == x;
      assert items[skip + k] == x;
    }
  }

  /** Item `k` of a list sits in the window that covers it, at its offset
      from the window's start. */
  lemma PageSliceItem<T>(items: seq<T>, skip: nat, take: nat, k: nat)
    requires skip <= k < skip + take && k < |items|
    ensures var r := PageSlice(items, skip, take);
            k - skip < |r| && r[k - skip] == items[k]
  {
    var r := PageSlice(items, skip, take);
    assert r == items[skip..Min(skip + take, |items|)];
  }

  /** Every listed task belongs to the caller and passes the filters, the
      page holds at most `limit` of them, and `total` counts them all. */
  lemma GetTasksMeaning(store: seq<Task>, userId: string, filters: TaskFilters, dates: Dates)
    requires filters.page >= 1 && filters.limit >= 1
    ensures var r := GetTasks(store, userId, filters, dates);
            && |r.data| <= filters.limit
            && r.pagination.total == |Matching(store, userId, filters)|
            && (forall k :: 0 <= k < |r.data| ==>
                  exists t :: t in store && MatchesFilters(t, userId, filters) && r.data[k] == Serialize(t, dates))
  {
    OrderedMembers(store, userId, filters);
    var ordered := Ordered(store, userId, filters);
    var slice := PageSlice(ordered, Skip(filters.page, filters.limit), filters.limit);
    PageSliceFrom(ordered, Skip(filters.page, filters.limit), filters.limit);
    var r := GetTasks(store, userId, filters, dates);
    assert r.data == SerializeAll(slice, dates);
    forall k | 0 <= k < |r.data|
      ensures exists t :: t in store && MatchesFilters(t, userId, filters) && r.data[k] == Serialize(t, dates)
    {
      var t := slice[k];
      assert t in slice;
      assert r.data[k] == Serialize(t, dates);
    }
  }

  /** `totalPages` is the least number of pages of `limit` that hold all
      matches, and a page has items exactly when its number is at most
      `totalPages`. */
  lemma PaginationArithmetic(store: seq<Task>, userId: string, filters: TaskFilters, dates: Dates)
    requires filters.page >= 1 && filters.limit >= 1
    ensures var r := GetTasks(store, userId, filters, dates);
            var p := r.pagination;
            && p.totalPages * filters.limit >= p.total
            && (p.totalPages > 0 ==> (p.totalPages - 1) * filters.limit < p.total)
            && (|r.data| > 0 <==> filters.page <= p.totalPages)
  {
    var ordered := Ordered(store, userId, filters);
    var skip := Skip(filters.page, filters.limit);
    var slice := PageSlice(ordered, skip, filters.limit);
    assert |slice| > 0 <==> skip < |ordered|;
    PagesCover(|ordered|, filters.limit, filters.page, skip, |slice|);
    assert GetTasks(store, userId, filters, dates).data == SerializeAll(slice, dates);
  }

  /** The page arithmetic on its own: `shown` is non-empty exactly when the
      page starts before the end of `n` rows. */
  lemma PagesCover(n: nat, limit: int, page: int, skip: nat, shown: nat)
    requires limit >= 1 && page >= 1 && skip == Skip(page, limit)
    requires shown > 0 <==> skip < n
    ensures CeilDiv(n, limit) * limit >= n
    ensures CeilDiv(n, limit) > 0 ==> (CeilDiv(n, limit) - 1) * limit < n
    ensures shown > 0 <==> page <= CeilDiv(n, limit)
  {
    CeilDivMeaning(n, limit, page);
  }

  /** The k-th task in the requested order is listed on the page whose
      block of `limit` holds position k, at k's offset within that page. */
  lemma ItemOnItsPage(store: seq<Task>, userId: string, filters: TaskFilters, dates: Dates, k: nat)
    requires filters.page >= 1 && filters.limit >= 1
    requires (filters.page - 1) * filters.limit <= k < filters.page * filters.limit
    requires k < |Ordered(store, userId, filters)|
    ensures var r := GetTasks(store, userId, filters, dates);
            var at := k - (filters.page - 1) * filters.limit;
            at < |r.data| && r.data[at] == Serialize(Ordered(store, userId, filters)[k], dates)
  {
    var ordered := Ordered(store, userId, filters);
    var skip := Skip(filters.page, filters.limit);
    var slice := PageSlice(ordered, skip, filters.limit);
    var at := k - (filters.page - 1) * filters.limit;
    PageSliceItem(ordered, skip, filters.limit, k);
    GetTasksData(store, userId, filters, dates);
    assert at < |slice| && slice[at] == ordered[k];
  }

  /** The listed page is the serialised slice of the ordered rows. */
  lemma GetTasksData(store: seq<Task>, userId: string, filters: TaskFilters, dates: Dates)
    requires filters.page >= 1 && filters.limit >= 1
    ensures GetTasks(store, userId, filters, dates).data
              == SerializeAll(PageSlice(Ordered(store, userId, filters), Skip(filters.page, filters.limit), filters.limit), dates)
  {
  }

  // ---------------------------------------------------------------------------
  // Single tasks

  function GetTaskById(store: seq<Task>, userId: string, taskId: string, dates: Dates): (r: Result<SerializedTask>)
  {
    match FindOwned(store, userId, taskId)
    case None => Err(TASK_NOT_FOUND)
    case Some(i) => Ok(Serialize(store[i], dates))
  }

  /** Found exactly when the caller owns a task with that id. */
  lemma GetTaskByIdMeaning(store: seq<Task>, userId: string, taskId: string, dates: Dates)
    ensures var r := GetTaskById(store, userId, taskId, dates);
            && (r.Ok? <==> exists i :: 0 <= i < |store| && Owned(store[i], userId, taskId))
            && (r.Err? ==> r.error == TASK_NOT_FOUND)
            && (r.Ok? ==> r.value.id == taskId && r.value.userId == userId)
  {
    var found := FindOwned(store, userId, taskId);
    if found.Some? {
      StatusMapsInverse("pending", store[found.value].status);
    }
  }

  /** `input.dueDate ? new Date(input.dueDate) : null`. */
  function StoredDueDate(d: DueDate, dates: Dates): Option<int>
  {
    match d
    case At(iso) => if iso == "" then None else Some(dates.parse(iso))
    case _ => None
  }

  /** `prisma.task.create`: a new row owned by the caller, stamped `now`. */
  function CreateTask(store: seq<Task>, userId: string, input: CreateTaskInput, newId: string, now: int,
                      dates: Dates): (r: Outcome<SerializedTask>)
    requires IdUnused(store, newId)
  {
    var description := if input.description == "" then "" else input.description;
    var task := Task(newId, input.title, description, StatusOf(input.status), PriorityOf(input.priority),
                     StoredDueDate(input.dueDate, dates), userId, now, now);
    Outcome(store + [task], Ok(Serialize(task, dates)))
  }

  /** Creation appends one row built from the input and keeps ids distinct;
      with every optional field left out, the schema's defaults give a
      pending, medium-priority task with an empty description and no due
      date. */
  lemma CreateTaskMeaning(store: seq<Task>, userId: string, input: CreateTaskInput, newId: string, now: int,
                          dates: Dates)
    requires Valid(store) && IdUnused(store, newId)
    ensures var r := CreateTask(store, userId, input, newId, now, dates);
            var t := r.store[|store|];
            && |r.store| == |store| + 1 && r.store[..|store|] == store
            && Valid(r.store)
            && t.id == newId && t.userId == userId && t.title == input.title
            && t.description == input.description
            && t.status == StatusOf(input.status) && t.priority == PriorityOf(input.priority)
            && t.createdAt == now && t.updatedAt == now
            && (t.dueDate.None? <==> input.dueDate.Unset? || input.dueDate.Cleared? || input.dueDate == At(""))
            && r.result == Ok(Serialize(t, dates))
  {
  }

  /** A request that gives only a title creates a PENDING, MEDIUM task with
      an empty description and no due date. */
  lemma CreateTaskDefaults(store: seq<Task>, userId: string, title: string, formats: Zod.Formats,
                           newId: string, now: int, dates: Dates)
    requires IdUnused(store, newId)
    requires 1 <= |title| <= 200
    ensures var p := CreateTaskSchema(Zod.Obj(map["title" := Zod.Str(title)]), formats);
            && p.Valid?
            && var t := CreateTask(store, userId, p.value, newId, now, dates).store[|store|];
               t.status == PENDING && t.priority == MEDIUM && t.description == "" && t.dueDate.None?
  {
    var body := Zod.Obj(map["title" := Zod.Str(title)]);
    assert Zod.Field(body, "title") == Zod.Str(title);
    assert Zod.Field(body, "description") == Zod.Missing;
    assert Zod.Field(body, "status") == Zod.Missing;
    assert Zod.Field(body, "priority") == Zod.Missing;
    assert Zod.Field(body, "dueDate") == Zod.Missing;
    CreateTaskSchemaMeaning(body, formats);
  }

  /** The fields an update writes: only those present in the input. */
  function Patch(t: Task, input: UpdateTaskInput, now: int, dates: Dates): (r: Task)
  {
    t.(title := if input.title.Some? then input.title.value else t.title,
       description := if input.description.Some? then input.description.value else t.description,
       status := if input.status.Some? then StatusOf(input.status.value) else t.status,
       priority := if input.priority.Some? then PriorityOf(input.priority.value) else t.priority,
       dueDate := if input.dueDate.Unset? then t.dueDate else StoredDueDate(input.dueDate, dates),
       updatedAt := now)
  }

  function UpdateTask(store: seq<Task>, userId: string, taskId: string, input: UpdateTaskInput, now: int,
                      dates: Dates): (r: Outcome<SerializedTask>)
  {
    match FindOwned(store, userId, taskId)
    case None => Outcome(store, Err(TASK_NOT_FOUND))
    case Some(i) =>
      var updated := Patch(store[i], input, now, dates);
      Outcome(store[i := updated], Ok(Serialize(updated, dates)))
  }

  /** An update of a task the caller does not own changes nothing and
      answers 404; otherwise exactly that row changes, only in the fields
      the input carries (plus `updatedAt`), and a null due date clears it. */
  lemma UpdateTaskMeaning(store: seq<Task>, userId: string, taskId: string, input: UpdateTaskInput, now: int,
                          dates: Dates)
    ensures var r := UpdateTask(store, userId, taskId, input, now, dates);
            && (r.result.Err? <==> forall i :: 0 <= i < |store| ==> !Owned(store[i], userId, taskId))
            && (r.result.Err? ==> r.store == store && r.result.error == TASK_NOT_FOUND)
            && |r.store| == |store|
            && (forall i :: 0 <= i < |store| && (store[i].id != taskId || store[i].userId != userId) ==> r.store[i] == store[i])
            && (forall i :: 0 <= i < |store| && Owned(store[i], userId, taskId) && r.store[i] != store[i] ==>
                  && r.store[i].id == taskId && r.store[i].userId == userId
                  && r.store[i].createdAt == store[i].createdAt
                  && r.store[i].updatedAt == now
                  && (input.title.None? ==> r.store[i].title == store[i].title)
                  && (input.description.None? ==> r.store[i].description == store[i].description)
                  && (input.status.None? ==> r.store[i].status == store[i].status)
                  && (input.priority.None? ==> r.store[i].priority == store[i].priority)
                  && (input.dueDate.Unset? ==> r.store[i].dueDate == store[i].dueDate)
                  && (input.dueDate.Cleared? ==> r.store[i].dueDate.None?))
    ensures var r := UpdateTask(store, userId, taskId, input, now, dates);
            r.result.Ok? ==>
              var k := FindOwned(store, userId, taskId).value;
              && (input.title.Some? ==> r.store[k].title == input.title.value)
              && (input.description.Some? ==> r.store[k].description == input.description.value)
              && (input.status.Some? ==> r.store[k].status == StatusOf(input.status.value))
              && (input.priority.Some? ==> r.store[k].priority == PriorityOf(input.priority.value))
              && (input.dueDate.At? ==> r.store[k].dueDate == StoredDueDate(input.dueDate, dates))
              && (input.dueDate.Cleared? ==> r.store[k].dueDate.None?)
              && r.store[k].updatedAt == now
              && r.result.value == Serialize(r.store[k], dates)
  {
  }

  /** With distinct ids, the row that changes is the caller's task. */
  lemma UpdateTaskChangesOwnedRow(store: seq<Task>, userId: string, taskId: string, input: UpdateTaskInput,
                                  now: int, dates: Dates, i: nat)
    requires Valid(store)
    requires i < |store| && Owned(store[i], userId, taskId)
    ensures var r := UpdateTask(store, userId, taskId, input, now, dates);
            r.result.Ok? && r.store[i] == Patch(store[i], input, now, dates)
            && r.result.value == Serialize(Patch(store[i], input, now, dates), dates)
  {
    var found := FindOwned(store, userId, taskId);
    assert found.Some?;
    assert found.value == i;
  }

  function RemoveId(store: seq<Task>, taskId: string): (r: seq<Task>)
    ensures forall t :: t in r <==> t in store && t.id != taskId
    ensures |r| <= |store|
    decreases |store|
  {
    if |store| == 0 then []
    else
      var rest := RemoveId(store[1..], taskId);
      assert forall t :: t in store <==> t == store[0] || t in store[1..];
      if store[0].id == taskId then rest else [store[0]] + rest
  }

  function DeleteTask(store: seq<Task>, userId: string, taskId: string): (r: Outcome<()>)
  {
    match FindOwned(store, userId, taskId)
    case None => Outcome(store, Err(TASK_NOT_FOUND))
    case Some(_) => Outcome(RemoveId(store, taskId), Ok(()))
  }

  /** Deleting a task the caller does not own changes nothing; otherwise
      exactly the rows with that id go, and no other user's task is touched. */
  lemma DeleteTaskMeaning(store: seq<Task>, userId: string, taskId: string)
    ensures var r := DeleteTask(store, userId, taskId);
            && (r.result.Err? <==> forall i :: 0 <= i < |store| ==> !Owned(store[i], userId, taskId))
            && (r.result.Err? ==> r.store == store && r.result.error == TASK_NOT_FOUND)
            && (r.result.Ok? ==> forall t :: t in r.store <==> t in store && t.id != taskId)
            && (forall t :: t in store && t.userId != userId && (r.result.Ok? ==> t.id != taskId) ==> t in r.store)
  {
  }

  /** With distinct ids, a deleted task belonged to the caller. */
  lemma DeleteTouchesOnlyOwner(store: seq<Task>, userId: string, taskId: string, t: Task)
    requires Valid(store)
    requires t in store && t.userId != userId
    ensures t in DeleteTask(store, userId, taskId).store
  {
  }

  // ---------------------------------------------------------------------------
  // Statistics

  function CountWhere(store: seq<Task>, userId: string, status: Option<TaskStatus>): (n: nat)
    ensures n <= |store|
    decreases |store|
  {
    if |store| == 0 then 0
    else
      var here := store[0].userId == userId && (status.None? || store[0].status == status.value);
      (if here then 1 else 0) + CountWhere(store[1..], userId, status)
  }

  /** `Math.round(100 * completed / total)` for non-negative operands:
      halves round up. */
  function RoundedPercent(part: nat, whole: nat): nat
    requires whole > 0
  {
    (200 * part + whole) / (2 * whole)
  }

  function GetTaskStats(store: seq<Task>, userId: string): (r: Stats)
  {
    var total := CountWhere(store, userId, None);
    var completed := CountWhere(store, userId, Some(COMPLETED));
    Stats(total,
          CountWhere(store, userId, Some(PENDING)),
          CountWhere(store, userId, Some(IN_PROGRESS)),
          completed,
          if total > 0 then RoundedPercent(completed, total) else 0)
  }

  lemma {:induction false} CountsPartition(store: seq<Task>, userId: string)
    ensures CountWhere(store, userId, Some(PENDING)) + CountWhere(store, userId, Some(IN_PROGRESS))
            + CountWhere(store, userId, Some(COMPLETED)) == CountWhere(store, userId, None)
    decreases |store|
  {
    if |store| > 0 {
      CountsPartition(store[1..], userId);
    }
  }

  lemma {:induction false} CountBoundedByTotal(store: seq<Task>, userId: string, s: TaskStatus)
    ensures CountWhere(store, userId, Some(s)) <= CountWhere(store, userId, None)
    decreases |store|
  {
    if |store| > 0 {
      CountBoundedByTotal(store[1..], userId, s);
    }
  }

  /** A quotient is pinned down by the multiples of the divisor around the
      dividend. */
  lemma QuotientBetween(n: nat, d: nat, q: nat)
    requires d > 0 && q * d <= n < (q + 1) * d
    ensures n / d == q
  {
    var r := n / d;
    assert n == r * d + n % d;
    if r < q {
      MulMonotone(r + 1, q, d);
    } else if r > q {
      MulMonotone(q + 1, r, d);
    }
  }

  /** The rounding of `RoundedPercent`: the nearest integer to
      100 * part / whole, halves up, within 0..100; 100 when `part` is the
      whole and 0 when it is nothing. */
  lemma RoundedPercentMeaning(part: nat, whole: nat)
    requires 0 < whole && part <= whole
    ensures var q := RoundedPercent(part, whole);
            && q <= 100
            && 2 * q * whole <= 200 * part + whole
            && 200 * part + whole < 2 * (q + 1) * whole
            && (part == whole ==> q == 100)
            && (part == 0 ==> q == 0)
  {
    var n := 200 * part + whole;
    var d := 2 * whole;
    var q := n / d;
    QuotientBracket(n, d);
    assert q * d == 2 * q * whole;
    assert (q + 1) * d == 2 * (q + 1) * whole;
    if q > 100 {
      MulMonotone(101, q, d);
    }
    if part == whole {
      QuotientBetween(n, d, 100);
    }
    if part == 0 {
      QuotientBetween(n, d, 0);
    }
  }

  /** The multiples of the divisor around the dividend. */
  lemma QuotientBracket(n: nat, d: nat)
    requires d > 0
    ensures (n / d) * d <= n < (n / d + 1) * d
  {
    assert n == (n / d) * d + n % d;
  }

  /** The three status counts add up to the total; the rate is the
      percentage of completed tasks rounded to the nearest integer (halves
      up), 0 for no tasks or none completed, within 0..100, and 100 when all
      are completed (a rate of 100 can also come from rounding up, as with
      999 of 1000). */
  lemma StatsMeaning(store: seq<Task>, userId: string)
    ensures var s := GetTaskStats(store, userId);
            && s.pending + s.inProgress + s.completed == s.total
            && 0 <= s.completionRate <= 100
            && (s.total == 0 ==> s.completionRate == 0)
            && (s.total > 0 ==>
                  && 2 * s.completionRate * s.total <= 200 * s.completed + s.total
                  && 200 * s.completed + s.total < 2 * (s.completionRate + 1) * s.total)
            && (s.total > 0 && s.completed == s.total ==> s.completionRate == 100)
            && (s.completed == 0 ==> s.completionRate == 0)
  {
    CountsPartition(store, userId);
    CountBoundedByTotal(store, userId, COMPLETED);
    var total := CountWhere(store, userId, None);
    if total > 0 {
      RoundedPercentMeaning(CountWhere(store, userId, Some(COMPLETED)), total);
    }
  }
}
