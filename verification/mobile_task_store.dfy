/** The mobile app's task list store: the loaded tasks with their
    pagination, the filters and sort the list is fetched with, and the
    transitions its actions make.

    `fetchTasks` is asynchronous. It is split into the part that runs when
    it is called (`FetchTasks`: the state it sets and the request it
    sends, together with the state it read, `snapshot`) and the part that
    runs when the request settles (`FetchSucceeded` or `FetchFailed`),
    which writes into whatever the store holds by then. */
module MobileTaskStore {
  import opened Common
  import opened TaskSchemas
  import TaskService
  import opened TaskLists

  const PAGE_SIZE := 20
  const FETCH_FAILED := "Failed to fetch tasks"

  datatype State = State(
    tasks: seq<ClientTask>,
    stats: Option<TaskService.Stats>,
    isLoading: bool,
    isRefreshing: bool,
    error: Option<string>,
    statusFilter: Option<StatusName>,
    priorityFilter: Option<PriorityName>,
    searchQuery: string,
    sortBy: SortField,
    sortOrder: SortOrder,
    page: int,
    totalPages: int,
    total: int)

  const INITIAL := State([], None, false, false, None, None, None, "", "createdAt", "desc", 1, 1, 0)

  /** The settings that select the list. */
  datatype View = View(status: Option<StatusName>, priority: Option<PriorityName>, search: string,
                       sortBy: SortField, sortOrder: SortOrder)

  function ViewOf(s: State): View
  {
    View(s.statusFilter, s.priorityFilter, s.searchQuery, s.sortBy, s.sortOrder)
  }

  /** A request in flight: the state `fetchTasks` read when called, whether
      it replaces the list, and what it asked for. */
  datatype PendingFetch = PendingFetch(snapshot: State, reset: bool, query: ListQuery)

  /** The state right after an action, and the fetch it started. */
  datatype Started = Started(state: State, fetch: PendingFetch)

  /** What `fetchTasks` asks the server for. */
  function FetchQuery(s: State, reset: bool): (q: ListQuery)
  {
    ListQuery(s.statusFilter, s.priorityFilter, if s.searchQuery == "" then None else Some(s.searchQuery),
              if reset then 1 else s.page, PAGE_SIZE, Some(s.sortBy), Some(s.sortOrder))
  }

  /** The query carries the store's filters and sort, page 1 for a reset
      and the stored page otherwise, 20 per page, and no search term when
      the search box is empty. */
  lemma FetchQueryMeaning(s: State, reset: bool)
    ensures var q := FetchQuery(s, reset);
            && q.status == s.statusFilter && q.priority == s.priorityFilter
            && q.sortBy == Some(s.sortBy) && q.sortOrder == Some(s.sortOrder)
            && q.page == (if reset then 1 else s.page)
            && q.limit == 20
            && (q.search.None? <==> s.searchQuery == "")
            && (q.search.Some? ==> q.search.value == s.searchQuery)
  {
  }

  /** The synchronous part of `fetchTasks(reset)`. */
  function FetchTasks(s: State, reset: bool): (r: Started)
  {
    Started(if reset then s.(isLoading := true, error := None) else s, PendingFetch(s, reset, FetchQuery(s, reset)))
  }

  /** The request succeeded with `res`. */
  function FetchSucceeded(current: State, f: PendingFetch, res: TaskService.TaskPage): (r: State)
  {
    current.(tasks := if f.reset then res.data else f.snapshot.tasks + res.data,
             page := res.pagination.page,
             totalPages := res.pagination.totalPages,
             total := res.pagination.total,
             isLoading := false,
             isRefreshing := false)
  }

  /** The request failed; `message` is `error.response?.data?.message`. */
  function FetchFailed(current: State, message: Option<string>): (r: State)
  {
    current.(isLoading := false,
             isRefreshing := false,
             error := Some(if message.Some? && message.value != "" then message.value else FETCH_FAILED))
  }

  /** A reset fetch replaces the list with the page it got; an appending
      fetch puts the page after the tasks the store held when the fetch
      began. Either way the pagination comes from the response, both loading
      flags go down and the filters stay. */
  lemma FetchSucceededMeaning(current: State, f: PendingFetch, res: TaskService.TaskPage)
    ensures var r := FetchSucceeded(current, f, res);
            && r.tasks == (if f.reset then res.data else f.snapshot.tasks + res.data)
            && |r.tasks| == (if f.reset then 0 else |f.snapshot.tasks|) + |res.data|
            && r.page == res.pagination.page && r.totalPages == res.pagination.totalPages
            && r.total == res.pagination.total
            && !r.isLoading && !r.isRefreshing
            && ViewOf(r) == ViewOf(current) && r.error == current.error
  {
  }

  /** A failure keeps the tasks and the pagination, lowers both loading
      flags and always leaves an error message, the server's when it sent
      a non-empty one. */
  lemma FetchFailedMeaning(current: State, message: Option<string>)
    ensures var r := FetchFailed(current, message);
            && r.tasks == current.tasks && r.page == current.page && r.total == current.total
            && !r.isLoading && !r.isRefreshing
            && r.error.Some? && r.error.value != ""
            && (r.error.value == FETCH_FAILED <==> message.None? || message.value == "" || message.value == FETCH_FAILED)
  {
  }

  // ---------------------------------------------------------------------------
  // Filters and sort

  function SetStatusFilter(s: State, status: Option<StatusName>): Started
  {
    FetchTasks(s.(statusFilter := status, page := 1), true)
  }

  function SetPriorityFilter(s: State, priority: Option<PriorityName>): Started
  {
    FetchTasks(s.(priorityFilter := priority, page := 1), true)
  }

  function SetSearchQuery(s: State, query: string): Started
  {
    FetchTasks(s.(searchQuery := query, page := 1), true)
  }

  function SetSortBy(s: State, sortBy: SortField): Started
  {
    FetchTasks(s.(sortBy := sortBy, page := 1), true)
  }

  function SetSortOrder(s: State, order: SortOrder): Started
  {
    FetchTasks(s.(sortOrder := order, page := 1), true)
  }

  /** What every setter does besides changing its own field: page 1, the
      list kept until the reset fetch answers, loading on, error cleared, and
      a request for page 1 with the new settings. */
  predicate RestartedFrom(s: State, st: Started, view: View)
  {
    && ViewOf(st.state) == view
    && st.state.page == 1 && st.state.tasks == s.tasks && st.state.total == s.total
    && st.state.isLoading && st.state.error.None?
    && st.fetch.reset && st.fetch.query.page == 1
    && st.fetch.query.status == view.status && st.fetch.query.priority == view.priority
    && st.fetch.query.sortBy == Some(view.sortBy) && st.fetch.query.sortOrder == Some(view.sortOrder)
  }

  /** Each setter changes only its own setting and restarts the list from
      page 1. */
  lemma SettersChangeOnlyTheirField(s: State, status: Option<StatusName>, priority: Option<PriorityName>,
                                    query: string, sortBy: SortField, order: SortOrder)
    ensures var v := ViewOf(s);
            && RestartedFrom(s, SetStatusFilter(s, status), v.(status := status))
            && RestartedFrom(s, SetPriorityFilter(s, priority), v.(priority := priority))
            && RestartedFrom(s, SetSearchQuery(s, query), v.(search := query))
            && RestartedFrom(s, SetSortBy(s, sortBy), v.(sortBy := sortBy))
            && RestartedFrom(s, SetSortOrder(s, order), v.(sortOrder := order))
  {
  }

  /** Clearing the search box sends no search term at all. */
  lemma EmptySearchSentAsAbsent(s: State)
    ensures SetSearchQuery(s, "").fetch.query.search.None?
  {
  }

  // ---------------------------------------------------------------------------
  // Paging

  /** `loadMore`: nothing when the last page is loaded or a reset fetch is
      running; otherwise the next page, appended. */
  function LoadMore(s: State): (r: Option<Started>)
  {
    if s.page >= s.totalPages || s.isLoading then None
    else Some(FetchTasks(s.(page := s.page + 1), false))
  }

  /** Load-more starts a fetch exactly when there is a further page and no
      reset fetch runs; it then asks for the next page without raising the
      loading flag, and its success appends that page to the tasks held. */
  lemma LoadMoreMeaning(s: State, res: TaskService.TaskPage)
    ensures var r := LoadMore(s);
            && (r.None? <==> s.page >= s.totalPages || s.isLoading)
            && (r.Some? ==>
                  && r.value.state.page == s.page + 1 && r.value.fetch.query.page == s.page + 1
                  && !r.value.fetch.reset && !r.value.state.isLoading
                  && r.value.state.tasks == s.tasks
                  && FetchSucceeded(r.value.state, r.value.fetch, res).tasks == s.tasks + res.data)
  {
  }

  /** An appending fetch writes back the list it read when it began, so a
      task created while it was in flight drops out of the list when it
      lands. */
  lemma CreateDuringAppendIsLost(s: State, task: ClientTask, res: TaskService.TaskPage)
    requires LoadMore(s).Some?
    requires task !in s.tasks && task !in res.data
    ensures var st := LoadMore(s).value;
            var landed := FetchSucceeded(CreateTaskDone(st.state, task), st.fetch, res);
            task in CreateTaskDone(st.state, task).tasks && task !in landed.tasks
  {
    var st := LoadMore(s).value;
    assert CreateTaskDone(st.state, task).tasks[0] == task;
  }

  /** `refresh`: mark refreshing and fetch page 1 again. */
  function Refresh(s: State): Started
  {
    FetchTasks(s.(isRefreshing := true, page := 1), true)
  }

  /** A refresh that succeeds shows exactly the first page; one that fails
      keeps the tasks. In both cases the refreshing flag goes down. */
  lemma RefreshSettles(s: State, res: TaskService.TaskPage, message: Option<string>)
    ensures var st := Refresh(s);
            && st.state.isRefreshing && st.fetch.query.page == 1
            && var ok := FetchSucceeded(st.state, st.fetch, res);
               var failed := FetchFailed(st.state, message);
               && ok.tasks == res.data && !ok.isRefreshing
               && failed.tasks == s.tasks && !failed.isRefreshing
  {
  }

  // ---------------------------------------------------------------------------
  // Local list updates after the server answered

  function CreateTaskDone(s: State, task: ClientTask): (r: State)
  {
    s.(tasks := [task] + s.tasks, total := s.total + 1)
  }

  function UpdateTaskDone(s: State, id: string, task: ClientTask): (r: State)
  {
    s.(tasks := ReplaceAll(s.tasks, id, task))
  }

  function DeleteTaskDone(s: State, id: string): (r: State)
  {
    s.(tasks := WithoutId(s.tasks, id), total := s.total - 1)
  }

  /** A created task goes first, after it come the old tasks in order, and
      the total grows by one. */
  lemma CreateTaskDoneMeaning(s: State, task: ClientTask)
    ensures var r := CreateTaskDone(s, task);
            && |r.tasks| == |s.tasks| + 1 && r.tasks[0] == task && r.tasks[1..] == s.tasks
            && r.total == s.total + 1
            && ViewOf(r) == ViewOf(s) && r.page == s.page
  {
  }

  /** An update keeps the length and puts the server's task at every
      position with that id; a delete removes every task with that id and
      lowers the total by one whether or not one was listed. */
  lemma UpdateAndDeleteMeaning(s: State, id: string, task: ClientTask)
    ensures var u := UpdateTaskDone(s, id, task);
            && |u.tasks| == |s.tasks| && u.total == s.total
            && (forall i :: 0 <= i < |s.tasks| ==> u.tasks[i] == if s.tasks[i].id == id then task else s.tasks[i])
    ensures var d := DeleteTaskDone(s, id);
            && (forall t :: t in d.tasks <==> t in s.tasks && t.id != id)
            && d.total == s.total - 1
  {
  }

  /** Deleting a task just created, under an id the list did not hold,
      gives back the state before the creation. */
  lemma DeleteUndoesCreate(s: State, task: ClientTask)
    requires NoId(s.tasks, task.id)
    ensures DeleteTaskDone(CreateTaskDone(s, task), task.id) == s
  {
    var c := CreateTaskDone(s, task);
    assert c.tasks[1..] == s.tasks;
    WithoutAbsentId(s.tasks, task.id);
  }

  /** A task updated and then deleted leaves the list as a direct delete. */
  lemma DeleteAfterUpdate(s: State, task: ClientTask)
    ensures DeleteTaskDone(UpdateTaskDone(s, task.id, task), task.id) == DeleteTaskDone(s, task.id)
  {
    DeleteAfterReplace(s.tasks, task.id, task);
  }

  // ---------------------------------------------------------------------------
  // Statistics, errors, reset

  /** `fetchStats`: the stats on success; a failure is ignored. */
  function StatsLoaded(s: State, stats: Option<TaskService.Stats>): (r: State)
  {
    if stats.Some? then s.(stats := stats) else s
  }

  function ClearError(s: State): (r: State)
  {
    s.(error := None)
  }

  function Reset(s: State): (r: State)
  {
    INITIAL
  }

  /** The statistics are the only thing a stats fetch changes, and a failed
      one changes nothing; clearing the error touches nothing else. */
  lemma StatsAndErrorMeaning(s: State, stats: Option<TaskService.Stats>)
    ensures StatsLoaded(s, stats).(stats := s.stats) == s
    ensures StatsLoaded(s, None) == s
    ensures stats.Some? ==> StatsLoaded(s, stats).stats == stats
    ensures ClearError(s).error.None? && ClearError(s).(error := s.error) == s
  {
  }

  /** After a reset the store is empty, on page 1 of 1, not loading, with no
      filter, sorted newest first; and its next fetch asks for what the
      server's own defaults give for an empty query. */
  lemma ResetRestoresInitial(s: State, fromText: string -> Option<real>)
    ensures var r := Reset(s);
            && r.tasks == [] && r.stats.None? && !r.isLoading && !r.isRefreshing && r.error.None?
            && ViewOf(r) == View(None, None, "", "createdAt", "desc")
            && r.page == 1 && r.totalPages == 1 && r.total == 0
            && Reset(r) == r
    ensures var q := FetchQuery(Reset(s), true);
            var p := TaskFiltersSchema(Zod.Obj(map[]), fromText);
            && p.Valid?
            && var d := p.value;
            && q.status == d.status && q.priority == d.priority && q.search == d.search
            && q.page == d.page && q.limit == d.limit
            && q.sortBy == Some(d.sortBy) && q.sortOrder == Some(d.sortOrder)
  {
    EmptyQueryDefaults(fromText);
  }
}
