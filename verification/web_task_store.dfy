/** The web app's task store: the current page of tasks, its pagination,
    the filters it is loaded with and the error of the last load.

    `loadTasks` is asynchronous: `LoadTasks` is what happens when it is
    called (the flags it sets and the query it sends), `LoadSucceeded` and
    `LoadFailed` what happens when the request settles. The filters are a
    loosely typed record on this client, so their values are plain text. */
module WebTaskStore {
  import opened Common
  import TaskService
  import opened TaskLists

  const LOAD_FAILED := "Failed to load tasks"

  datatype Filters = Filters(
    status: Option<string>,
    priority: Option<string>,
    search: Option<string>,
    sortBy: Option<string>,
    sortOrder: Option<string>)

  const DEFAULT_FILTERS := Filters(None, None, None, Some("createdAt"), Some("desc"))

  datatype State = State(
    tasks: seq<ClientTask>,
    stats: Option<TaskService.Stats>,
    loading: bool,
    error: Option<string>,
    pagination: TaskService.Pagination,
    filters: Filters)

  const INITIAL := State([], None, false, None, TaskService.Pagination(1, 20, 0, 0), DEFAULT_FILTERS)

  /** The state right after the call, and the query it sent. */
  datatype Started = Started(state: State, query: ListQuery)

  /** A thrown value as `extractError` inspects it: the message under
      `response.data` when it is an object with a `response` key that has
      one, and its `message` when it is an `Error`. */
  datatype Thrown = Thrown(responseMessage: Option<string>, errorMessage: Option<string>)

  /** The first non-empty server message, else the `Error`'s own message
      (even an empty one), else the fixed text. */
  function ExtractError(err: Thrown): (m: string)
  {
    if err.responseMessage.Some? && err.responseMessage.value != "" then err.responseMessage.value
    else if err.errorMessage.Some? then err.errorMessage.value
    else LOAD_FAILED
  }

  /** Which source the message comes from, in order of preference. */
  lemma ExtractErrorMeaning(err: Thrown)
    ensures var m := ExtractError(err);
            && (err.responseMessage.Some? && err.responseMessage.value != "" ==> m == err.responseMessage.value)
            && (err.responseMessage.None? || err.responseMessage.value == "" ==>
                  m == if err.errorMessage.Some? then err.errorMessage.value else LOAD_FAILED)
            && (m == "" ==> err.errorMessage == Some(""))
  {
  }

  /** `loadTasks(page)` when called: loading on, error cleared, and a query
      with the filters, the page asked for and the stored page size. */
  function LoadTasks(s: State, page: int): (r: Started)
  {
    Started(s.(loading := true, error := None),
            ListQuery(s.filters.status, s.filters.priority, s.filters.search, page, s.pagination.limit,
                      s.filters.sortBy, s.filters.sortOrder))
  }

  function LoadSucceeded(current: State, res: TaskService.TaskPage): (r: State)
  {
    current.(tasks := res.data, pagination := res.pagination, loading := false)
  }

  function LoadFailed(current: State, err: Thrown): (r: State)
  {
    current.(error := Some(ExtractError(err)), loading := false)
  }

  /** A load asks for the current filters at the given page with the stored
      page size; success replaces the tasks and the pagination, failure
      keeps them and records the message; loading is off either way. */
  lemma LoadMeaning(s: State, page: int, res: TaskService.TaskPage, err: Thrown)
    ensures var st := LoadTasks(s, page);
            && st.state.loading && st.state.error.None? && st.state.tasks == s.tasks
            && st.query.page == page && st.query.limit == s.pagination.limit
            && st.query.status == s.filters.status && st.query.priority == s.filters.priority
            && st.query.search == s.filters.search
            && st.query.sortBy == s.filters.sortBy && st.query.sortOrder == s.filters.sortOrder
    ensures var ok := LoadSucceeded(LoadTasks(s, page).state, res);
            && ok.tasks == res.data && ok.pagination == res.pagination && !ok.loading && ok.error.None?
            && ok.filters == s.filters
    ensures var failed := LoadFailed(LoadTasks(s, page).state, err);
            && failed.tasks == s.tasks && failed.pagination == s.pagination && !failed.loading
            && failed.error == Some(ExtractError(err))
  {
  }

  /** `addTask`: after the server created it, reload the current page. */
  function AddTaskDone(s: State): (r: Started)
  {
    LoadTasks(s, s.pagination.page)
  }

  function EditTaskDone(s: State, id: string, task: ClientTask): (r: State)
  {
    s.(tasks := ReplaceFirst(s.tasks, id, task))
  }

  function RemoveTaskDone(s: State, id: string): (r: State)
  {
    s.(tasks := WithoutId(s.tasks, id))
  }

  /** A create reloads the page being shown rather than inserting locally;
      an edit replaces only the first task with that id and ignores an id
      not listed; a removal drops every task with that id. None of them
      touches the pagination. */
  lemma ListUpdatesMeaning(s: State, id: string, task: ClientTask)
    ensures AddTaskDone(s).query.page == s.pagination.page && AddTaskDone(s).state.tasks == s.tasks
    ensures var e := EditTaskDone(s, id, task);
            && |e.tasks| == |s.tasks| && e.pagination == s.pagination
            && (NoId(s.tasks, id) ==> e == s)
            && (!NoId(s.tasks, id) ==>
                  exists k :: 0 <= k < |s.tasks| && s.tasks[k].id == id && (forall i :: 0 <= i < k ==> s.tasks[i].id != id)
                    && e.tasks[k] == task && forall i :: 0 <= i < |s.tasks| && i != k ==> e.tasks[i] == s.tasks[i])
    ensures var d := RemoveTaskDone(s, id);
            && (forall t :: t in d.tasks <==> t in s.tasks && t.id != id) && d.pagination == s.pagination
  {
    ReplaceFirstMeaning(s.tasks, id, task);
  }

  /** An edit of a task listed twice under one id replaces only the first
      copy. */
  lemma EditLeavesLaterDuplicate(a: ClientTask, b: ClientTask, task: ClientTask, s: State)
    requires a.id == b.id
    requires s.tasks == [a, b]
    ensures EditTaskDone(s, a.id, task).tasks == [task, b]
  {
    assert FindIndex(s.tasks, a.id) == 0;
  }

  // ---------------------------------------------------------------------------
  // Filters

  datatype FilterKey = StatusKey | PriorityKey | SearchKey | SortByKey | SortOrderKey

  function FilterAt(f: Filters, key: FilterKey): Option<string>
  {
    match key
    case StatusKey => f.status
    case PriorityKey => f.priority
    case SearchKey => f.search
    case SortByKey => f.sortBy
    case SortOrderKey => f.sortOrder
  }

  function WithFilter(f: Filters, key: FilterKey, value: Option<string>): (r: Filters)
  {
    match key
    case StatusKey => f.(status := value)
    case PriorityKey => f.(priority := value)
    case SearchKey => f.(search := value)
    case SortByKey => f.(sortBy := value)
    case SortOrderKey => f.(sortOrder := value)
  }

  /** `value || undefined` for a text value. */
  function Truthy(value: Option<string>): Option<string>
  {
    if value == Some("") then None else value
  }

  /** `setFilter(key, value)`: store the value, an empty one as absent,
      then load page 1. */
  function SetFilter(s: State, key: FilterKey, value: Option<string>): (r: Started)
  {
    LoadTasks(s.(filters := WithFilter(s.filters, key, Truthy(value))), 1)
  }

  /** The key set reads back the value, empty text reading as absent; every
      other key keeps its value; the reload asks for page 1. */
  lemma SetFilterMeaning(s: State, key: FilterKey, value: Option<string>)
    ensures var r := SetFilter(s, key, value);
            && FilterAt(r.state.filters, key) == (if value == Some("") then None else value)
            && (forall other :: other != key ==> FilterAt(r.state.filters, other) == FilterAt(s.filters, other))
            && r.query.page == 1 && r.state.tasks == s.tasks
  {
  }

  /** `clearFilters`: the initial filters, then load page 1. */
  function ClearFilters(s: State): (r: Started)
  {
    LoadTasks(s.(filters := DEFAULT_FILTERS), 1)
  }

  /** Clearing gives back the filters the store started with, whatever was
      set before, and reloads page 1 sorted newest first. */
  lemma ClearFiltersMeaning(s: State, key: FilterKey, value: Option<string>)
    ensures var r := ClearFilters(s);
            && r.state.filters == INITIAL.filters
            && r.query == ListQuery(None, None, None, 1, s.pagination.limit, Some("createdAt"), Some("desc"))
    ensures ClearFilters(SetFilter(s, key, value).state).state.filters == ClearFilters(s).state.filters
  {
  }

  /** `loadStats`: the stats on success; a failure is ignored. */
  function StatsLoaded(s: State, stats: Option<TaskService.Stats>): (r: State)
  {
    if stats.Some? then s.(stats := stats) else s
  }

  lemma StatsLoadedMeaning(s: State, stats: Option<TaskService.Stats>)
    ensures StatsLoaded(s, stats).(stats := s.stats) == s
    ensures StatsLoaded(s, None) == s
    ensures stats.Some? ==> StatsLoaded(s, stats).stats == stats
  {
  }
}
