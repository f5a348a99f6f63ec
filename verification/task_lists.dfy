/** The list operations both task stores apply to the tasks they hold after
    a successful create, update or delete, and the list query they send.
    A client task is the serialised task the API returns. */
module TaskLists {
  import opened Common
  import TaskService

  type ClientTask = TaskService.SerializedTask

  /** The query parameters of `GET /tasks` as the clients send them; an
      absent value is left out of the query string. */
  datatype ListQuery = ListQuery(
    status: Option<string>,
    priority: Option<string>,
    search: Option<string>,
    page: int,
    limit: int,
    sortBy: Option<string>,
    sortOrder: Option<string>)

  predicate NoId(ts: seq<ClientTask>, id: string)
  {
    forall i :: 0 <= i < |ts| ==> ts[i].id != id
  }

  /** `tasks.filter((t) => t.id !== id)`. */
  function WithoutId(ts: seq<ClientTask>, id: string): (r: seq<ClientTask>)
    ensures |r| <= |ts|
    ensures forall t :: t in r <==> t in ts && t.id != id
    ensures NoId(r, id)
    decreases |ts|
  {
    if |ts| == 0 then []
    else
      var rest := WithoutId(ts[1..], id);
      assert forall t :: t in ts <==> t == ts[0] || t in ts[1..];
      if ts[0].id == id then rest else [ts[0]] + rest
  }

  /** Filtering keeps every task without the id as many times as it
      occurred, and drops every task with it. */
  lemma {:induction false} WithoutIdCounts(ts: seq<ClientTask>, id: string)
    ensures forall t :: multiset(WithoutId(ts, id))[t] == if t.id == id then 0 else multiset(ts)[t]
    decreases |ts|
  {
    if |ts| > 0 {
      WithoutIdCounts(ts[1..], id);
      assert ts == [ts[0]] + ts[1..];
    }
  }

  /** Filtering a concatenation filters each part. */
  lemma {:induction false} WithoutIdAppend(a: seq<ClientTask>, b: seq<ClientTask>, id: string)
    ensures WithoutId(a + b, id) == WithoutId(a, id) + WithoutId(b, id)
    decreases |a|
  {
    var ab := a + b;
    if |a| == 0 {
      assert ab == b;
    } else {
      assert ab[0] == a[0] && ab[1..] == a[1..] + b;
      WithoutIdAppend(a[1..], b, id);
      var x, y := WithoutId(a[1..], id), WithoutId(b, id);
      assert WithoutId(ab[1..], id) == x + y;
      if a[0].id != id {
        assert [a[0]] + (x + y) == ([a[0]] + x) + y;
      }
    }
  }

  /** Filtering out an id nobody has keeps the list as it is. */
  lemma {:induction false} WithoutAbsentId(ts: seq<ClientTask>, id: string)
    requires NoId(ts, id)
    ensures WithoutId(ts, id) == ts
    decreases |ts|
  {
    if |ts| > 0 {
      WithoutAbsentId(ts[1..], id);
      assert ts == [ts[0]] + ts[1..];
    }
  }

  /** `tasks.map((t) => (t.id === id ? task : t))`. */
  function ReplaceAll(ts: seq<ClientTask>, id: string, task: ClientTask): (r: seq<ClientTask>)
  {
    seq(|ts|, i requires 0 <= i < |ts| => if ts[i].id == id then task else ts[i])
  }

  /** `findIndex((t) => t.id === id)`: the first position with that id, or -1. */
  function FindIndex(ts: seq<ClientTask>, id: string): (r: int)
    ensures -1 <= r < |ts|
    ensures r == -1 <==> NoId(ts, id)
    ensures r >= 0 ==> ts[r].id == id && forall i :: 0 <= i < r ==> ts[i].id != id
    decreases |ts|
  {
    if |ts| == 0 then -1
    else if ts[0].id == id then 0
    else
      var j := FindIndex(ts[1..], id);
      if j == -1 then -1 else j + 1
  }

  /** `if (idx !== -1) tasks[idx] = task`. */
  function ReplaceFirst(ts: seq<ClientTask>, id: string, task: ClientTask): (r: seq<ClientTask>)
  {
    var idx := FindIndex(ts, id);
    if idx == -1 then ts else ts[idx := task]
  }

  /** Replacing every match keeps the length and the position of every
      task, and changes exactly the tasks with that id. */
  lemma ReplaceAllMeaning(ts: seq<ClientTask>, id: string, task: ClientTask)
    ensures var r := ReplaceAll(ts, id, task);
            && |r| == |ts|
            && (forall i :: 0 <= i < |ts| && ts[i].id != id ==> r[i] == ts[i])
            && (forall i :: 0 <= i < |ts| && ts[i].id == id ==> r[i] == task)
  {
  }

  /** Replacing the first match changes nothing when no task has the id, and
      otherwise changes exactly one position: the first with that id. */
  lemma ReplaceFirstMeaning(ts: seq<ClientTask>, id: string, task: ClientTask)
    ensures var r := ReplaceFirst(ts, id, task);
            && |r| == |ts|
            && (NoId(ts, id) ==> r == ts)
            && (!NoId(ts, id) ==>
                  exists k :: 0 <= k < |ts| && ts[k].id == id && (forall i :: 0 <= i < k ==> ts[i].id != id)
                    && r[k] == task && forall i :: 0 <= i < |ts| && i != k ==> r[i] == ts[i])
  {
    var idx := FindIndex(ts, id);
    if idx != -1 {
      var r := ReplaceFirst(ts, id, task);
      assert r[idx] == task;
    }
  }

  /** When at most one task carries the id, replacing the first match and
      replacing every match agree. */
  lemma ReplaceFirstIsReplaceAll(ts: seq<ClientTask>, id: string, task: ClientTask)
    requires forall i, j :: 0 <= i < j < |ts| && ts[i].id == id ==> ts[j].id != id
    ensures ReplaceFirst(ts, id, task) == ReplaceAll(ts, id, task)
  {
    var idx := FindIndex(ts, id);
    var first := ReplaceFirst(ts, id, task);
    var all := ReplaceAll(ts, id, task);
    if idx != -1 {
      assert forall i :: 0 <= i < idx ==> ts[..idx][i] == ts[i];
    }
  }

  /** Whatever an update put under an id, deleting that id afterwards leaves
      the same list as deleting it straight away. */
  lemma {:induction false} DeleteAfterReplace(ts: seq<ClientTask>, id: string, task: ClientTask)
    requires task.id == id
    ensures WithoutId(ReplaceAll(ts, id, task), id) == WithoutId(ts, id)
    decreases |ts|
  {
    if |ts| > 0 {
      var r := ReplaceAll(ts, id, task);
      assert r[1..] == ReplaceAll(ts[1..], id, task);
      DeleteAfterReplace(ts[1..], id, task);
    }
  }
}
