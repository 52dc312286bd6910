// The task table that orders documentation jobs: tasks are numbered in
// creation order, handed out once their dependencies are done, and removed
// when completed.
module MultiTaskDispatch {
  import opened Wrappers
  import opened SeqUtil

  /** A task; `dependencies` holds the ids of the tasks it waits for. Status 0 is pending, 1 handed out. */
  datatype Task<T> = Task(taskId: int, dependencies: seq<int>, extraInfo: T, status: int)

  predicate Ready<T>(t: Task<T>)
  {
    |t.dependencies| == 0 && t.status == 0
  }

  /** A table that is not empty holds some task id. */
  lemma TableHasKey<T>(m: map<int, Task<T>>)
    requires |m| != 0
    ensures exists id :: id in m
  {
    var id := MemberOfNonEmpty(m.Keys);
  }

  class TaskManager<T> {
    var taskDict: map<int, Task<T>>
    var nowId: int
    var queryId: int

    /** Ids are below `nowId`, each task knows its own id, and dependencies point to earlier ids. */
    ghost predicate Valid()
      reads this
    {
      nowId >= 0
      && forall id :: id in taskDict ==>
           0 <= id < nowId && taskDict[id].taskId == id
           && forall d :: d in taskDict[id].dependencies ==> 0 <= d < id
    }

    /** Every listed dependency is still in the table. */
    ghost predicate DepsPresent()
      reads this
    {
      forall id, d :: id in taskDict && d in taskDict[id].dependencies ==> d in taskDict
    }

    ghost predicate DepsDistinct()
      reads this
    {
      forall id :: id in taskDict ==> NoDup(taskDict[id].dependencies)
    }

    ghost predicate AllPending()
      reads this
    {
      forall id :: id in taskDict ==> taskDict[id].status == 0
    }

    constructor ()
      ensures Valid() && DepsPresent() && DepsDistinct() && AllPending()
      ensures taskDict == map[] && nowId == 0 && queryId == 0
    {
      taskDict := map[];
      nowId := 0;
      queryId := 0;
    }

    /** `all_success`: every task was marked completed, so the table holds no task at all. */
    function AllSuccess(): (r: bool)
      reads this
      ensures r <==> taskDict == map[]
      ensures !r ==> exists id :: id in taskDict
    {
      if |taskDict| == 0 then true
      else
        TableHasKey(taskDict);
        false
    }

    /**
     * `add_task`: the new task is stored under `nowId`, whose value is
     * returned before it is incremented. A dependency id that is not in the
     * table raises KeyError before anything changes.
     */
    method AddTask(dependencyTaskIds: seq<int>, extra: T) returns (r: Result<int>)
      requires Valid()
      modifies this
      ensures Valid()
      ensures queryId == old(queryId)
      ensures (forall d :: d in dependencyTaskIds ==> d in old(taskDict)) ==>
        r == Ok(old(nowId)) && nowId == old(nowId) + 1
        && taskDict == old(taskDict)[old(nowId) := Task(old(nowId), dependencyTaskIds, extra, 0)]
      ensures !(forall d :: d in dependencyTaskIds ==> d in old(taskDict)) ==>
        r.Err? && nowId == old(nowId) && taskDict == old(taskDict)
      ensures old(DepsPresent()) ==> DepsPresent()
      ensures old(DepsDistinct()) && NoDup(dependencyTaskIds) ==> DepsDistinct()
      ensures old(AllPending()) ==> AllPending()
    {
      var i := 0;
      while i < |dependencyTaskIds|
        invariant 0 <= i <= |dependencyTaskIds|
        invariant forall k :: 0 <= k < i ==> dependencyTaskIds[k] in taskDict
        invariant taskDict == old(taskDict) && nowId == old(nowId) && queryId == old(queryId)
      {
        if dependencyTaskIds[i] !in taskDict {
          var missing := dependencyTaskIds[i];
          assert missing in dependencyTaskIds && missing !in old(taskDict);
          return Err("KeyError");
        }
        i := i + 1;
      }
      taskDict := taskDict[nowId := Task(nowId, dependencyTaskIds, extra, 0)];
      nowId := nowId + 1;
      r := Ok(nowId - 1);
    }

    /**
     * `get_next_task`: the first ready task in table order (ascending ids,
     * since ids are inserted in increasing order and only ever deleted) is
     * marked as handed out and returned with its id; otherwise (None, -1).
     */
    method GetNextTask() returns (task: Option<Task<T>>, taskId: int)
      requires Valid()
      modifies this
      ensures Valid() && nowId == old(nowId) && queryId == old(queryId) + 1
      ensures task.None? ==>
        taskId == -1 && taskDict == old(taskDict) && forall id :: id in taskDict ==> !Ready(taskDict[id])
      ensures task.Some? ==>
        taskId in old(taskDict) && Ready(old(taskDict)[taskId])
        && (forall id :: id in old(taskDict) && id < taskId ==> !Ready(old(taskDict)[id]))
        && task.value == old(taskDict)[taskId].(status := 1)
        && taskDict == old(taskDict)[taskId := task.value]
      ensures old(DepsPresent()) ==> DepsPresent()
      ensures old(DepsDistinct()) ==> DepsDistinct()
    {
      queryId := queryId + 1;
      var k := 0;
      while k < nowId
        invariant 0 <= k <= nowId
        invariant forall id :: id in taskDict && id < k ==> !Ready(taskDict[id])
      {
        if k in taskDict && Ready(taskDict[k]) {
          var t := taskDict[k].(status := 1);
          taskDict := taskDict[k := t];
          return Some(t), k;
        }
        k := k + 1;
      }
      return None, -1;
    }

    /**
     * `mark_completed`: the task leaves the table and one occurrence of it
     * leaves every remaining dependency list (Python `list.remove`). A
     * missing id raises KeyError and nothing changes.
     */
    method MarkCompleted(taskId: int) returns (ok: bool)
      requires Valid()
      modifies this
      ensures Valid() && nowId == old(nowId) && queryId == old(queryId)
      ensures ok <==> taskId in old(taskDict)
      ensures !ok ==> taskDict == old(taskDict)
      ensures ok ==> taskDict.Keys == old(taskDict).Keys - {taskId}
      ensures ok ==> forall id :: id in taskDict ==>
        taskDict[id] == old(taskDict)[id].(dependencies := RemoveFirst(old(taskDict)[id].dependencies, taskId))
      ensures old(DepsPresent()) && old(DepsDistinct()) ==> DepsPresent() && DepsDistinct()
      ensures old(AllPending()) ==> AllPending()
    {
      if taskId !in taskDict {
        return false;
      }
      var updated: map<int, Task<T>> := map[];
      var k := 0;
      while k < nowId
        invariant 0 <= k <= nowId
        invariant updated.Keys == set id | id in taskDict && id < k && id != taskId
        invariant forall id :: id in updated ==>
          updated[id] == taskDict[id].(dependencies := RemoveFirst(taskDict[id].dependencies, taskId))
      {
        if k in taskDict && k != taskId {
          var t := taskDict[k];
          updated := updated[k := t.(dependencies := RemoveFirst(t.dependencies, taskId))];
        }
        k := k + 1;
      }
      ghost var before := taskDict;
      taskDict := updated;
      ok := true;
      if old(DepsPresent()) && old(DepsDistinct()) {
        forall id | id in taskDict ensures NoDup(taskDict[id].dependencies)
          && forall d :: d in taskDict[id].dependencies ==> d in taskDict
        {
          RemoveFirstNoDup(before[id].dependencies, taskId);
        }
      }
    }
  }

  /** The table's invariants, stated on a map so that lemmas can reason about two versions of it. */
  ghost predicate WellFormedTable<T>(m: map<int, Task<T>>)
  {
    (forall id :: id in m ==> id >= 0 && NoDup(m[id].dependencies) && m[id].status == 0)
    && (forall id, d :: id in m && d in m[id].dependencies ==> d in m && d < id)
  }

  /** In a non-empty well-formed table the least id is ready. */
  lemma SomeTaskReady<T>(m: map<int, Task<T>>, some: int)
    requires WellFormedTable(m) && some in m
    ensures exists id :: id in m && Ready(m[id])
  {
    var least := LeastElement(m.Keys, some);
    var deps := m[least].dependencies;
    assert forall d :: d in deps ==> d in m && d < least;
    HeadIsMember(deps);
    assert Ready(m[least]);
  }

  /**
   * What the sequential worker has achieved so far: the handled tasks left
   * the table in an order that respects dependencies, and each remaining
   * task still waits exactly for its uncompleted dependencies.
   */
  ghost predicate Progress<T>(initial: map<int, Task<T>>, current: map<int, Task<T>>, order: seq<int>, handled: seq<T>)
  {
    NoDup(order) && |handled| == |order|
    && (forall id :: id in initial <==> id in order || id in current)
    && (forall id :: id in order ==> id !in current)
    && (forall id :: id in current ==>
          current[id].extraInfo == initial[id].extraInfo
          && (forall d :: d in current[id].dependencies ==> d in initial[id].dependencies)
          && (forall d :: d in initial[id].dependencies && d !in order ==> d in current[id].dependencies))
    && (forall i :: 0 <= i < |order| ==> order[i] in initial && handled[i] == initial[order[i]].extraInfo)
    && (forall i, d :: 0 <= i < |order| && d in initial[order[i]].dependencies ==> d in order[..i])
  }

  /** Handling a ready task and marking it completed keeps the progress invariant. */
  lemma ProgressStep<T>(initial: map<int, Task<T>>, current: map<int, Task<T>>, next: map<int, Task<T>>,
                        order: seq<int>, handled: seq<T>, taskId: int)
    requires Progress(initial, current, order, handled) && WellFormedTable(current)
    requires taskId in current && |current[taskId].dependencies| == 0
    requires next.Keys == current.Keys - {taskId}
    requires forall id :: id in next ==>
      next[id] == current[id].(dependencies := RemoveFirst(current[id].dependencies, taskId))
    ensures Progress(initial, next, order + [taskId], handled + [current[taskId].extraInfo])
  {
    ProgressStepOrder(initial, current, order, handled, taskId);
    ProgressStepTable(initial, current, next, order, handled, taskId);
  }

  /** The handling order side of `ProgressStep`: the new id is fresh, its payload is recorded and its dependencies were handled before it. */
  lemma ProgressStepOrder<T>(initial: map<int, Task<T>>, current: map<int, Task<T>>, order: seq<int>, handled: seq<T>, taskId: int)
    requires Progress(initial, current, order, handled)
    requires taskId in current && |current[taskId].dependencies| == 0
    ensures NoDup(order + [taskId]) && |handled + [current[taskId].extraInfo]| == |order + [taskId]|
    ensures forall i :: 0 <= i < |order + [taskId]| ==>
              (order + [taskId])[i] in initial && (handled + [current[taskId].extraInfo])[i] == initial[(order + [taskId])[i]].extraInfo
    ensures forall i, d :: 0 <= i < |order + [taskId]| && d in initial[(order + [taskId])[i]].dependencies ==> d in (order + [taskId])[..i]
  {
    var order' := order + [taskId];
    var handled' := handled + [current[taskId].extraInfo];
    assert forall d :: d in initial[taskId].dependencies ==> d in order;
    forall i | 0 <= i < |order'|
      ensures order'[i] in initial && handled'[i] == initial[order'[i]].extraInfo
    {
      if i < |order| { assert order'[i] == order[i] && handled'[i] == handled[i]; }
    }
    forall i, d | 0 <= i < |order'| && d in initial[order'[i]].dependencies
      ensures d in order'[..i]
    {
      if i < |order| { assert order'[i] == order[i] && order'[..i] == order[..i]; } else { assert order'[..i] == order; }
    }
  }

  /** The table side of `ProgressStep`: every remaining task keeps its payload and loses exactly the handled dependency. */
  lemma ProgressStepTable<T>(initial: map<int, Task<T>>, current: map<int, Task<T>>, next: map<int, Task<T>>,
                             order: seq<int>, handled: seq<T>, taskId: int)
    requires Progress(initial, current, order, handled) && WellFormedTable(current)
    requires taskId in current
    requires next.Keys == current.Keys - {taskId}
    requires forall id :: id in next ==>
      next[id] == current[id].(dependencies := RemoveFirst(current[id].dependencies, taskId))
    ensures forall id :: id in initial <==> id in order + [taskId] || id in next
    ensures forall id :: id in order + [taskId] ==> id !in next
    ensures forall id :: id in next ==>
              next[id].extraInfo == initial[id].extraInfo
              && (forall d :: d in next[id].dependencies ==> d in initial[id].dependencies)
              && (forall d :: d in initial[id].dependencies && d !in order + [taskId] ==> d in next[id].dependencies)
  {
    var order' := order + [taskId];
    forall id | id in next
      ensures forall d :: d in initial[id].dependencies && d !in order' ==> d in next[id].dependencies
      ensures forall d :: d in next[id].dependencies ==> d in initial[id].dependencies
    {
      RemoveFirstNoDup(current[id].dependencies, taskId);
    }
  }

  /** The class invariants together give the map-level ones. */
  lemma WellFormedFromClass<T>(tm: TaskManager<T>)
    requires tm.Valid() && tm.DepsPresent() && tm.DepsDistinct() && tm.AllPending()
    ensures WellFormedTable(tm.taskDict)
  {
  }

  /**
   * Handing out the task `taskId` and then marking it completed removes it
   * from the table and one occurrence of it from every other dependency
   * list, and keeps the table well formed.
   */
  lemma CompletionStep<T>(current: map<int, Task<T>>, handedOut: map<int, Task<T>>, next: map<int, Task<T>>, taskId: int)
    requires WellFormedTable(current) && taskId in current && |current[taskId].dependencies| == 0
    requires handedOut == current[taskId := current[taskId].(status := 1)]
    requires next.Keys == handedOut.Keys - {taskId}
    requires forall id :: id in next ==>
      next[id] == handedOut[id].(dependencies := RemoveFirst(handedOut[id].dependencies, taskId))
    ensures next.Keys == current.Keys - {taskId}
    ensures forall id :: id in next ==>
      next[id] == current[id].(dependencies := RemoveFirst(current[id].dependencies, taskId))
    ensures WellFormedTable(next)
  {
    forall id | id in next
      ensures next[id] == current[id].(dependencies := RemoveFirst(current[id].dependencies, taskId))
    {
      assert handedOut[id] == current[id];
    }
    forall id | id in next
      ensures id >= 0 && NoDup(next[id].dependencies) && next[id].status == 0
      ensures forall d :: d in next[id].dependencies ==> d in next && d < id
    {
      CompletedEntry(current, next, taskId, id);
    }
  }

  /** One remaining entry after `taskId` is completed: still pending, still without duplicates, still depending only on smaller remaining ids. */
  lemma CompletedEntry<T>(current: map<int, Task<T>>, next: map<int, Task<T>>, taskId: int, id: int)
    requires WellFormedTable(current) && taskId in current && id in current && id != taskId
    requires next.Keys == current.Keys - {taskId}
    requires id in next && next[id] == current[id].(dependencies := RemoveFirst(current[id].dependencies, taskId))
    ensures id >= 0 && NoDup(next[id].dependencies) && next[id].status == 0
    ensures forall d :: d in next[id].dependencies ==> d in next && d < id
  {
    var deps := current[id].dependencies;
    RemoveFirstNoDup(deps, taskId);
    forall d | d in next[id].dependencies ensures d in next && d < id {
      var k :| 0 <= k < |RemoveFirst(deps, taskId)| && RemoveFirst(deps, taskId)[k] == d;
      assert d in deps && d != taskId;
    }
  }

  /**
   * `worker`, run alone: until the table is empty, take the next ready task,
   * call the handler on its payload and mark it completed (the sleep when
   * nothing is ready never happens here). Returns the ids in handling order
   * and the payloads handed to the handler.
   */
  method Worker<T>(tm: TaskManager<T>) returns (order: seq<int>, handled: seq<T>)
    requires tm.Valid() && tm.DepsPresent() && tm.DepsDistinct() && tm.AllPending()
    modifies tm
    ensures tm.Valid() && tm.taskDict == map[]
    ensures NoDup(order) && forall id :: id in order <==> id in old(tm.taskDict)
    ensures forall i :: 0 <= i < |order| ==> order[i] in old(tm.taskDict)
    ensures |handled| == |order|
      && forall i :: 0 <= i < |order| ==> handled[i] == old(tm.taskDict)[order[i]].extraInfo
    ensures forall i, d :: 0 <= i < |order| && d in old(tm.taskDict)[order[i]].dependencies ==> d in order[..i]
  {
    ghost var initial := tm.taskDict;
    WellFormedFromClass(tm);
    order, handled := [], [];
    while !tm.AllSuccess()
      invariant tm.Valid() && WellFormedTable(tm.taskDict)
      invariant Progress(initial, tm.taskDict, order, handled)
      decreases |tm.taskDict|
    {
      var some := MemberOfNonEmpty(tm.taskDict.Keys);
      SomeTaskReady(tm.taskDict, some);
      ghost var current := tm.taskDict;
      var task, taskId := tm.GetNextTask();
      ghost var handedOut := tm.taskDict;
      var ok := tm.MarkCompleted(taskId);
      CompletionStep(current, handedOut, tm.taskDict, taskId);
      ProgressStep(initial, current, tm.taskDict, order, handled, taskId);
      handled := handled + [task.value.extraInfo];
      order := order + [taskId];
    }
    assert tm.taskDict.Keys == {};
  }
}
