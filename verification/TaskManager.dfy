/** The two-level process map of the task manager, and its refinement of a flat map. */
module TaskManager {
  import opened Options

  datatype Key = Key(task: string, exec: string)

  /** The state under the mutex; `P` is the process a key stands for. */
  datatype Manager<P> = Manager(tasks: map<string, map<string, P>>, isShutdown: bool)

  // ---------------------------------------------------------------- the critical sections

  predicate CanAdd<P>(m: Manager<P>, k: Key) {
    && !m.isShutdown
    && (k.task in m.tasks || k.exec == "")
    && !(k.task in m.tasks && k.exec in m.tasks[k.task])
  }

  /** `newProc` once its checks passed. */
  function Add<P>(m: Manager<P>, k: Key, p: P): Manager<P>
    requires CanAdd(m, k)
  {
    var execs := if k.task in m.tasks then m.tasks[k.task] else map[];
    m.(tasks := m.tasks[k.task := execs[k.exec := p]])
  }

  /** What `deleteProc` finds. */
  function Lookup<P>(m: Manager<P>, k: Key): Option<P> {
    if k.task in m.tasks && k.exec in m.tasks[k.task] then Some(m.tasks[k.task][k.exec]) else None
  }

  /** `deleteProc`: a task without processes is removed as well. */
  function Remove<P>(m: Manager<P>, k: Key): Manager<P> {
    if Lookup(m, k).None? then m
    else
      var execs := m.tasks[k.task] - {k.exec};
      m.(tasks := if |execs| == 0 then m.tasks - {k.task} else m.tasks[k.task := execs])
  }

  /** `ShutdownIfEmpty`. */
  function Shutdown<P>(m: Manager<P>): Manager<P> {
    if |m.tasks| == 0 then m.(isShutdown := true) else m
  }

  // ---------------------------------------------------------------- the flat map

  ghost predicate NoEmptyTask<P>(m: Manager<P>) {
    forall t :: t in m.tasks ==> m.tasks[t] != map[]
  }

  ghost function Flat<P>(m: Manager<P>): map<Key, P> {
    map t, e | t in m.tasks && e in m.tasks[t] :: Key(t, e) := m.tasks[t][e]
  }

  lemma LookupIsFlat<P>(m: Manager<P>, k: Key)
    ensures Lookup(m, k) == if k in Flat(m) then Some(Flat(m)[k]) else None
  {
  }

  lemma AddLookup<P>(m: Manager<P>, k: Key, p: P, j: Key)
    requires CanAdd(m, k)
    ensures Lookup(Add(m, k, p), j) == if j == k then Some(p) else Lookup(m, j)
  {
  }

  lemma RemoveLookup<P>(m: Manager<P>, k: Key, j: Key)
    ensures Lookup(Remove(m, k), j) == if j == k then None else Lookup(m, j)
  {
    if Lookup(m, k).Some? {
      var execs := m.tasks[k.task] - {k.exec};
      if j.task == k.task && j != k && j.exec in m.tasks[k.task] { assert j.exec in execs; }
    }
  }

  /** Registering needs an open manager, a new key, and for an exec some process of its task. */
  lemma CanAddMeaning<P>(m: Manager<P>, k: Key)
    requires NoEmptyTask(m)
    ensures CanAdd(m, k) <==>
              && !m.isShutdown && k !in Flat(m)
              && (k.exec == "" || exists e :: Key(k.task, e) in Flat(m))
  {
    LookupIsFlat(m, k);
    if k.task in m.tasks {
      var e :| e in m.tasks[k.task];
      LookupIsFlat(m, Key(k.task, e));
      assert Key(k.task, e) in Flat(m);
    } else {
      forall e ensures Key(k.task, e) !in Flat(m) {
        LookupIsFlat(m, Key(k.task, e));
      }
    }
  }

  lemma AddRefines<P>(m: Manager<P>, k: Key, p: P)
    requires NoEmptyTask(m) && CanAdd(m, k)
    ensures NoEmptyTask(Add(m, k, p)) && Flat(Add(m, k, p)) == Flat(m)[k := p]
  {
    var a := Add(m, k, p);
    assert k.exec in a.tasks[k.task];
    hide Flat, Add, Lookup;
    forall j ensures (j in Flat(a) <==> j in Flat(m)[k := p]) && (j in Flat(a) ==> Flat(a)[j] == Flat(m)[k := p][j]) {
      AddLookup(m, k, p, j);
      LookupIsFlat(a, j);
      LookupIsFlat(m, j);
    }
  }

  lemma RemoveRefines<P>(m: Manager<P>, k: Key)
    requires NoEmptyTask(m)
    ensures NoEmptyTask(Remove(m, k)) && Flat(Remove(m, k)) == Flat(m) - {k}
    ensures Remove(m, k).isShutdown == m.isShutdown
  {
    RemoveNoEmpty(m, k);
    var r := Remove(m, k);
    hide Flat, Remove, Lookup, NoEmptyTask;
    forall j ensures (j in Flat(r) <==> j in Flat(m) - {k}) && (j in Flat(r) ==> Flat(r)[j] == Flat(m)[j]) {
      RemoveLookup(m, k, j);
      LookupIsFlat(r, j);
      LookupIsFlat(m, j);
    }
  }

  lemma RemoveNoEmpty<P>(m: Manager<P>, k: Key)
    requires NoEmptyTask(m)
    ensures NoEmptyTask(Remove(m, k)) && Remove(m, k).isShutdown == m.isShutdown
  {
    if Lookup(m, k).Some? {
      var execs := m.tasks[k.task] - {k.exec};
      assert |execs| == 0 <==> execs == map[];
    }
  }

  /** Shutting down succeeds exactly when the flat map is empty. */
  lemma ShutdownRefines<P>(m: Manager<P>)
    requires NoEmptyTask(m)
    ensures |m.tasks| == 0 <==> Flat(m) == map[]
    ensures NoEmptyTask(Shutdown(m)) && Flat(Shutdown(m)) == Flat(m)
    ensures Shutdown(m).isShutdown == (m.isShutdown || Flat(m) == map[])
  {
    if |m.tasks| != 0 {
      var t :| t in m.tasks;
      assert m.tasks[t] != map[];
      var e :| e in m.tasks[t];
      LookupIsFlat(m, Key(t, e));
    } else {
      assert m.tasks == map[];
    }
  }

  /** A registration that is taken back leaves the nested map as it was. */
  lemma RemoveUndoesAdd<P>(m: Manager<P>, k: Key, p: P)
    requires NoEmptyTask(m) && CanAdd(m, k)
    ensures Remove(Add(m, k, p), k) == m
  {
    var execs := if k.task in m.tasks then m.tasks[k.task] else map[];
    assert execs[k.exec := p] - {k.exec} == execs;
    if k.task in m.tasks {
      assert execs != map[];
      assert |execs| != 0;
      assert m.tasks[k.task := execs] == m.tasks;
    } else {
      assert m.tasks[k.task := map[k.exec := p]] - {k.task} == m.tasks;
    }
  }

  // ---------------------------------------------------------------- the manager

  class Proc {
    const key: Key
    var cancelled: bool

    constructor (key: Key)
      ensures this.key == key && !cancelled
    {
      this.key, cancelled := key, false;
    }
  }

  class TaskManager {
    var tasks: map<string, map<string, Proc>>
    var isShutdown: bool

    ghost function Value(): Manager<Proc>
      reads this
    {
      Manager(tasks, isShutdown)
    }

    constructor ()
      ensures Value() == Manager(map[], false)
    {
      tasks, isShutdown := map[], false;
    }

    method NewProc(k: Key) returns (r: Option<Proc>)
      modifies this
      ensures r.Some? <==> CanAdd(old(Value()), k)
      ensures r.Some? ==> fresh(r.value) && r.value.key == k && !r.value.cancelled
      ensures Value() == if r.Some? then Add(old(Value()), k, r.value) else old(Value())
    {
      if isShutdown {
        return None;
      }
      var execs: map<string, Proc> := map[];
      if k.task in tasks {
        execs := tasks[k.task];
      } else if k.exec != "" {
        return None;
      }
      if k.exec in execs {
        return None;
      }
      var proc := new Proc(k);
      tasks := tasks[k.task := execs[k.exec := proc]];
      r := Some(proc);
    }

    method DeleteProc(k: Key) returns (r: Option<Proc>)
      modifies this
      ensures r == Lookup(old(Value()), k) && Value() == Remove(old(Value()), k)
    {
      if k.task !in tasks {
        return None;
      }
      if k.exec !in tasks[k.task] {
        return None;
      }
      r := Some(tasks[k.task][k.exec]);
      var execs := tasks[k.task] - {k.exec};
      if |execs| == 0 {
        tasks := tasks - {k.task};
      } else {
        tasks := tasks[k.task := execs];
      }
    }

    method ShutdownIfEmpty() returns (done: bool)
      modifies this
      ensures done == (|old(tasks)| == 0) && Value() == Shutdown(old(Value()))
    {
      if |tasks| == 0 {
        isShutdown := true;
        return true;
      }
      return false;
    }

    /**
     * `CreateTask` and `ExecProcess` when no other call interferes, by the results of the task service and of
     * the IO initialization: a failure cancels the new process and restores the map exactly.
     */
    method CreateProcess(k: Key, serviceOk: bool, ioOk: bool) returns (ok: bool, proc: Option<Proc>)
      requires NoEmptyTask(Value())
      modifies this
      ensures NoEmptyTask(Value())
      ensures proc.Some? <==> CanAdd(old(Value()), k)
      ensures ok <==> proc.Some? && serviceOk && ioOk
      ensures proc.Some? ==> fresh(proc.value) && proc.value.key == k && proc.value.cancelled == !ok
      ensures Value() == if ok then Add(old(Value()), k, proc.value) else old(Value())
    {
      proc := NewProc(k);
      if proc.None? {
        return false, proc;
      }
      AddRefines(old(Value()), k, proc.value);
      ok := serviceOk && ioOk;
      if !ok {
        proc.value.cancelled := true;
        RemoveUndoesAdd(old(Value()), k, proc.value);
        var _ := DeleteProc(k);
      }
    }
  }
}
