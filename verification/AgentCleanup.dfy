/** The agent's cleanup stacks, one for each process, under the key that encodes its IDs. */
module AgentCleanup {
  import opened Machine
  import opened Options
  import opened Text
  import opened Encoding

  const SLASH: Byte := 47

  datatype Pair = Pair(task: Bytes, exec: Bytes)

  /** Which IDs containerd accepts is decided elsewhere; what counts here is that none contains a slash. */
  ghost predicate RejectsSlashes(valid: Bytes -> bool) {
    forall s :: valid(s) ==> SLASH !in s
  }

  function TaskExecID(valid: Bytes -> bool, p: Pair): Option<Bytes> {
    if !valid(p.task) || (p.exec != [] && !valid(p.exec)) then None
    else Some(Base64Url(p.task + [SLASH] + p.exec))
  }

  /** A pair has a key exactly when its task is valid, and its exec too unless it is empty. */
  lemma TaskExecIDMeaning(valid: Bytes -> bool, p: Pair)
    ensures TaskExecID(valid, p).Some? <==> valid(p.task) && (p.exec == [] || valid(p.exec))
    ensures TaskExecID(valid, p).Some? ==> TaskExecID(valid, p).value == Base64Url(p.task + [47] + p.exec)
  {
  }

  /** Different valid pairs have different keys. */
  lemma TaskExecIDInjective(valid: Bytes -> bool, p: Pair, q: Pair)
    requires RejectsSlashes(valid)
    requires TaskExecID(valid, p).Some? && TaskExecID(valid, p) == TaskExecID(valid, q)
    ensures p == q
  {
    Base64Injective(p.task + [SLASH] + p.exec, q.task + [SLASH] + q.exec);
    SplitFirst(p.task, p.exec, SLASH);
    SplitFirst(q.task, q.exec, SLASH);
    assert p.task == Split(p.task + [SLASH] + p.exec, SLASH)[0] == q.task;
    assert (p.task + [SLASH] + p.exec)[|p.task| + 1..] == p.exec;
    assert (q.task + [SLASH] + q.exec)[|q.task| + 1..] == q.exec;
  }

  // ---------------------------------------------------------------- the stacks

  function Reversed<T>(s: seq<T>): (r: seq<T>)
    ensures |r| == |s| && forall i :: 0 <= i < |s| ==> r[i] == s[|s| - 1 - i]
  {
    if s == [] then [] else [s[|s| - 1]] + Reversed(s[..|s| - 1])
  }

  /** The cleanups that failed, in the order they ran. */
  function Failed(fails: nat -> bool, ran: seq<nat>): seq<nat> {
    if ran == [] then [] else (if fails(ran[0]) then [ran[0]] else []) + Failed(fails, ran[1..])
  }

  lemma {:induction false} FailedSnoc(fails: nat -> bool, ran: seq<nat>, c: nat)
    ensures Failed(fails, ran + [c]) == Failed(fails, ran) + (if fails(c) then [c] else [])
  {
    if ran == [] {
      assert ran + [c] == [c] && [c][1..] == [];
    } else {
      assert (ran + [c])[1..] == ran[1..] + [c];
      FailedSnoc(fails, ran[1..], c);
    }
  }

  /** Exactly those that ran and failed, in that order. */
  lemma {:induction false} FailedMeaning(fails: nat -> bool, ran: seq<nat>)
    ensures forall c :: c in Failed(fails, ran) <==> c in ran && fails(c)
    ensures (forall i, j :: 0 <= i < j < |ran| ==> ran[i] > ran[j]) ==>
              forall i, j :: 0 <= i < j < |Failed(fails, ran)| ==> Failed(fails, ran)[i] > Failed(fails, ran)[j]
  {
    if ran != [] {
      FailedMeaning(fails, ran[1..]);
      assert ran == [ran[0]] + ran[1..];
      var rest := Failed(fails, ran[1..]);
      if forall i, j :: 0 <= i < j < |ran| ==> ran[i] > ran[j] {
        forall j | 0 <= j < |rest| ensures ran[0] > rest[j] {
          assert rest[j] in ran[1..];
        }
      }
    }
  }

  function Entry(cleanups: map<Bytes, seq<nat>>, key: Bytes): seq<nat> {
    if key in cleanups then cleanups[key] else []
  }

  /** Cleanups are numbered in the order of registration; `log` records which ones ran. */
  class Cleanups {
    var execCleanups: map<Bytes, seq<nat>>
    var log: seq<nat>

    constructor ()
      ensures execCleanups == map[] && log == []
    {
      execCleanups, log := map[], [];
    }

    method AddCleanup(key: Bytes, cleanup: nat)
      modifies this
      ensures execCleanups == old(execCleanups)[key := Entry(old(execCleanups), key) + [cleanup]]
      ensures log == old(log)
    {
      var entry := if key in execCleanups then execCleanups[key] else [];
      execCleanups := execCleanups[key := entry + [cleanup]];
    }

    /** Runs every cleanup of the key, last one first, whether or not others fail. */
    method DoCleanup(key: Bytes, fails: nat -> bool) returns (errors: seq<nat>)
      modifies this
      ensures execCleanups == old(execCleanups) - {key}
      ensures log == old(log) + Reversed(Entry(old(execCleanups), key))
      ensures errors == Failed(fails, Reversed(Entry(old(execCleanups), key)))
      ensures forall c :: c in errors <==> c in Entry(old(execCleanups), key) && fails(c)
    {
      var entry := Entry(execCleanups, key);
      ghost var all := Reversed(entry);
      errors := [];
      for i := |entry| downto 0
        invariant execCleanups == old(execCleanups)
        invariant log == old(log) + all[..|entry| - i]
        invariant errors == Failed(fails, all[..|entry| - i])
      {
        FailedSnoc(fails, all[..|entry| - i - 1], entry[i]);
        assert all[..|entry| - i] == all[..|entry| - i - 1] + [entry[i]];
        log := log + [entry[i]];
        errors := errors + (if fails(entry[i]) then [entry[i]] else []);
      }
      assert all[..|entry|] == all;
      FailedMeaning(fails, all);
      forall c: nat ensures c in all <==> c in entry {
        ReversedMembers(entry, c);
      }
      execCleanups := execCleanups - {key};
    }
  }

  // ---------------------------------------------------------------- all interleavings

  /** Both operations hold the mutex from start to end, so a run is a sequence of them. */
  datatype Event = Add(pair: Pair) | Do(pair: Pair)

  /** `owners[c]` is the pair cleanup number `c` was registered for. */
  datatype State = State(cleanups: map<Bytes, seq<nat>>, owners: seq<Pair>, log: seq<nat>)

  const START := State(map[], [], [])

  predicate Enabled(valid: Bytes -> bool, e: Event) { TaskExecID(valid, e.pair).Some? }

  function Next(valid: Bytes -> bool, s: State, e: Event): State
    requires Enabled(valid, e)
  {
    var key := TaskExecID(valid, e.pair).value;
    match e
    case Add(pair) =>
      State(s.cleanups[key := Entry(s.cleanups, key) + [|s.owners|]], s.owners + [pair], s.log)
    case Do(pair) =>
      s.(cleanups := s.cleanups - {key}, log := s.log + Reversed(Entry(s.cleanups, key)))
  }

  function Run(valid: Bytes -> bool, s: State, run: seq<Event>): State
    requires forall i :: 0 <= i < |run| ==> Enabled(valid, run[i])
  {
    if run == [] then s else Next(valid, Run(valid, s, run[..|run| - 1]), run[|run| - 1])
  }

  /** What is waiting under a key: registered for it, in order of registration, and not run yet. */
  ghost predicate Waiting(valid: Bytes -> bool, s: State, key: Bytes) {
    var e := Entry(s.cleanups, key);
    && (forall i :: 0 <= i < |e| ==>
          && e[i] < |s.owners| && e[i] !in s.log
          && TaskExecID(valid, s.owners[e[i]]) == Some(key))
    && (forall i, j :: 0 <= i < j < |e| ==> e[i] < e[j])
  }

  ghost predicate Once(log: seq<nat>) {
    forall i, j :: 0 <= i < j < |log| ==> log[i] != log[j]
  }

  ghost predicate Inv(valid: Bytes -> bool, s: State) {
    && (forall key :: Waiting(valid, s, key))
    && Once(s.log)
    && (forall i :: 0 <= i < |s.log| ==> s.log[i] < |s.owners|)
    && (forall c :: 0 <= c < |s.owners| && c !in s.log ==>
          TaskExecID(valid, s.owners[c]).Some? && c in Entry(s.cleanups, TaskExecID(valid, s.owners[c]).value))
  }

  lemma AddInv(valid: Bytes -> bool, s: State, pair: Pair)
    requires Inv(valid, s) && TaskExecID(valid, pair).Some?
    ensures Inv(valid, Next(valid, s, Add(pair)))
  {
    hide TaskExecID;
    var s', key := Next(valid, s, Add(pair)), TaskExecID(valid, pair).value;
    assert |s.owners| !in s.log;
    forall k ensures Waiting(valid, s', k) {
      assert Waiting(valid, s, k);
      var e, e' := Entry(s.cleanups, k), Entry(s'.cleanups, k);
      assert e' == if k == key then e + [|s.owners|] else e;
      assert forall i :: 0 <= i < |e| ==> e'[i] == e[i] && s'.owners[e[i]] == s.owners[e[i]];
    }
    forall c | 0 <= c < |s'.owners| && c !in s'.log
      ensures TaskExecID(valid, s'.owners[c]).Some?
      ensures c in Entry(s'.cleanups, TaskExecID(valid, s'.owners[c]).value)
    {
      if c == |s.owners| {
        assert s'.cleanups[key][|Entry(s.cleanups, key)|] == c;
      }
    }
  }

  lemma ReversedMembers(e: seq<nat>, c: nat)
    ensures c in Reversed(e) <==> c in e
  {
    var r := Reversed(e);
    if c in e {
      var i :| 0 <= i < |e| && e[i] == c;
      assert r[|e| - 1 - i] == c;
    }
  }

  lemma DoLog(valid: Bytes -> bool, s: State, key: Bytes)
    requires Inv(valid, s)
    ensures Once(s.log + Reversed(Entry(s.cleanups, key)))
    ensures forall c: nat ::
              c in s.log + Reversed(Entry(s.cleanups, key)) <==> c in s.log || c in Entry(s.cleanups, key)
  {
    hide TaskExecID;
    var e := Entry(s.cleanups, key);
    assert Waiting(valid, s, key);
    forall c: nat ensures c in Reversed(e) <==> c in e {
      ReversedMembers(e, c);
    }
  }

  /** A cleanup waits under one key only. */
  lemma OthersKept(valid: Bytes -> bool, s: State, key: Bytes, k: Bytes)
    requires Waiting(valid, s, key) && Waiting(valid, s, k) && k != key
    ensures forall i :: 0 <= i < |Entry(s.cleanups, k)| ==>
              Entry(s.cleanups, k)[i] !in Entry(s.cleanups, key)
  {
    hide TaskExecID;
  }

  lemma DoInv(valid: Bytes -> bool, s: State, pair: Pair)
    requires Inv(valid, s) && TaskExecID(valid, pair).Some?
    ensures Inv(valid, Next(valid, s, Do(pair)))
  {
    hide TaskExecID, Reversed, Once;
    var s', key := Next(valid, s, Do(pair)), TaskExecID(valid, pair).value;
    DoLog(valid, s, key);
    assert Waiting(valid, s, key);
    forall k ensures Waiting(valid, s', k) {
      assert Waiting(valid, s, k);
      if k != key { OthersKept(valid, s, key, k); }
    }
    forall i | 0 <= i < |s'.log| ensures s'.log[i] < |s'.owners| {
      assert s'.log[i] in s'.log;
    }
  }

  /** In every interleaving each registered cleanup is waiting under its own key or has run exactly once. */
  lemma {:induction false} RunInv(valid: Bytes -> bool, run: seq<Event>)
    requires forall i :: 0 <= i < |run| ==> Enabled(valid, run[i])
    ensures Inv(valid, Run(valid, START, run))
    decreases |run|
  {
    if run != [] {
      var before, e := Run(valid, START, run[..|run| - 1]), run[|run| - 1];
      RunInv(valid, run[..|run| - 1]);
      match e
      case Add(pair) => AddInv(valid, before, pair);
      case Do(pair) => DoInv(valid, before, pair);
    }
  }

  /**
   * A cleanup of a pair runs everything registered for that pair and not run before, nothing of any other pair,
   * the last one registered first; afterwards nothing of the pair is left.
   */
  lemma DoMeaning(valid: Bytes -> bool, run: seq<Event>, pair: Pair)
    requires RejectsSlashes(valid) && TaskExecID(valid, pair).Some?
    requires forall i :: 0 <= i < |run| ==> Enabled(valid, run[i])
    ensures var s := Run(valid, START, run);
            var s' := Next(valid, s, Do(pair));
            var ran := s'.log[|s.log|..];
            && s.log <= s'.log
            && (forall c: nat :: c in ran <==> c < |s.owners| && s.owners[c] == pair && c !in s.log)
            && (forall i, j :: 0 <= i < j < |ran| ==> ran[i] > ran[j])
            && TaskExecID(valid, pair).value !in s'.cleanups
  {
    RunInv(valid, run);
    hide TaskExecID;
    var s, key := Run(valid, START, run), TaskExecID(valid, pair).value;
    var s' := Next(valid, s, Do(pair));
    var e := Entry(s.cleanups, key);
    var ran := s'.log[|s.log|..];
    assert ran == Reversed(e);
    assert Waiting(valid, s, key);
    forall c: nat ensures c in ran <==> c < |s.owners| && s.owners[c] == pair && c !in s.log {
      ReversedMembers(e, c);
      if c in e {
        TaskExecIDInjective(valid, s.owners[c], pair);
      }
    }
  }
}
