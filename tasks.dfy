/**
 * The progress-task tree of src/tasks.py.
 *
 * Every task of a run lives in one `TaskTree`; a reference to a task is its
 * index in `TaskTree.tasks`. A `MultiTask` is always built after its
 * sub-tasks, so its sub-tasks have smaller indices and the bound method
 * `update` it subscribes on each of them (a `Parent` listener) points to a
 * larger index: the task graph is acyclic by construction.
 *
 * The functions below give the meaning of every operation on the value of
 * the whole tree (`UpdateRun`, `ResetRun`, `IsDone`, `CompletenessOf`); the
 * methods of `TaskTree` are the operations themselves, proved against them.
 */
module Tasks {
  import opened Utils

  /** A callback stored in a task's listener dictionary. */
  datatype Listener =
    | External(tag: int)   // an observer outside the tree; only the fact that it was called is kept
    | Parent(owner: nat)   // `owner.update`, subscribed by the MultiTask `owner` on its sub-task

  /** One `uid: listener` item of the dictionary; the sequence keeps insertion order. */
  datatype Entry = Entry(uid: int, listener: Listener)

  datatype Task =
    | SimpleTask(name: string, listeners: seq<Entry>, done: bool)
    | CounterTask(name: string, listeners: seq<Entry>, progress: int, length: real)
    | MultiTask(name: string, listeners: seq<Entry>, subTasks: seq<nat>)

  /** What `remove` reports: success, or the KeyError of `del` on an unknown id. */
  datatype Outcome = Removed | KeyError(uid: int)

  /** The result of an operation on the tree: the new tasks and the external listeners it called, in order. */
  datatype Run = Run(tasks: seq<Task>, fired: seq<int>)

  /** `name or "task"`: a given name is kept, and a task is never left without one. */
  function DisplayName(name: string): (r: string)
    ensures r != "" && (name != "" ==> r == name)
  {
    if name == "" then "task" else name
  }

  // ---------------------------------------------------------------------
  // The listener dictionary
  // ---------------------------------------------------------------------

  /** `dictionary.keys()`. */
  function Ids(r: seq<Entry>): set<int> {
    set k | 0 <= k < |r| :: r[k].uid
  }

  predicate DistinctIds(r: seq<Entry>) {
    forall j, k :: 0 <= j < k < |r| ==> r[j].uid != r[k].uid
  }

  /** The dictionary as a map from id to listener. */
  function AsMap(r: seq<Entry>): map<int, Listener>
  {
    if r == [] then map[]
    else AsMap(r[..|r| - 1])[r[|r| - 1].uid := r[|r| - 1].listener]
  }

  /** `del dictionary[uid]`, keeping the order of the remaining items. */
  function Without(r: seq<Entry>, uid: int): seq<Entry>
  {
    if r == [] then []
    else if r[|r| - 1].uid == uid then Without(r[..|r| - 1], uid)
    else Without(r[..|r| - 1], uid) + [r[|r| - 1]]
  }

  // ---------------------------------------------------------------------
  // Well-formed trees
  // ---------------------------------------------------------------------

  /** Only a MultiTask subscribes itself, and only on tasks built before it. */
  predicate ListenerOk(ts: seq<Task>, i: nat, l: Listener) {
    l.Parent? ==> i < l.owner < |ts| && ts[l.owner].MultiTask?
  }

  predicate RegistryOk(ts: seq<Task>, i: nat, r: seq<Entry>) {
    && DistinctIds(r)
    && forall k :: 0 <= k < |r| ==> r[k].uid >= 1 && ListenerOk(ts, i, r[k].listener)
  }

  /** A counter never passes its length by a whole step (updates stop once it is reached). */
  predicate Bounded(t: Task) {
    t.CounterTask? ==> t.length > 0.0 && 0 <= t.progress && t.progress as real < t.length + 1.0
  }

  predicate TaskOk(ts: seq<Task>, i: nat)
    requires i < |ts|
  {
    && RegistryOk(ts, i, ts[i].listeners)
    && Bounded(ts[i])
    && (ts[i].MultiTask? ==> forall k :: 0 <= k < |ts[i].subTasks| ==> ts[i].subTasks[k] < i)
  }

  predicate WellFormed(ts: seq<Task>) {
    forall i :: 0 <= i < |ts| ==> TaskOk(ts, i)
  }

  /** The same task except for its progress state (`_is_done`, `_progress`). */
  predicate SameShape(a: Task, b: Task) {
    match a
    case SimpleTask(n, l, _) => b.SimpleTask? && b.name == n && b.listeners == l
    case CounterTask(n, l, _, len) => b.CounterTask? && b.name == n && b.listeners == l && b.length == len
    case MultiTask(_, _, _) => b == a
  }

  predicate Similar(ts: seq<Task>, us: seq<Task>) {
    |ts| == |us| && forall i :: 0 <= i < |ts| ==> SameShape(ts[i], us[i])
  }

  lemma SimilarTrans(a: seq<Task>, b: seq<Task>, c: seq<Task>)
    requires Similar(a, b) && Similar(b, c)
    ensures Similar(a, c)
  {
    forall i | 0 <= i < |a|
      ensures SameShape(a[i], c[i])
    {
      assert SameShape(a[i], b[i]) && SameShape(b[i], c[i]);
    }
  }

  /** Changing the progress state of one task keeps a tree well-formed. */
  lemma Restate(ts: seq<Task>, i: nat, t: Task)
    requires WellFormed(ts) && i < |ts|
    requires SameShape(ts[i], t) && Bounded(t)
    ensures WellFormed(ts[i := t]) && Similar(ts, ts[i := t])
  {
    var us := ts[i := t];
    forall j | 0 <= j < |us|
      ensures TaskOk(us, j)
    {
      assert TaskOk(ts, j);
      var r := us[j].listeners;
      assert r == ts[j].listeners;
      forall k | 0 <= k < |r|
        ensures ListenerOk(us, j, r[k].listener)
      {
        assert ListenerOk(ts, j, r[k].listener);
      }
    }
  }

  // ---------------------------------------------------------------------
  // The meaning of the operations
  // ---------------------------------------------------------------------

  /** `is_done()`. */
  function IsDone(ts: seq<Task>, i: nat): (r: bool)
    requires WellFormed(ts) && i < |ts|
    ensures !ts[i].MultiTask? ==> (r <==> CompletenessOf(ts, i) >= 1.0)
    decreases i
  {
    assert TaskOk(ts, i);
    match ts[i]
    case SimpleTask(_, _, done) => done
    case CounterTask(_, _, p, len) =>
      RatioVsOne(p as real, len);
      p as real >= len
    case MultiTask(_, _, subs) => forall k :: 0 <= k < |subs| ==> IsDone(ts, subs[k])
  }

  /** `completeness()`, as an exact ratio. */
  function CompletenessOf(ts: seq<Task>, i: nat): (r: real)
    requires WellFormed(ts) && i < |ts|
    ensures r >= 0.0
    decreases i, 1
  {
    assert TaskOk(ts, i);
    match ts[i]
    case SimpleTask(_, _, done) => if done then 1.0 else 0.0
    case CounterTask(_, _, p, len) =>
      DivNonNegative(p as real, len);
      p as real / len
    case MultiTask(_, _, subs) =>
      if |subs| == 0 then 1.0
      else
        DivNonNegative(ChildSum(ts, i, |subs|), |subs| as real);
        ChildSum(ts, i, |subs|) / |subs| as real
  }

  /** The accumulator `acc` of `MultiTask.completeness` after the first `k` sub-tasks. */
  function ChildSum(ts: seq<Task>, i: nat, k: nat): (r: real)
    requires WellFormed(ts) && i < |ts| && ts[i].MultiTask? && k <= |ts[i].subTasks|
    ensures r >= 0.0
    decreases i, 0, k
  {
    assert TaskOk(ts, i);
    if k == 0 then 0.0 else ChildSum(ts, i, k - 1) + CompletenessOf(ts, ts[i].subTasks[k - 1])
  }

  /**
   * The external listeners called when every listener of task `i` is
   * invoked in dictionary order: an external one records its tag, a parent's
   * `update` runs (a MultiTask's `_update` changes nothing) and calls the
   * parent's own listeners unless the parent is done.
   */
  function Notify(ts: seq<Task>, i: nat): seq<int>
    requires WellFormed(ts) && i < |ts|
    decreases |ts| - i, 1
  {
    NotifyPrefix(ts, i, |ts[i].listeners|)
  }

  /** The same for the first `k` listeners. */
  function NotifyPrefix(ts: seq<Task>, i: nat, k: nat): seq<int>
    requires WellFormed(ts) && i < |ts| && k <= |ts[i].listeners|
    decreases |ts| - i, 0, k
  {
    if k == 0 then []
    else
      var before := NotifyPrefix(ts, i, k - 1);
      assert TaskOk(ts, i) && ListenerOk(ts, i, ts[i].listeners[k - 1].listener);
      match ts[i].listeners[k - 1].listener
      case External(tag) => before + [tag]
      case Parent(owner) => before + (if IsDone(ts, owner) then [] else Notify(ts, owner))
  }

  /** `_update`: a flag becomes set, a counter moves one step, a MultiTask stays as it is. */
  function Advance(t: Task): (u: Task)
    ensures SameShape(t, u)
    ensures t.SimpleTask? ==> u.done
    ensures t.CounterTask? ==> u.progress == t.progress + 1
  {
    match t
    case SimpleTask(n, l, _) => SimpleTask(n, l, true)
    case CounterTask(n, l, p, len) => CounterTask(n, l, p + 1, len)
    case MultiTask(_, _, _) => t
  }

  /**
   * `_reset` of a leaf (a MultiTask's `_reset` works through its sub-tasks
   * instead): a flag is cleared, a counter goes back to 0.
   */
  function Cleared(t: Task): (u: Task)
    ensures SameShape(t, u)
    ensures t.SimpleTask? ==> !u.done
    ensures t.CounterTask? ==> u.progress == 0
  {
    match t
    case SimpleTask(n, l, _) => SimpleTask(n, l, false)
    case CounterTask(n, l, _, len) => CounterTask(n, l, 0, len)
    case MultiTask(_, _, _) => t
  }

  /** `update()`: a step and a round of notifications, unless the task is already done. */
  function UpdateRun(ts: seq<Task>, i: nat): (r: Run)
    requires WellFormed(ts) && i < |ts|
    ensures WellFormed(r.tasks) && Similar(ts, r.tasks)
  {
    if IsDone(ts, i) then Run(ts, [])
    else
      assert TaskOk(ts, i);
      var us := ts[i := Advance(ts[i])];
      Restate(ts, i, Advance(ts[i]));
      Run(us, Notify(us, i))
  }

  /** `reset()`: `_reset` (for a MultiTask, every sub-task's `reset()` in order), then a round of notifications. */
  function ResetRun(ts: seq<Task>, i: nat): (r: Run)
    requires WellFormed(ts) && i < |ts|
    ensures WellFormed(r.tasks) && Similar(ts, r.tasks)
    decreases i, 1
  {
    assert TaskOk(ts, i);
    match ts[i]
    case MultiTask(_, _, subs) =>
      var r := ResetChildren(ts, i, |subs|);
      Run(r.tasks, r.fired + Notify(r.tasks, i))
    case _ =>
      var us := ts[i := Cleared(ts[i])];
      Restate(ts, i, Cleared(ts[i]));
      Run(us, Notify(us, i))
  }

  /** The loop of `MultiTask._reset` after its first `k` sub-tasks. */
  function ResetChildren(ts: seq<Task>, i: nat, k: nat): (r: Run)
    requires WellFormed(ts) && i < |ts| && ts[i].MultiTask? && k <= |ts[i].subTasks|
    ensures WellFormed(r.tasks) && Similar(ts, r.tasks)
    decreases i, 0, k
  {
    if k == 0 then Run(ts, [])
    else
      var r := ResetChildren(ts, i, k - 1);
      assert TaskOk(ts, i) && SameShape(ts[i], r.tasks[i]);
      var c := ResetRun(r.tasks, ts[i].subTasks[k - 1]);
      SimilarTrans(ts, r.tasks, c.tasks);
      Run(c.tasks, r.fired + c.fired)
  }

  /** `add(listener)` on task `i`: the allocator's id, and the item appended to the dictionary. */
  function AddListener(ts: seq<Task>, i: nat, l: Listener): (r: (seq<Task>, int))
    requires i < |ts|
  {
    (ts[i := ts[i].(listeners := Registered(ts[i].listeners, l))], UniqueKey(Ids(ts[i].listeners)))
  }

  /** The dictionary after `add(l)`. */
  function Registered(r: seq<Entry>, l: Listener): seq<Entry> {
    r + [Entry(UniqueKey(Ids(r)), l)]
  }

  /** The listeners of a fresh MultiTask's sub-tasks after it subscribed on each of them in order. */
  function Subscribe(ts: seq<Task>, owner: nat, subs: seq<nat>): (us: seq<Task>)
    requires forall k :: 0 <= k < |subs| ==> subs[k] < |ts|
    ensures |us| == |ts|
    decreases |subs|
  {
    if subs == [] then ts
    else AddListener(Subscribe(ts, owner, subs[..|subs| - 1]), subs[|subs| - 1], Parent(owner)).0
  }

  // ---------------------------------------------------------------------
  // The tasks as mutable objects
  // ---------------------------------------------------------------------

  class TaskTree {
    var tasks: seq<Task>
    /** The tags of the external listeners called so far, in call order. */
    ghost var fired: seq<int>

    ghost predicate Valid()
      reads this
    {
      WellFormed(tasks)
    }

    constructor ()
      ensures Valid() && tasks == [] && fired == []
    {
      tasks := [];
      fired := [];
    }

    /** `SimpleTask(name)`. */
    method NewSimpleTask(name: string) returns (t: nat)
      requires Valid()
      modifies this
      ensures Valid() && fired == old(fired)
      ensures t == |old(tasks)| && tasks == old(tasks) + [SimpleTask(DisplayName(name), [], false)]
    {
      t := |tasks|;
      Extend(tasks, SimpleTask(DisplayName(name), [], false));
      tasks := tasks + [SimpleTask(DisplayName(name), [], false)];
    }

    /** `CounterTask(progress_length, name)`; a length that is not positive is not supported. */
    method NewCounterTask(progressLength: real, name: string) returns (t: nat)
      requires Valid() && progressLength > 0.0
      modifies this
      ensures Valid() && fired == old(fired)
      ensures t == |old(tasks)| && tasks == old(tasks) + [CounterTask(DisplayName(name), [], 0, progressLength)]
    {
      t := |tasks|;
      Extend(tasks, CounterTask(DisplayName(name), [], 0, progressLength));
      tasks := tasks + [CounterTask(DisplayName(name), [], 0, progressLength)];
    }

    /** `add(listener)`. */
    method Add(t: nat, l: Listener) returns (uid: int)
      requires Valid() && t < |tasks| && ListenerOk(tasks, t, l)
      modifies this
      ensures Valid() && fired == old(fired)
      ensures (tasks, uid) == AddListener(old(tasks), t, l)
      ensures uid >= 1 && uid !in Ids(old(tasks)[t].listeners)
    {
      var registry := tasks[t].listeners;
      IdsPositive(tasks, t);
      uid := UniqueIntegerKey(Ids(registry));
      Grown(tasks, t, Entry(uid, l));
      tasks := tasks[t := tasks[t].(listeners := registry + [Entry(uid, l)])];
    }

    /** `remove(uid)`: deletes that item, or fails with KeyError and changes nothing. */
    method Remove(t: nat, uid: int) returns (outcome: Outcome)
      requires Valid() && t < |tasks|
      modifies this
      ensures Valid() && fired == old(fired)
      ensures outcome == if uid in Ids(old(tasks)[t].listeners) then Removed else KeyError(uid)
      ensures tasks == if outcome.Removed?
        then old(tasks)[t := old(tasks)[t].(listeners := Without(old(tasks)[t].listeners, uid))]
        else old(tasks)
    {
      var registry := tasks[t].listeners;
      if uid !in Ids(registry) {
        return KeyError(uid);
      }
      assert TaskOk(tasks, t);
      WithoutKeeps(registry, uid);
      var shrunk := Without(registry, uid);
      assert RegistryOk(tasks, t, shrunk) by {
        forall k | 0 <= k < |shrunk|
          ensures shrunk[k].uid >= 1 && ListenerOk(tasks, t, shrunk[k].listener)
        {
          var k' :| 0 <= k' < |registry| && registry[k'] == shrunk[k];
        }
      }
      Relist(tasks, t, shrunk);
      tasks := tasks[t := tasks[t].(listeners := shrunk)];
      outcome := Removed;
    }

    /** `MultiTask(name, *tasks)`: subscribes its own `update` on every sub-task, in order. */
    method NewMultiTask(name: string, subs: seq<nat>) returns (t: nat)
      requires Valid() && forall k :: 0 <= k < |subs| ==> subs[k] < |tasks|
      modifies this
      ensures Valid() && fired == old(fired)
      ensures t == |old(tasks)|
      ensures tasks == Subscribe(old(tasks), t, subs) + [MultiTask(DisplayName(name), [], subs)]
    {
      t := |tasks|;
      Extend(tasks, MultiTask(DisplayName(name), [], []));
      tasks := tasks + [MultiTask(DisplayName(name), [], [])];
      for k := 0 to |subs|
        invariant Valid() && |tasks| == t + 1 && fired == old(fired)
        invariant tasks == Subscribe(old(tasks), t, subs[..k]) + [MultiTask(DisplayName(name), [], subs[..k])]
      {
        var uid := Add(subs[k], Parent(t));
        SubscribeNext(old(tasks), subs, k, DisplayName(name));
        AppendSubTask(tasks, t, subs[k]);
        tasks := tasks[t := tasks[t].(subTasks := tasks[t].subTasks + [subs[k]])];
      }
      assert subs[..|subs|] == subs;
    }

    /** `update()`. */
    method Update(t: nat)
      requires Valid() && t < |tasks|
      modifies this
      ensures Valid()
      ensures tasks == UpdateRun(old(tasks), t).tasks
      ensures fired == old(fired) + UpdateRun(old(tasks), t).fired
      decreases |tasks| - t, 1
    {
      if !IsDone(tasks, t) {
        assert TaskOk(tasks, t);
        Restate(tasks, t, Advance(tasks[t]));
        tasks := tasks[t := Advance(tasks[t])];
        NotifyListeners(t);
      }
    }

    /** The loop of `update` and `reset` that calls every listener in dictionary order. */
    method NotifyListeners(t: nat)
      requires Valid() && t < |tasks|
      modifies this
      ensures tasks == old(tasks)
      ensures fired == old(fired) + Notify(old(tasks), t)
      decreases |tasks| - t, 0, 1
    {
      var n := |tasks[t].listeners|;
      ghost var log := fired;
      for k := 0 to n
        invariant tasks == old(tasks)
        invariant fired == log + NotifyPrefix(tasks, t, k)
      {
        NotifyOne(t, k, log);
      }
    }

    /** One round of that loop: the `k`-th listener is called. */
    method NotifyOne(t: nat, k: nat, ghost log: seq<int>)
      requires Valid() && t < |tasks| && k < |tasks[t].listeners|
      requires fired == log + NotifyPrefix(tasks, t, k)
      modifies this
      ensures tasks == old(tasks)
      ensures fired == log + NotifyPrefix(tasks, t, k + 1)
      decreases |tasks| - t, 0, 0
    {
      NotifyNext(tasks, t, k);
      match tasks[t].listeners[k].listener
      case External(tag) =>
        fired := fired + [tag];
      case Parent(owner) =>
        UpdateComposite(tasks, owner);
        Update(owner);
    }

    /** `reset()`. */
    method Reset(t: nat)
      requires Valid() && t < |tasks|
      modifies this
      ensures Valid()
      ensures tasks == ResetRun(old(tasks), t).tasks
      ensures fired == old(fired) + ResetRun(old(tasks), t).fired
      decreases t, 1, 0
    {
      assert TaskOk(tasks, t);
      if tasks[t].MultiTask? {
        ResetSubTasks(t);
      } else {
        Restate(tasks, t, Cleared(tasks[t]));
        tasks := tasks[t := Cleared(tasks[t])];
      }
      NotifyListeners(t);
    }

    /** `MultiTask._reset`: `reset()` on every sub-task, in order. */
    method ResetSubTasks(t: nat)
      requires Valid() && t < |tasks| && tasks[t].MultiTask?
      modifies this
      ensures Valid()
      ensures tasks == ResetChildren(old(tasks), t, |old(tasks)[t].subTasks|).tasks
      ensures fired == old(fired) + ResetChildren(old(tasks), t, |old(tasks)[t].subTasks|).fired
      decreases t, 0, 1
    {
      var n := |tasks[t].subTasks|;
      ghost var ts := tasks;
      ghost var log := fired;
      for k := 0 to n
        invariant tasks == ResetChildren(ts, t, k).tasks
        invariant fired == log + ResetChildren(ts, t, k).fired
      {
        ResetChild(t, k, ts, log);
      }
    }

    /** One round of the loop in `MultiTask._reset`: `reset()` on the `k`-th sub-task. */
    method ResetChild(t: nat, k: nat, ghost ts: seq<Task>, ghost log: seq<int>)
      requires WellFormed(ts) && t < |ts| && ts[t].MultiTask? && k < |ts[t].subTasks|
      requires tasks == ResetChildren(ts, t, k).tasks
      requires fired == log + ResetChildren(ts, t, k).fired
      modifies this
      ensures tasks == ResetChildren(ts, t, k + 1).tasks
      ensures fired == log + ResetChildren(ts, t, k + 1).fired
      decreases t, 0, 0
    {
      ResetChildrenNext(ts, t, k);
      Reset(tasks[t].subTasks[k]);
    }

    /** `completeness()`. */
    method Completeness(t: nat) returns (c: real)
      requires Valid() && t < |tasks|
      ensures c == CompletenessOf(tasks, t)
      decreases t
    {
      assert TaskOk(tasks, t);
      match tasks[t]
      case SimpleTask(_, _, done) =>
        c := if done then 1.0 else 0.0;
      case CounterTask(_, _, p, len) =>
        c := p as real / len;
      case MultiTask(_, _, subs) =>
        if |subs| == 0 {
          return 1.0;
        }
        var acc := 0.0;
        for k := 0 to |subs|
          invariant acc == ChildSum(tasks, t, k)
        {
          var x := Completeness(subs[k]);
          acc := acc + x;
        }
        c := acc / |subs| as real;
    }
  }

  // ---------------------------------------------------------------------
  // Facts the methods rely on
  // ---------------------------------------------------------------------

  lemma RatioSelf(x: real)
    requires x > 0.0
    ensures x / x == 1.0
  {
  }

  lemma DivMono(a: real, b: real, l: real)
    requires l > 0.0 && a >= b
    ensures a / l >= b / l
  {
  }

  lemma DivStrict(a: real, b: real, l: real)
    requires l > 0.0 && a < b
    ensures a / l < b / l
  {
  }

  /** A ratio over a positive denominator reaches 1 exactly when its numerator reaches the denominator. */
  lemma RatioVsOne(p: real, l: real)
    requires l > 0.0
    ensures p / l >= 1.0 <==> p >= l
  {
    RatioSelf(l);
    if p >= l {
      DivMono(p, l, l);
    } else {
      DivStrict(p, l, l);
    }
  }

  lemma DivNonNegative(a: real, l: real)
    requires l > 0.0 && a >= 0.0
    ensures a / l >= 0.0
  {
    DivMono(a, 0.0, l);
  }

  lemma ResetChildrenNext(ts: seq<Task>, i: nat, k: nat)
    requires WellFormed(ts) && i < |ts| && ts[i].MultiTask? && k < |ts[i].subTasks|
    ensures ts[i].subTasks[k] < i && |ResetChildren(ts, i, k).tasks| == |ts|
    ensures ResetChildren(ts, i, k).tasks[i].subTasks == ts[i].subTasks
    ensures
      var r := ResetChildren(ts, i, k);
      var c := ResetRun(r.tasks, ts[i].subTasks[k]);
      ResetChildren(ts, i, k + 1) == Run(c.tasks, r.fired + c.fired)
  {
    assert TaskOk(ts, i);
  }

  /** One more listener of the round: an external one records its tag, a parent runs its `update`. */
  lemma NotifyNext(ts: seq<Task>, i: nat, k: nat)
    requires WellFormed(ts) && i < |ts| && k < |ts[i].listeners|
    ensures ListenerOk(ts, i, ts[i].listeners[k].listener)
    ensures
      match ts[i].listeners[k].listener
      case External(tag) => NotifyPrefix(ts, i, k + 1) == NotifyPrefix(ts, i, k) + [tag]
      case Parent(owner) =>
        && owner < |ts|
        && NotifyPrefix(ts, i, k + 1) == NotifyPrefix(ts, i, k) + (if IsDone(ts, owner) then [] else Notify(ts, owner))
  {
    assert TaskOk(ts, i);
  }

  /** The `update` a MultiTask subscribes changes no task and calls its listeners unless it is done. */
  lemma UpdateComposite(ts: seq<Task>, i: nat)
    requires WellFormed(ts) && i < |ts| && ts[i].MultiTask?
    ensures UpdateRun(ts, i) == Run(ts, if IsDone(ts, i) then [] else Notify(ts, i))
  {
    assert ts[i := Advance(ts[i])] == ts;
  }

  /** Every id in a well-formed tree's dictionaries is positive. */
  lemma IdsPositive(ts: seq<Task>, i: nat)
    requires WellFormed(ts) && i < |ts|
    ensures forall k :: k in Ids(ts[i].listeners) ==> k >= 1
  {
    assert TaskOk(ts, i);
  }

  /** Appending an item under a fresh positive id keeps a tree well-formed. */
  lemma Grown(ts: seq<Task>, i: nat, e: Entry)
    requires WellFormed(ts) && i < |ts| && ListenerOk(ts, i, e.listener)
    requires e.uid >= 1 && e.uid !in Ids(ts[i].listeners)
    ensures WellFormed(ts[i := ts[i].(listeners := ts[i].listeners + [e])])
  {
    var registry := ts[i].listeners;
    assert TaskOk(ts, i);
    assert forall k :: 0 <= k < |registry| ==> registry[k].uid in Ids(registry);
    assert RegistryOk(ts, i, registry + [e]);
    Relist(ts, i, registry + [e]);
  }

  /** Removing an item keeps the remaining ones, with their ids still distinct. */
  lemma {:induction false} WithoutKeeps(r: seq<Entry>, uid: int)
    requires DistinctIds(r)
    ensures DistinctIds(Without(r, uid))
    ensures forall k :: 0 <= k < |Without(r, uid)| ==> Without(r, uid)[k] in r && Without(r, uid)[k].uid != uid
    ensures Ids(Without(r, uid)) == Ids(r) - {uid}
    decreases |r|
  {
    if r != [] {
      var front, last := r[..|r| - 1], r[|r| - 1];
      WithoutKeeps(front, uid);
      var w := Without(front, uid);
      assert forall k :: 0 <= k < |w| ==> w[k] in front;
      IdsSnoc(front, last);
      if last.uid != uid {
        forall k | 0 <= k < |w|
          ensures w[k].uid != last.uid
        {
          var j :| 0 <= j < |front| && front[j] == w[k];
          assert r[j] == w[k];
        }
        IdsSnoc(w, last);
      }
    }
  }

  lemma IdsSnoc(r: seq<Entry>, e: Entry)
    ensures Ids(r + [e]) == Ids(r) + {e.uid}
  {
    var s := r + [e];
    forall x
      ensures x in Ids(s) <==> x in Ids(r) + {e.uid}
    {
      if x in Ids(r) {
        var k :| 0 <= k < |r| && r[k].uid == x;
        assert s[k].uid == x;
      }
      if x == e.uid {
        assert s[|r|].uid == x;
      }
    }
  }

  /** One round of the loop of `MultiTask.__init__`: subscribe on the next sub-task, then record it. */
  lemma SubscribeNext(ts: seq<Task>, subs: seq<nat>, k: nat, name: string)
    requires k < |subs| && forall j :: 0 <= j < |subs| ==> subs[j] < |ts|
    ensures
      var added := AddListener(Subscribe(ts, |ts|, subs[..k]) + [MultiTask(name, [], subs[..k])], subs[k], Parent(|ts|)).0;
      added[|ts| := added[|ts|].(subTasks := added[|ts|].subTasks + [subs[k]])]
        == Subscribe(ts, |ts|, subs[..k + 1]) + [MultiTask(name, [], subs[..k + 1])]
  {
    AddAndRecord(Subscribe(ts, |ts|, subs[..k]), MultiTask(name, [], subs[..k]), subs[k], Parent(|ts|), subs[k]);
    SubscribeLast(ts, subs, k);
    TakeNext(subs, k);
  }

  lemma AddAndRecord(S: seq<Task>, me: Task, j: nat, l: Listener, c: nat)
    requires j < |S| && me.MultiTask?
    ensures
      var added := AddListener(S + [me], j, l).0;
      added[|S| := added[|S|].(subTasks := added[|S|].subTasks + [c])]
        == AddListener(S, j, l).0 + [me.(subTasks := me.subTasks + [c])]
  {
    AddListenerAppend(S, me, j, l);
    ReplacedLast(AddListener(S, j, l).0, me, me.(subTasks := me.subTasks + [c]));
  }

  lemma TakeNext(s: seq<nat>, k: nat)
    requires k < |s|
    ensures s[..k + 1] == s[..k] + [s[k]]
  {
  }

  lemma ReplacedLast(S: seq<Task>, a: Task, b: Task)
    ensures (S + [a])[|S| := b] == S + [b]
  {
  }

  lemma SubscribeLast(ts: seq<Task>, subs: seq<nat>, k: nat)
    requires k < |subs| && forall j :: 0 <= j < |subs| ==> subs[j] < |ts|
    ensures Subscribe(ts, |ts|, subs[..k + 1]) == AddListener(Subscribe(ts, |ts|, subs[..k]), subs[k], Parent(|ts|)).0
  {
    var s := subs[..k + 1];
    assert s[..|s| - 1] == subs[..k] && s[|s| - 1] == subs[k];
    SubscribeUnfold(ts, |ts|, s);
  }

  lemma SubscribeUnfold(ts: seq<Task>, owner: nat, subs: seq<nat>)
    requires subs != [] && forall j :: 0 <= j < |subs| ==> subs[j] < |ts|
    ensures Subscribe(ts, owner, subs) == AddListener(Subscribe(ts, owner, subs[..|subs| - 1]), subs[|subs| - 1], Parent(owner)).0
  {
  }

  lemma AddListenerAppend(S: seq<Task>, me: Task, j: nat, l: Listener)
    requires j < |S|
    ensures AddListener(S + [me], j, l).0 == AddListener(S, j, l).0 + [me]
    ensures |AddListener(S, j, l).0| == |S|
  {
    assert (S + [me])[j] == S[j];
  }

  /** A new task without listeners, whose sub-tasks already exist, keeps a tree well-formed. */
  lemma Extend(ts: seq<Task>, t: Task)
    requires WellFormed(ts) && t.listeners == [] && Bounded(t)
    requires t.MultiTask? ==> forall k :: 0 <= k < |t.subTasks| ==> t.subTasks[k] < |ts|
    ensures WellFormed(ts + [t])
  {
    var us := ts + [t];
    forall j | 0 <= j < |us|
      ensures TaskOk(us, j)
    {
      if j < |ts| {
        assert TaskOk(ts, j);
        var q := us[j].listeners;
        forall k | 0 <= k < |q|
          ensures ListenerOk(us, j, q[k].listener)
        {
          assert ListenerOk(ts, j, q[k].listener);
        }
      }
    }
  }

  /** Replacing the listener dictionary of one task by a well-formed one keeps a tree well-formed. */
  lemma Relist(ts: seq<Task>, i: nat, r: seq<Entry>)
    requires WellFormed(ts) && i < |ts| && RegistryOk(ts, i, r)
    ensures WellFormed(ts[i := ts[i].(listeners := r)])
  {
    var us := ts[i := ts[i].(listeners := r)];
    forall j | 0 <= j < |us|
      ensures TaskOk(us, j)
    {
      assert TaskOk(ts, j);
      var q := us[j].listeners;
      assert RegistryOk(ts, j, q);
      forall k | 0 <= k < |q|
        ensures ListenerOk(us, j, q[k].listener)
      {
        assert ListenerOk(ts, j, q[k].listener);
      }
    }
  }

  /** Adding a sub-task built before it keeps a tree well-formed. */
  lemma AppendSubTask(ts: seq<Task>, t: nat, c: nat)
    requires WellFormed(ts) && t < |ts| && ts[t].MultiTask? && c < t
    ensures WellFormed(ts[t := ts[t].(subTasks := ts[t].subTasks + [c])])
  {
    var us := ts[t := ts[t].(subTasks := ts[t].subTasks + [c])];
    forall j | 0 <= j < |us|
      ensures TaskOk(us, j)
    {
      assert TaskOk(ts, j);
      var r := us[j].listeners;
      assert r == ts[j].listeners;
      forall k | 0 <= k < |r|
        ensures ListenerOk(us, j, r[k].listener)
      {
        assert ListenerOk(ts, j, r[k].listener);
      }
    }
  }
}
