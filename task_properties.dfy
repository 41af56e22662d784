/**
 * What the task tree of src/tasks.py promises, proved about the functions
 * that the methods of `Tasks.TaskTree` are verified against.
 */
module TaskProperties {
  import opened Utils
  import opened Tasks

  // ---------------------------------------------------------------------
  // The listener dictionary
  // ---------------------------------------------------------------------

  /** The keys of the dictionary view are exactly the ids stored. */
  lemma {:induction false} AsMapKeys(r: seq<Entry>)
    ensures AsMap(r).Keys == Ids(r)
    decreases |r|
  {
    if r != [] {
      var front, last := r[..|r| - 1], r[|r| - 1];
      AsMapKeys(front);
      assert r == front + [last];
      IdsSnoc(front, last);
    }
  }

  /** With distinct ids, the dictionary view maps every stored id to its own listener. */
  lemma {:induction false} AsMapAt(r: seq<Entry>, k: nat)
    requires DistinctIds(r) && k < |r|
    ensures r[k].uid in AsMap(r) && AsMap(r)[r[k].uid] == r[k].listener
    decreases |r|
  {
    var front, last := r[..|r| - 1], r[|r| - 1];
    if k < |r| - 1 {
      assert front[k] == r[k];
      AsMapAt(front, k);
      assert r[k].uid != last.uid;
    }
  }

  /**
   * `add`: the new id was not a key, and is positive when the keys are
   * (so ids handed out from an empty dictionary stay distinct and positive).
   */
  lemma AddFresh(ts: seq<Task>, i: nat, l: Listener)
    requires i < |ts|
    ensures var uid := AddListener(ts, i, l).1;
      && uid !in Ids(ts[i].listeners)
      && ((forall k :: 0 <= k < |ts[i].listeners| ==> ts[i].listeners[k].uid >= 1) ==> uid >= 1)
  {
    var r := ts[i].listeners;
    UniqueKeyFresh(Ids(r));
    assert forall k :: 0 <= k < |r| ==> r[k].uid in Ids(r);
    if forall k :: 0 <= k < |r| ==> r[k].uid >= 1 {
      UniqueKeyPositive(Ids(r));
    }
  }

  /** Adding keeps the ids of a dictionary distinct. */
  lemma RegisteredDistinct(r: seq<Entry>, l: Listener)
    requires DistinctIds(r)
    ensures DistinctIds(Registered(r, l))
  {
    UniqueKeyFresh(Ids(r));
    assert forall k :: 0 <= k < |r| ==> r[k].uid in Ids(r);
  }

  /** `add` stores the listener under the new id and leaves every other entry and every other task as it was. */
  lemma AddStores(ts: seq<Task>, i: nat, l: Listener)
    requires i < |ts|
    ensures var (us, uid) := AddListener(ts, i, l);
      && AsMap(us[i].listeners) == AsMap(ts[i].listeners)[uid := l]
      && Ids(us[i].listeners) == Ids(ts[i].listeners) + {uid}
      && us[i] == ts[i].(listeners := us[i].listeners)
      && |us| == |ts| && forall j :: 0 <= j < |ts| && j != i ==> us[j] == ts[j]
  {
    var r := ts[i].listeners;
    var e := Entry(AddListener(ts, i, l).1, l);
    IdsSnoc(r, e);
    assert (r + [e])[..|r|] == r;
  }

  /** `remove` never leaves the removed id behind, and keeps every other entry. */
  lemma {:induction false} WithoutMap(r: seq<Entry>, uid: int)
    ensures AsMap(Without(r, uid)) == AsMap(r) - {uid}
    decreases |r|
  {
    if r != [] {
      var front, last := r[..|r| - 1], r[|r| - 1];
      WithoutMap(front, uid);
      if last.uid != uid {
        var w := Without(front, uid);
        assert (w + [last])[..|w|] == w;
        assert AsMap(Without(r, uid)) == AsMap(w)[last.uid := last.listener];
        UpdateMinus(AsMap(front), last.uid, last.listener, uid);
      } else {
        UpdateMinus(AsMap(front), last.uid, last.listener, uid);
      }
    }
  }

  /** Removing a key after storing a value under some key. */
  lemma UpdateMinus(m: map<int, Listener>, k: int, v: Listener, uid: int)
    ensures k != uid ==> m[k := v] - {uid} == (m - {uid})[k := v]
    ensures k == uid ==> m[k := v] - {uid} == m - {uid}
  {
  }

  /** With distinct ids, removing a present id drops exactly one item; an absent one drops none. */
  lemma {:induction false} WithoutLength(r: seq<Entry>, uid: int)
    requires DistinctIds(r)
    ensures uid in Ids(r) ==> |Without(r, uid)| == |r| - 1
    ensures uid !in Ids(r) ==> Without(r, uid) == r
    decreases |r|
  {
    if r != [] {
      var front, last := r[..|r| - 1], r[|r| - 1];
      assert r == front + [last];
      WithoutLength(front, uid);
      IdsSnoc(front, last);
      LastFresh(r);
    }
  }

  lemma LastFresh(r: seq<Entry>)
    requires DistinctIds(r) && r != []
    ensures r[|r| - 1].uid !in Ids(r[..|r| - 1])
  {
    var front := r[..|r| - 1];
    forall k | 0 <= k < |front|
      ensures front[k].uid != r[|r| - 1].uid
    {
      assert front[k] == r[k];
    }
  }

  /**
   * Ids are handed out 1, 2, 3; after `remove(2)` the next `add` reuses 2,
   * and the dictionary keeps insertion order.
   */
  lemma ListenerIdReuse(a: Listener, b: Listener, c: Listener, d: Listener)
    ensures Registered(Registered(Registered([], a), b), c) == [Entry(1, a), Entry(2, b), Entry(3, c)]
    ensures Registered(Without([Entry(1, a), Entry(2, b), Entry(3, c)], 2), d) == [Entry(1, a), Entry(3, c), Entry(2, d)]
  {
    RegisterFirst(a);
    RegisterSecond(Entry(1, a), b);
    RegisterThird(Entry(1, a), Entry(2, b), c);
    WithoutMiddle(Entry(1, a), Entry(2, b), Entry(3, c));
    RegisterReused(Entry(1, a), Entry(3, c), d);
  }

  lemma RegisterFirst(a: Listener)
    ensures Registered([], a) == [Entry(1, a)]
  {
    var none: seq<Entry> := [];
    assert Ids(none) == {};
    UniqueKeyEmpty();
  }

  lemma RegisterSecond(e: Entry, b: Listener)
    requires e.uid == 1
    ensures Registered([e], b) == [e, Entry(2, b)]
  {
    IdsOf1(e);
    UniqueKeyDense({1}, 1);
  }

  lemma RegisterThird(e: Entry, f: Entry, c: Listener)
    requires e.uid == 1 && f.uid == 2
    ensures Registered([e, f], c) == [e, f, Entry(3, c)]
  {
    IdsOf2(e, f);
    UniqueKeyDense({1, 2}, 2);
  }

  lemma RegisterReused(e: Entry, g: Entry, d: Listener)
    requires e.uid == 1 && g.uid == 3
    ensures Registered([e, g], d) == [e, g, Entry(2, d)]
  {
    IdsOf2(e, g);
    UniqueKeyExamples();
  }

  lemma WithoutMiddle(e: Entry, f: Entry, g: Entry)
    requires e.uid != f.uid && g.uid != f.uid
    ensures Without([e, f, g], f.uid) == [e, g]
  {
    assert [e, f, g][..2] == [e, f];
    assert [e, f][..1] == [e];
    assert [e][..0] == [];
    assert Without([e], f.uid) == [e];
  }

  lemma IdsOf1(e: Entry)
    ensures Ids([e]) == {e.uid}
  {
    IdsSnoc([], e);
    assert [] + [e] == [e];
  }

  lemma IdsOf2(e: Entry, f: Entry)
    ensures Ids([e, f]) == {e.uid, f.uid}
  {
    IdsOf1(e);
    IdsSnoc([e], f);
    assert [e] + [f] == [e, f];
  }

  // ---------------------------------------------------------------------
  // Notification
  // ---------------------------------------------------------------------

  /** The tags of the external listeners of a dictionary, in its order. */
  function Tags(r: seq<Entry>): seq<int> {
    if r == [] then []
    else Tags(r[..|r| - 1]) + (match r[|r| - 1].listener case External(tag) => [tag] case Parent(_) => [])
  }

  predicate AllExternal(r: seq<Entry>) {
    forall k :: 0 <= k < |r| ==> r[k].listener.External?
  }

  /** A task whose listeners are all external calls each of them once, in dictionary order. */
  lemma NotifyExternal(ts: seq<Task>, i: nat)
    requires WellFormed(ts) && i < |ts| && AllExternal(ts[i].listeners)
    ensures Notify(ts, i) == Tags(ts[i].listeners)
    ensures |Notify(ts, i)| == |ts[i].listeners|
  {
    NotifyExternalPrefix(ts, i, |ts[i].listeners|);
    assert ts[i].listeners[..|ts[i].listeners|] == ts[i].listeners;
  }

  lemma {:induction false} NotifyExternalPrefix(ts: seq<Task>, i: nat, k: nat)
    requires WellFormed(ts) && i < |ts| && AllExternal(ts[i].listeners) && k <= |ts[i].listeners|
    ensures NotifyPrefix(ts, i, k) == Tags(ts[i].listeners[..k])
    ensures |NotifyPrefix(ts, i, k)| == k
  {
    if k > 0 {
      NotifyExternalPrefix(ts, i, k - 1);
      var r := ts[i].listeners;
      assert r[..k][..k - 1] == r[..k - 1];
      assert r[..k][k - 1] == r[k - 1];
    }
  }

  /** `update` on a done task changes nothing and calls no listener. */
  lemma UpdateDone(ts: seq<Task>, i: nat)
    requires WellFormed(ts) && i < |ts| && IsDone(ts, i)
    ensures UpdateRun(ts, i) == Run(ts, [])
  {
  }

  /**
   * `update` on a task that is not done takes one step on that task only,
   * then calls its listeners; with external listeners only, each fires once.
   */
  lemma UpdatePending(ts: seq<Task>, i: nat)
    requires WellFormed(ts) && i < |ts| && !IsDone(ts, i)
    ensures var r := UpdateRun(ts, i);
      && r.tasks[i] == Advance(ts[i])
      && (forall j :: 0 <= j < |ts| && j != i ==> r.tasks[j] == ts[j])
      && (AllExternal(ts[i].listeners) ==> r.fired == Tags(ts[i].listeners))
  {
    var r := UpdateRun(ts, i);
    if AllExternal(ts[i].listeners) {
      NotifyExternal(r.tasks, i);
    }
  }

  /** `reset` of a leaf clears it and calls its listeners even when it was done. */
  lemma ResetLeaf(ts: seq<Task>, i: nat)
    requires WellFormed(ts) && i < |ts| && !ts[i].MultiTask?
    ensures var r := ResetRun(ts, i);
      && r.tasks == ts[i := Cleared(ts[i])]
      && !IsDone(r.tasks, i) && CompletenessOf(r.tasks, i) == 0.0
      && (AllExternal(ts[i].listeners) ==> r.fired == Tags(ts[i].listeners))
  {
    var r := ResetRun(ts, i);
    assert TaskOk(ts, i);
    if AllExternal(ts[i].listeners) {
      NotifyExternal(r.tasks, i);
    }
  }

  // ---------------------------------------------------------------------
  // SimpleTask
  // ---------------------------------------------------------------------

  /** A fresh flag is not done; one update sets it for good; reset clears it again. */
  lemma SimpleLifecycle(ts: seq<Task>, i: nat)
    requires WellFormed(ts) && i < |ts| && ts[i].SimpleTask? && !ts[i].done
    ensures !IsDone(ts, i) && CompletenessOf(ts, i) == 0.0
    ensures var u := UpdateRun(ts, i).tasks;
      && IsDone(u, i) && CompletenessOf(u, i) == 1.0
      && UpdateRun(u, i) == Run(u, [])
      && !IsDone(ResetRun(u, i).tasks, i)
  {
    var u := UpdateRun(ts, i).tasks;
    UpdateDone(u, i);
    ResetLeaf(u, i);
  }

  // ---------------------------------------------------------------------
  // CounterTask
  // ---------------------------------------------------------------------

  /** `n` consecutive calls of `update` on task `i`. */
  function Updates(ts: seq<Task>, i: nat, n: nat): (r: Run)
    requires WellFormed(ts) && i < |ts|
    ensures WellFormed(r.tasks) && Similar(ts, r.tasks)
  {
    if n == 0 then Run(ts, [])
    else
      var r := Updates(ts, i, n - 1);
      var s := UpdateRun(r.tasks, i);
      SimilarTrans(ts, r.tasks, s.tasks);
      Run(s.tasks, r.fired + s.fired)
  }

  /** The least integer not below `x`. */
  function Ceil(x: real): (c: int)
    ensures c as real >= x && (c - 1) as real < x
  {
    if x.Floor as real == x then x.Floor else x.Floor + 1
  }

  function Min(a: int, b: int): int {
    if a <= b then a else b
  }

  /** An effective update of a counter raises its progress by exactly one. */
  lemma CounterStep(ts: seq<Task>, i: nat)
    requires WellFormed(ts) && i < |ts| && ts[i].CounterTask?
    ensures var c := UpdateRun(ts, i).tasks[i];
      && c.CounterTask? && c.length == ts[i].length
      && c.progress == if ts[i].progress as real >= ts[i].length then ts[i].progress else ts[i].progress + 1
  {
  }

  /**
   * From progress `p` below the length, `n` updates leave the counter at
   * `min(p + n, ceil(length))`: updates stop at the first progress reaching
   * the length, which overshoots it when the length is not whole.
   */
  lemma {:induction false} CounterUpdates(ts: seq<Task>, i: nat, n: nat)
    requires WellFormed(ts) && i < |ts| && ts[i].CounterTask? && (ts[i].progress as real) < ts[i].length
    ensures var c := Updates(ts, i, n).tasks[i];
      c.CounterTask? && c.length == ts[i].length && c.progress == Min(ts[i].progress + n, Ceil(ts[i].length))
  {
    if n > 0 {
      CounterUpdates(ts, i, n - 1);
      var r := Updates(ts, i, n - 1);
      CounterStep(r.tasks, i);
    }
  }

  /** With a whole length `n`, exactly `n` updates from fresh complete the counter, and further ones change nothing. */
  lemma CounterExact(ts: seq<Task>, i: nat, n: nat, extra: nat)
    requires WellFormed(ts) && i < |ts| && n >= 1
    requires ts[i].CounterTask? && ts[i].progress == 0 && ts[i].length == n as real
    ensures !IsDone(Updates(ts, i, n - 1).tasks, i)
    ensures var u := Updates(ts, i, n).tasks;
      IsDone(u, i) && CompletenessOf(u, i) == 1.0
    ensures Updates(ts, i, n + extra).tasks[i].progress == n
  {
    CeilWhole(n);
    CounterUpdates(ts, i, n - 1);
    CounterUpdates(ts, i, n);
    CounterUpdates(ts, i, n + extra);
    RatioSelf(n as real);
  }

  lemma CeilWhole(n: int)
    ensures Ceil(n as real) == n
  {
    assert (n as real).Floor == n;
  }

  /** A counter of length 2.5 stops at progress 3, with completeness 1.2. */
  lemma CounterOvershoot(ts: seq<Task>, i: nat)
    requires WellFormed(ts) && i < |ts|
    requires ts[i].CounterTask? && ts[i].progress == 0 && ts[i].length == 2.5
    ensures !IsDone(Updates(ts, i, 2).tasks, i)
    ensures var u := Updates(ts, i, 3).tasks;
      IsDone(u, i) && u[i].progress == 3 && CompletenessOf(u, i) == 1.2
    ensures Updates(ts, i, 4).tasks[i].progress == 3
  {
    CounterUpdates(ts, i, 2);
    CounterUpdates(ts, i, 3);
    CounterUpdates(ts, i, 4);
  }

  // ---------------------------------------------------------------------
  // MultiTask
  // ---------------------------------------------------------------------

  /** The tasks reachable from `i` through sub-tasks, `i` included. */
  function Reach(ts: seq<Task>, i: nat): set<nat>
    requires WellFormed(ts) && i < |ts|
    decreases i, 1
  {
    assert TaskOk(ts, i);
    if ts[i].MultiTask? then {i} + ReachPrefix(ts, i, |ts[i].subTasks|) else {i}
  }

  function ReachPrefix(ts: seq<Task>, i: nat, k: nat): set<nat>
    requires WellFormed(ts) && i < |ts| && ts[i].MultiTask? && k <= |ts[i].subTasks|
    decreases i, 0, k
  {
    assert TaskOk(ts, i);
    if k == 0 then {} else ReachPrefix(ts, i, k - 1) + Reach(ts, ts[i].subTasks[k - 1])
  }

  /** The leaves (SimpleTask and CounterTask) below `i`. */
  function Leaves(ts: seq<Task>, i: nat): set<nat>
    requires WellFormed(ts) && i < |ts|
  {
    set j | j in Reach(ts, i) && j < |ts| && !ts[j].MultiTask?
  }

  lemma {:induction false} ReachBelow(ts: seq<Task>, i: nat)
    requires WellFormed(ts) && i < |ts|
    ensures forall j :: j in Reach(ts, i) ==> j <= i
    decreases i, 1
  {
    assert TaskOk(ts, i);
    if ts[i].MultiTask? {
      ReachPrefixBelow(ts, i, |ts[i].subTasks|);
    }
  }

  lemma {:induction false} ReachPrefixBelow(ts: seq<Task>, i: nat, k: nat)
    requires WellFormed(ts) && i < |ts| && ts[i].MultiTask? && k <= |ts[i].subTasks|
    ensures forall j :: j in ReachPrefix(ts, i, k) ==> j < i
    decreases i, 0, k
  {
    assert TaskOk(ts, i);
    if k > 0 {
      ReachPrefixBelow(ts, i, k - 1);
      ReachBelow(ts, ts[i].subTasks[k - 1]);
    }
  }

  /** A composite is done iff every leaf below it is done (vacuously so when there is none). */
  lemma {:induction false} DoneIffLeavesDone(ts: seq<Task>, i: nat)
    requires WellFormed(ts) && i < |ts|
    ensures IsDone(ts, i) <==> forall j :: j in Reach(ts, i) && j < |ts| && !ts[j].MultiTask? ==> IsDone(ts, j)
    decreases i, 1
  {
    assert TaskOk(ts, i);
    ReachBelow(ts, i);
    if ts[i].MultiTask? {
      DonePrefix(ts, i, |ts[i].subTasks|);
    }
  }

  lemma {:induction false} DonePrefix(ts: seq<Task>, i: nat, k: nat)
    requires WellFormed(ts) && i < |ts| && ts[i].MultiTask? && k <= |ts[i].subTasks|
    ensures TaskOk(ts, i)
    ensures (forall m :: 0 <= m < k ==> IsDone(ts, ts[i].subTasks[m]))
        <==> forall j :: j in ReachPrefix(ts, i, k) && j < |ts| && !ts[j].MultiTask? ==> IsDone(ts, j)
    decreases i, 0, k
  {
    if k > 0 {
      DonePrefix(ts, i, k - 1);
      DoneIffLeavesDone(ts, ts[i].subTasks[k - 1]);
    }
  }

  /** The arithmetic mean, with 1.0 for no values (`completeness` of an empty composite). */
  function Sum(xs: seq<real>): real {
    if xs == [] then 0.0 else xs[0] + Sum(xs[1..])
  }

  function Completenesses(ts: seq<Task>, subs: seq<nat>): seq<real>
    requires WellFormed(ts) && forall k :: 0 <= k < |subs| ==> subs[k] < |ts|
  {
    seq(|subs|, k requires 0 <= k < |subs| => CompletenessOf(ts, subs[k]))
  }

  lemma {:induction false} SumSnoc(xs: seq<real>, x: real)
    ensures Sum(xs + [x]) == Sum(xs) + x
    decreases |xs|
  {
    if xs != [] {
      assert (xs + [x])[1..] == xs[1..] + [x];
      SumSnoc(xs[1..], x);
    }
  }

  lemma {:induction false} ChildSumIsSum(ts: seq<Task>, i: nat, k: nat)
    requires WellFormed(ts) && i < |ts| && ts[i].MultiTask? && k <= |ts[i].subTasks|
    ensures TaskOk(ts, i)
    ensures ChildSum(ts, i, k) == Sum(Completenesses(ts, ts[i].subTasks[..k]))
  {
    assert TaskOk(ts, i);
    var subs := ts[i].subTasks;
    if k > 0 {
      ChildSumIsSum(ts, i, k - 1);
      var xs := Completenesses(ts, subs[..k - 1]);
      assert Completenesses(ts, subs[..k]) == xs + [CompletenessOf(ts, subs[k - 1])];
      SumSnoc(xs, CompletenessOf(ts, subs[k - 1]));
    }
  }

  /** `completeness` of a composite is the mean of its sub-tasks' completeness, and 1.0 with none. */
  lemma CompletenessIsMean(ts: seq<Task>, i: nat)
    requires WellFormed(ts) && i < |ts| && ts[i].MultiTask?
    ensures TaskOk(ts, i)
    ensures var xs := Completenesses(ts, ts[i].subTasks);
      CompletenessOf(ts, i) == if xs == [] then 1.0 else Sum(xs) / |xs| as real
  {
    ChildSumIsSum(ts, i, |ts[i].subTasks|);
    assert ts[i].subTasks[..|ts[i].subTasks|] == ts[i].subTasks;
  }

  /** Completeness is never negative; a done task's is at least 1 (above 1 for an overshooting counter). */
  lemma {:induction false} CompletenessBounds(ts: seq<Task>, i: nat)
    requires WellFormed(ts) && i < |ts|
    ensures CompletenessOf(ts, i) >= 0.0
    ensures IsDone(ts, i) ==> CompletenessOf(ts, i) >= 1.0
    decreases i, 1
  {
    assert TaskOk(ts, i);
    if ts[i].MultiTask? {
      var n := |ts[i].subTasks|;
      ChildSumBounds(ts, i, n);
      if n > 0 && IsDone(ts, i) {
        RatioVsOne(ChildSum(ts, i, n), n as real);
      }
    } else if ts[i].CounterTask? && IsDone(ts, i) {
      RatioVsOne(ts[i].progress as real, ts[i].length);
    }
  }

  lemma {:induction false} ChildSumBounds(ts: seq<Task>, i: nat, k: nat)
    requires WellFormed(ts) && i < |ts| && ts[i].MultiTask? && k <= |ts[i].subTasks|
    ensures ChildSum(ts, i, k) >= 0.0
    ensures IsDone(ts, i) ==> ChildSum(ts, i, k) >= k as real
    decreases i, 0, k
  {
    assert TaskOk(ts, i);
    if k > 0 {
      ChildSumBounds(ts, i, k - 1);
      CompletenessBounds(ts, ts[i].subTasks[k - 1]);
    }
  }

  // ---------------------------------------------------------------------
  // Building a MultiTask
  // ---------------------------------------------------------------------

  /** The dictionary after `n` calls of `add(l)`. */
  function AddedTimes(r: seq<Entry>, l: Listener, n: nat): seq<Entry>
    decreases n
  {
    if n == 0 then r else Registered(AddedTimes(r, l, n - 1), l)
  }

  /** Distinct ids, all positive: what the allocator keeps when it starts from an empty dictionary. */
  predicate PositiveIds(r: seq<Entry>) {
    DistinctIds(r) && forall k :: 0 <= k < |r| ==> r[k].uid >= 1
  }

  /** `n` calls of `add(l)` keep the old items in front and append `n` items holding `l`. */
  lemma {:induction false} AddedTimesShape(r: seq<Entry>, l: Listener, n: nat)
    ensures var a := AddedTimes(r, l, n);
      && |a| == |r| + n && a[..|r|] == r
      && forall k :: |r| <= k < |a| ==> a[k].listener == l
    decreases n
  {
    if n > 0 {
      var b := AddedTimes(r, l, n - 1);
      AddedTimesShape(r, l, n - 1);
      var a := Registered(b, l);
      assert a[..|b|] == b;
      assert a[..|r|] == b[..|r|];
      forall k | |r| <= k < |a|
        ensures a[k].listener == l
      {
        if k < |b| {
          assert a[k] == b[k];
        }
      }
    }
  }

  /** Ids handed out by `n` calls of `add` stay distinct and positive. */
  lemma {:induction false} AddedTimesPositive(r: seq<Entry>, l: Listener, n: nat)
    requires PositiveIds(r)
    ensures PositiveIds(AddedTimes(r, l, n))
    decreases n
  {
    if n > 0 {
      var b := AddedTimes(r, l, n - 1);
      AddedTimesPositive(r, l, n - 1);
      RegisteredDistinct(b, l);
      IdsAtLeastOne(b);
      UniqueKeyPositive(Ids(b));
      var a := Registered(b, l);
      forall k | 0 <= k < |a|
        ensures a[k].uid >= 1
      {
        if k < |b| {
          assert a[k] == b[k];
        }
      }
    }
  }

  /**
   * Subscribing composite `owner` on `subs` in order leaves every task as it
   * was except its dictionary, which gets one `add` of the composite's
   * `update` per occurrence of the task in `subs`.
   */
  lemma {:induction false} SubscribeAt(ts: seq<Task>, owner: nat, subs: seq<nat>, j: nat)
    requires forall k :: 0 <= k < |subs| ==> subs[k] < |ts|
    requires j < |ts|
    ensures Subscribe(ts, owner, subs)[j]
         == ts[j].(listeners := AddedTimes(ts[j].listeners, Parent(owner), multiset(subs)[j]))
    decreases |subs|
  {
    if subs != [] {
      var front, last := subs[..|subs| - 1], subs[|subs| - 1];
      SubscribeAt(ts, owner, front, j);
      LastOccurrences(subs);
      var S := Subscribe(ts, owner, front);
      assert Subscribe(ts, owner, subs) == AddListener(S, last, Parent(owner)).0;
      var now, before: multiset<nat> := multiset(subs), multiset(front);
      if last == j {
        assert now[j] == before[j] + 1;
      } else {
        assert now[j] == before[j];
      }
    }
  }

  /** The listeners of a fresh MultiTask's sub-tasks, task by task. */
  lemma SubscribeKeeps(ts: seq<Task>, owner: nat, subs: seq<nat>)
    requires forall k :: 0 <= k < |subs| ==> subs[k] < |ts|
    ensures var us := Subscribe(ts, owner, subs);
      && |us| == |ts|
      && (forall j :: 0 <= j < |ts| ==>
            && us[j] == ts[j].(listeners := us[j].listeners)
            && |us[j].listeners| == |ts[j].listeners| + multiset(subs)[j]
            && us[j].listeners[..|ts[j].listeners|] == ts[j].listeners
            && (forall k :: |ts[j].listeners| <= k < |us[j].listeners| ==> us[j].listeners[k].listener == Parent(owner))
            && (PositiveIds(ts[j].listeners) ==> PositiveIds(us[j].listeners)))
      && (forall j :: 0 <= j < |ts| && j !in subs ==> us[j] == ts[j])
  {
    forall j | 0 <= j < |ts| {
      SubscribeKeepsAt(ts, owner, subs, j);
    }
  }

  /** The same for one task. */
  lemma SubscribeKeepsAt(ts: seq<Task>, owner: nat, subs: seq<nat>, j: nat)
    requires forall k :: 0 <= k < |subs| ==> subs[k] < |ts|
    requires j < |ts|
    ensures var us := Subscribe(ts, owner, subs);
      && us[j] == ts[j].(listeners := us[j].listeners)
      && |us[j].listeners| == |ts[j].listeners| + multiset(subs)[j]
      && us[j].listeners[..|ts[j].listeners|] == ts[j].listeners
      && (forall k :: |ts[j].listeners| <= k < |us[j].listeners| ==> us[j].listeners[k].listener == Parent(owner))
      && (PositiveIds(ts[j].listeners) ==> PositiveIds(us[j].listeners))
      && (j !in subs ==> us[j] == ts[j])
  {
    var us := Subscribe(ts, owner, subs);
    SubscribeAt(ts, owner, subs, j);
    AddedTimesShape(ts[j].listeners, Parent(owner), multiset(subs)[j]);
    if PositiveIds(ts[j].listeners) {
      AddedTimesPositive(ts[j].listeners, Parent(owner), multiset(subs)[j]);
    }
    if j !in subs {
      assert us[j].listeners == us[j].listeners[..|ts[j].listeners|];
    }
  }

  /** `MultiTask(name, *tasks)` turns a well-formed tree into a well-formed tree. */
  lemma SubscribeWellFormed(ts: seq<Task>, subs: seq<nat>, name: string)
    requires WellFormed(ts) && forall k :: 0 <= k < |subs| ==> subs[k] < |ts|
    ensures WellFormed(Subscribe(ts, |ts|, subs) + [MultiTask(name, [], subs)])
  {
    var us := Subscribe(ts, |ts|, subs) + [MultiTask(name, [], subs)];
    forall i | 0 <= i < |us|
      ensures TaskOk(us, i)
    {
      if i < |ts| {
        SubscribedTaskOk(ts, subs, name, i);
      }
    }
  }

  lemma SubscribedTaskOk(ts: seq<Task>, subs: seq<nat>, name: string, i: nat)
    requires WellFormed(ts) && forall k :: 0 <= k < |subs| ==> subs[k] < |ts|
    requires i < |ts|
    ensures TaskOk(Subscribe(ts, |ts|, subs) + [MultiTask(name, [], subs)], i)
  {
    var S := Subscribe(ts, |ts|, subs);
    var us := S + [MultiTask(name, [], subs)];
    var r := ts[i].listeners;
    assert TaskOk(ts, i);
    SubscribeKeepsAt(ts, |ts|, subs, i);
    assert us[i] == S[i];
    var a := S[i].listeners;
    forall k | 0 <= k < |a|
      ensures ListenerOk(us, i, a[k].listener)
    {
      if k < |r| {
        assert a[k] == r[k];
        assert ListenerOk(ts, i, r[k].listener);
        if r[k].listener.Parent? {
          var o := r[k].listener.owner;
          SubscribeKeepsAt(ts, |ts|, subs, o);
          assert us[o] == S[o];
        }
      }
    }
  }

  lemma LastOccurrences(s: seq<nat>)
    requires s != []
    ensures multiset(s) == multiset(s[..|s| - 1]) + multiset{s[|s| - 1]}
  {
    SplitLast(s);
  }

  lemma IdsAtLeastOne(r: seq<Entry>)
    requires forall k :: 0 <= k < |r| ==> r[k].uid >= 1
    ensures forall x :: x in Ids(r) ==> x >= 1
  {
    forall x | x in Ids(r)
      ensures x >= 1
    {
      var k :| 0 <= k < |r| && r[k].uid == x;
    }
  }

  /** In a list without repetitions each element occurs once. */
  lemma {:induction false} OccursOnce(s: seq<nat>, k: nat)
    requires k < |s| && forall a, b :: 0 <= a < b < |s| ==> s[a] != s[b]
    ensures multiset(s)[s[k]] == 1
    decreases |s|
  {
    var front, last := s[..|s| - 1], s[|s| - 1];
    LastOccurrences(s);
    if k == |s| - 1 {
      assert last !in front;
    } else {
      assert front[k] == s[k];
      OccursOnce(front, k);
    }
  }

  /**
   * A MultiTask built over distinct leaves that had no listeners: each of
   * them now holds exactly its `update`, under id 1, so the tree meets the
   * conditions of the reset fan-out below.
   */
  lemma FreshComposite(ts: seq<Task>, subs: seq<nat>, name: string)
    requires WellFormed(ts)
    requires forall k :: 0 <= k < |subs| ==> subs[k] < |ts| && !ts[subs[k]].MultiTask? && ts[subs[k]].listeners == []
    requires forall a, b :: 0 <= a < b < |subs| ==> subs[a] != subs[b]
    ensures WellFormed(Subscribe(ts, |ts|, subs) + [MultiTask(name, [], subs)])
    ensures var us := Subscribe(ts, |ts|, subs) + [MultiTask(name, [], subs)];
      && FanOut(us, |ts|)
      && forall k :: 0 <= k < |subs| ==> us[subs[k]].listeners == [Entry(1, Parent(|ts|))]
  {
    var S := Subscribe(ts, |ts|, subs);
    var us := S + [MultiTask(name, [], subs)];
    SubscribeWellFormed(ts, subs, name);
    forall k | 0 <= k < |subs|
      ensures && subs[k] < |us| && !us[subs[k]].MultiTask?
              && us[subs[k]].listeners == [Entry(1, Parent(|ts|))] && OnlyParent(us, subs[k], |ts|)
    {
      FreshSubTask(ts, subs, k);
      assert us[subs[k]] == S[subs[k]];
    }
    assert us[|ts|] == MultiTask(name, [], subs);
  }

  lemma FreshSubTask(ts: seq<Task>, subs: seq<nat>, k: nat)
    requires forall k :: 0 <= k < |subs| ==> subs[k] < |ts|
    requires forall a, b :: 0 <= a < b < |subs| ==> subs[a] != subs[b]
    requires k < |subs| && ts[subs[k]].listeners == []
    ensures Subscribe(ts, |ts|, subs)[subs[k]] == ts[subs[k]].(listeners := [Entry(1, Parent(|ts|))])
  {
    OccursOnce(subs, k);
    SubscribeAt(ts, |ts|, subs, subs[k]);
    RegisterFirst(Parent(|ts|));
    assert AddedTimes([], Parent(|ts|), 1) == Registered([], Parent(|ts|));
  }

  // ---------------------------------------------------------------------
  // Examples
  // ---------------------------------------------------------------------

  /** `MultiTask(a, b)` over two fresh flags leaves each of them holding the composite's `update` under id 1. */
  lemma SubscribeExample()
    ensures Subscribe([SimpleTask("a", [], false), SimpleTask("b", [], false)], 2, [0, 1])
         == [SimpleTask("a", [Entry(1, Parent(2))], false), SimpleTask("b", [Entry(1, Parent(2))], false)]
  {
    var ts := [SimpleTask("a", [], false), SimpleTask("b", [], false)];
    FreshSubTask(ts, [0, 1], 0);
    FreshSubTask(ts, [0, 1], 1);
  }

  /** A composite without sub-tasks is done at once, with completeness 1.0. */
  lemma EmptyMulti(ts: seq<Task>, i: nat)
    requires WellFormed(ts) && i < |ts| && ts[i].MultiTask? && ts[i].subTasks == []
    ensures IsDone(ts, i) && CompletenessOf(ts, i) == 1.0 && Leaves(ts, i) == {}
  {
    assert Reach(ts, i) == {i};
  }

  /** Two counters of lengths 2 and 4, each at progress 2: the composite is 3/4 complete and not done. */
  lemma MeanExample()
    ensures var l := [Entry(1, Parent(2))];
      var ts := [CounterTask("a", l, 2, 2.0), CounterTask("b", l, 2, 4.0), MultiTask("m", [], [0, 1])];
      WellFormed(ts) && CompletenessOf(ts, 2) == 0.75 && !IsDone(ts, 2)
  {
    var l := [Entry(1, Parent(2))];
    var ts := [CounterTask("a", l, 2, 2.0), CounterTask("b", l, 2, 4.0), MultiTask("m", [], [0, 1])];
    assert TaskOk(ts, 0) && TaskOk(ts, 1) && TaskOk(ts, 2);
    assert ChildSum(ts, 2, 2) == 1.5 by {
      assert ChildSum(ts, 2, 1) == 1.0;
    }
  }

  /**
   * Completeness 1.0 does not mean done: an overshooting counter (3 of 2.5)
   * beside an unfinished one (4 of 5) averages exactly 1.0.
   */
  lemma MeanOneNotDone()
    ensures var l := [Entry(1, Parent(2))];
      var ts := [CounterTask("a", l, 3, 2.5), CounterTask("b", l, 4, 5.0), MultiTask("m", [], [0, 1])];
      WellFormed(ts) && CompletenessOf(ts, 2) == 1.0 && !IsDone(ts, 2)
  {
    var l := [Entry(1, Parent(2))];
    var ts := [CounterTask("a", l, 3, 2.5), CounterTask("b", l, 4, 5.0), MultiTask("m", [], [0, 1])];
    assert TaskOk(ts, 0) && TaskOk(ts, 1) && TaskOk(ts, 2);
    assert ChildSum(ts, 2, 2) == 2.0 by {
      assert ChildSum(ts, 2, 1) == 1.2;
    }
  }

  // ---------------------------------------------------------------------
  // Propagation through a composite
  // ---------------------------------------------------------------------

  /**
   * A sub-task whose only listener is its composite's `update`: updating it
   * calls the composite's (external) listeners iff the sub-task was not done
   * and the composite is still not done afterwards, so the update that
   * completes the last sub-task is silent at the composite.
   */
  lemma ParentRebroadcast(ts: seq<Task>, c: nat, u: int, o: nat)
    requires WellFormed(ts) && c < |ts| && ts[c].listeners == [Entry(u, Parent(o))]
    requires o < |ts| && AllExternal(ts[o].listeners)
    ensures var r := UpdateRun(ts, c);
      r.fired == if IsDone(ts, c) || IsDone(r.tasks, o) then [] else Tags(ts[o].listeners)
  {
    assert TaskOk(ts, c);
    assert ListenerOk(ts, c, ts[c].listeners[0].listener);
    var r := UpdateRun(ts, c);
    if !IsDone(ts, c) {
      assert r.tasks[o] == ts[o];
      NotifyExternal(r.tasks, o);
      assert Notify(r.tasks, c) == NotifyPrefix(r.tasks, c, 1);
    }
  }

  /** `k` rounds of the same notifications. */
  function Repeat(xs: seq<int>, k: nat): seq<int> {
    if k == 0 then [] else Repeat(xs, k - 1) + xs
  }

  /** A sub-task subscribed on by composite `i` only, with no other listener. */
  predicate OnlyParent(ts: seq<Task>, j: nat, i: nat)
    requires j < |ts|
  {
    |ts[j].listeners| == 1 && ts[j].listeners[0].listener == Parent(i)
  }

  /** The conditions of the reset fan-out: leaf sub-tasks that only feed `i`, and external listeners on `i`. */
  predicate FanOut(ts: seq<Task>, i: nat)
    requires WellFormed(ts) && i < |ts|
  {
    && ts[i].MultiTask? && AllExternal(ts[i].listeners)
    && forall k :: 0 <= k < |ts[i].subTasks| ==>
         ts[i].subTasks[k] < |ts| && !ts[ts[i].subTasks[k]].MultiTask? && OnlyParent(ts, ts[i].subTasks[k], i)
  }

  /** Similar trees keep the conditions of the fan-out. */
  lemma FanOutSimilar(ts: seq<Task>, us: seq<Task>, i: nat)
    requires WellFormed(ts) && WellFormed(us) && i < |ts| && Similar(ts, us) && FanOut(ts, i)
    ensures FanOut(us, i) && us[i] == ts[i]
  {
    assert SameShape(ts[i], us[i]);
    forall k | 0 <= k < |ts[i].subTasks|
      ensures !us[ts[i].subTasks[k]].MultiTask? && OnlyParent(us, ts[i].subTasks[k], i)
    {
      assert SameShape(ts[ts[i].subTasks[k]], us[ts[i].subTasks[k]]);
    }
  }

  /**
   * `reset` of a composite whose sub-tasks are leaves that only feed it:
   * each sub-task's reset re-enters the composite's `update`, which calls the
   * composite's listeners because that sub-task is no longer done; then the
   * composite calls them once more itself: |sub-tasks| + 1 rounds in all.
   */
  lemma ResetFanOut(ts: seq<Task>, i: nat)
    requires WellFormed(ts) && i < |ts| && FanOut(ts, i)
    ensures ResetRun(ts, i).fired == Repeat(Tags(ts[i].listeners), |ts[i].subTasks| + 1)
  {
    var n := |ts[i].subTasks|;
    ResetChildrenFanOut(ts, i, n);
    var r := ResetChildren(ts, i, n);
    FanOutSimilar(ts, r.tasks, i);
    NotifyExternal(r.tasks, i);
  }

  lemma {:induction false} ResetChildrenFanOut(ts: seq<Task>, i: nat, k: nat)
    requires WellFormed(ts) && i < |ts| && FanOut(ts, i) && k <= |ts[i].subTasks|
    ensures ResetChildren(ts, i, k).fired == Repeat(Tags(ts[i].listeners), k)
  {
    if k > 0 {
      ResetChildrenFanOut(ts, i, k - 1);
      FanOutStep(ts, i, k);
      RepeatNext(ResetChildren(ts, i, k).fired, ResetChildren(ts, i, k - 1).fired, Tags(ts[i].listeners), k);
    }
  }

  lemma RepeatNext(a: seq<int>, b: seq<int>, xs: seq<int>, k: nat)
    requires k > 0 && b == Repeat(xs, k - 1) && a == b + xs
    ensures a == Repeat(xs, k)
  {
  }

  /** Each round of the reset loop adds one call of the composite's listeners. */
  lemma FanOutStep(ts: seq<Task>, i: nat, k: nat)
    requires WellFormed(ts) && i < |ts| && FanOut(ts, i) && 0 < k <= |ts[i].subTasks|
    ensures ResetChildren(ts, i, k).fired == ResetChildren(ts, i, k - 1).fired + Tags(ts[i].listeners)
  {
    var r := ResetChildren(ts, i, k - 1);
    FanOutSimilar(ts, r.tasks, i);
    ResetChildFires(r.tasks, i, k - 1);
  }

  /** Resetting one such sub-task calls the composite's listeners once. */
  lemma ResetChildFires(ts: seq<Task>, i: nat, k: nat)
    requires WellFormed(ts) && i < |ts| && FanOut(ts, i) && k < |ts[i].subTasks|
    ensures ResetRun(ts, ts[i].subTasks[k]).fired == Tags(ts[i].listeners)
  {
    var j := ts[i].subTasks[k];
    ResetLeaf(ts, j);
    var u := ResetRun(ts, j).tasks;
    assert TaskOk(ts, i);
    assert u[i] == ts[i];
    assert !IsDone(u, i);
    assert u[j].listeners == ts[j].listeners;
    assert NotifyPrefix(u, j, 0) == [];
    assert Notify(u, j) == NotifyPrefix(u, j, 1);
    NotifyExternal(u, i);
    assert ResetRun(ts, j).fired == Notify(u, j);
  }

  /** Trees that differ only in progress have the same sub-task structure. */
  lemma {:induction false} ReachSimilar(ts: seq<Task>, us: seq<Task>, i: nat)
    requires WellFormed(ts) && WellFormed(us) && i < |ts| && Similar(ts, us)
    ensures Reach(ts, i) == Reach(us, i)
    decreases i, 1
  {
    assert SameShape(ts[i], us[i]);
    if ts[i].MultiTask? {
      ReachPrefixSimilar(ts, us, i, |ts[i].subTasks|);
    }
  }

  lemma {:induction false} ReachPrefixSimilar(ts: seq<Task>, us: seq<Task>, i: nat, k: nat)
    requires WellFormed(ts) && WellFormed(us) && i < |ts| && Similar(ts, us)
    requires ts[i].MultiTask? && k <= |ts[i].subTasks|
    ensures us[i] == ts[i] && ReachPrefix(ts, i, k) == ReachPrefix(us, i, k)
    decreases i, 0, k
  {
    assert SameShape(ts[i], us[i]);
    assert TaskOk(ts, i);
    if k > 0 {
      ReachPrefixSimilar(ts, us, i, k - 1);
      ReachSimilar(ts, us, ts[i].subTasks[k - 1]);
    }
  }

  /** Clearing depends on the shape only, and clearing twice is clearing once. */
  lemma ClearedShape(a: Task, b: Task)
    requires SameShape(a, b)
    ensures Cleared(a) == Cleared(b) && Cleared(Cleared(a)) == Cleared(a)
  {
  }

  /** The tree with every task below `i` (and `i` itself) cleared, the rest unchanged. */
  predicate ClearedBelow(ts: seq<Task>, us: seq<Task>, below: set<nat>) {
    |us| == |ts| && forall j :: 0 <= j < |ts| ==> us[j] == if j in below then Cleared(ts[j]) else ts[j]
  }

  /** `reset` clears every task below the one reset and leaves every other task as it was. */
  lemma {:induction false} ResetClearsSubtree(ts: seq<Task>, i: nat)
    requires WellFormed(ts) && i < |ts|
    ensures ClearedBelow(ts, ResetRun(ts, i).tasks, Reach(ts, i))
    decreases i, 1
  {
    assert TaskOk(ts, i);
    if ts[i].MultiTask? {
      var n := |ts[i].subTasks|;
      ResetChildrenClear(ts, i, n);
      ReachPrefixBelow(ts, i, n);
    }
  }

  lemma {:induction false} ResetChildrenClear(ts: seq<Task>, i: nat, k: nat)
    requires WellFormed(ts) && i < |ts| && ts[i].MultiTask? && k <= |ts[i].subTasks|
    ensures ClearedBelow(ts, ResetChildren(ts, i, k).tasks, ReachPrefix(ts, i, k))
    decreases i, 0, k
  {
    assert TaskOk(ts, i);
    if k > 0 {
      ResetChildrenClear(ts, i, k - 1);
      var r := ResetChildren(ts, i, k - 1);
      var s := ts[i].subTasks[k - 1];
      assert SameShape(ts[i], r.tasks[i]);
      ResetClearsSubtree(r.tasks, s);
      ReachSimilar(ts, r.tasks, s);
      var c := ResetRun(r.tasks, s);
      forall j | 0 <= j < |ts|
        ensures c.tasks[j] == if j in ReachPrefix(ts, i, k) then Cleared(ts[j]) else ts[j]
      {
        assert SameShape(ts[j], r.tasks[j]);
        ClearedShape(ts[j], r.tasks[j]);
      }
    }
  }

  /** After `reset`, a task is done iff there is no leaf below it. */
  lemma ResetDone(ts: seq<Task>, i: nat)
    requires WellFormed(ts) && i < |ts|
    ensures IsDone(ResetRun(ts, i).tasks, i) <==> Leaves(ts, i) == {}
  {
    var u := ResetRun(ts, i).tasks;
    ResetClearsSubtree(ts, i);
    ReachSimilar(ts, u, i);
    DoneIffLeavesDone(u, i);
    forall j | j in Reach(ts, i) && j < |ts| && !ts[j].MultiTask?
      ensures !u[j].MultiTask? && !IsDone(u, j)
    {
      assert TaskOk(ts, j);
    }
    forall j | j in Reach(ts, i) && j < |ts| && u[j].MultiTask?
      ensures ts[j].MultiTask?
    {
      assert SameShape(ts[j], u[j]);
    }
    LeavesEmpty(ts, i);
  }

  lemma LeavesEmpty(ts: seq<Task>, i: nat)
    requires WellFormed(ts) && i < |ts|
    ensures Leaves(ts, i) == {} <==> forall j :: j in Reach(ts, i) && j < |ts| ==> ts[j].MultiTask?
  {
    if exists j :: j in Reach(ts, i) && j < |ts| && !ts[j].MultiTask? {
      var j :| j in Reach(ts, i) && j < |ts| && !ts[j].MultiTask?;
      assert j in Leaves(ts, i);
    }
  }
}
