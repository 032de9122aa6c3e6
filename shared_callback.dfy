/** What both callback-query task tables (src/yakusoku/shared/callback.py
    and yakusoku/shared/callback.py) share: the disposer a task carries and
    the effects the handlers have outside the task table. */
module CallbackEffects {

  import opened Wrappers

  /** `task.disposed`: none, a plain callback, or the wrapper an expiring task
      gets, which stops and unregisters the task's timer (`timer`, its entry
      in `_expire_tasks`) and runs the given callback, if any. */
  datatype Disposer = NoDisposer | Plain(id: nat) | Expirable(timer: nat, inner: Option<nat>)

  /** What the handlers do outside the table, in order. */
  datatype Effect =
    | Answered(text: Option<string>)
    | RanCallback(id: nat)
    | RanDisposed(id: nat)
    | RanPost(id: nat)

  /** Running the callback given as `disposed`, if one was given. */
  function InnerEffects(inner: Option<nat>): seq<Effect>
  {
    if inner.Some? then [RanDisposed(inner.value)] else []
  }

  lemma MapMinusUnion<K, V>(m: map<K, V>, a: set<K>, b: set<K>)
    ensures (m - a) - b == m - (a + b)
  {
  }

  lemma AppendAssoc<T>(a: seq<T>, b: seq<T>, c: seq<T>)
    ensures (a + b) + c == a + (b + c)
  {
  }
}

/** The callback-query task table of src/yakusoku/shared/callback.py: tasks
    are stored under fresh uuids, a button press is dispatched to the task its
    callback data names, and cancelling a task also cancels the cancellation
    task registered for it. The timers of expiring tasks are kept as the set
    of live ones (`_expire_tasks`); their firing is not modelled. Uuids come
    from a counter, since `uuid1` only has to give a new one each time. */
module SharedCallback {

  import opened Wrappers
  import opened Text
  import opened CallbackEffects

  type Uuid = nat

  /** `task.user_callback`: an opaque user callback, or the closure built by
      `create_cancellation_task`. */
  datatype Callback =
    | User(id: nat)
    | CancelOf(original: Task, post: Option<nat>, cancelledAnswer: Option<string>)

  datatype Task = Task(
    uuid: Uuid,
    disposable: bool,
    callback: Callback,
    callbackData: string,
    expiry: Option<int>,
    disposed: Disposer)

  /** `CallbackData.pack()`: the prefix, the separator and the uuid. */
  function Pack(prefix: string, u: Uuid): string
  {
    prefix + ":" + NatToString(u)
  }

  /** Unpacking callback data into the uuid it carries. */
  function Unpack(prefix: string, data: string): Option<Uuid>
  {
    if StartsWith(data, prefix + ":") then ParseNat(data[|prefix| + 1..]) else None
  }

  lemma UnpackPack(prefix: string, u: Uuid)
    ensures Unpack(prefix, Pack(prefix, u)) == Some(u)
  {
    assert Pack(prefix, u)[|prefix| + 1..] == NatToString(u);
    ParseNatToString(u);
  }

  /** `await task.disposed()` inside `cancel_task`, given the live timers:
      the effects and the live timers afterwards. An expiring task's wrapper
      unregisters its timer before it runs the given callback; when the timer
      is already gone, `list.remove` raises, `cancel_task` suppresses the
      error, and the given callback is skipped. */
  function Dispose(d: Disposer, live: set<nat>): (r: (seq<Effect>, set<nat>))
    ensures |r.0| <= 1 && r.1 <= live
    ensures d.Expirable? ==> d.timer !in r.1
    ensures d.Expirable? && d.timer !in live ==> r == ([], live)
    ensures !d.Expirable? ==> r.1 == live
  {
    match d
    case NoDisposer => ([], live)
    case Plain(id) => ([RanDisposed(id)], live)
    case Expirable(timer, inner) =>
      if timer in live then (InnerEffects(inner), live - {timer}) else ([], live)
  }

  /** The disposers of a chain of tasks run in turn: all effects, in order,
      and the live timers at the end. No expiring task of the chain keeps
      its timer. */
  function DisposeAll(ts: seq<Task>, live: set<nat>): (r: (seq<Effect>, set<nat>))
    ensures r.1 <= live && |r.0| <= |ts|
    ensures forall i :: 0 <= i < |ts| && ts[i].disposed.Expirable? ==> ts[i].disposed.timer !in r.1
    decreases |ts|
  {
    if ts == [] then ([], live)
    else
      var first := Dispose(ts[0].disposed, live);
      var rest := DisposeAll(ts[1..], first.1);
      assert forall i :: 1 <= i < |ts| ==> ts[i] == ts[1..][i - 1];
      (first.0 + rest.0, rest.1)
  }

  /** Cancelling an expiring task with a live timer twice runs its
      `disposed` callback only the first time. */
  lemma CancelTwiceDisposesOnce(t: Task, live: set<nat>)
    requires t.disposed.Expirable? && t.disposed.inner.Some? && t.disposed.timer in live
    ensures var once := DisposeAll([t], live);
            && once == ([RanDisposed(t.disposed.inner.value)], live - {t.disposed.timer})
            && DisposeAll([t], once.1) == ([], once.1)
  {
    DisposeSingle(t, live);
    DisposeSingle(t, live - {t.disposed.timer});
  }

  /** Cancelling `t` and then the rest of its chain cancels the whole chain. */
  lemma CancelThenChain(tasks0: map<Uuid, Task>, log0: seq<Effect>, live0: set<nat>, t: Task, c: map<Uuid, Task>,
                        bound: nat, tasks: map<Uuid, Task>, log: seq<Effect>, live: set<nat>)
    requires Linked(c, bound) && t.uuid < bound && t.uuid in c
    requires var first := Dispose(t.disposed, live0);
             var rest := DisposeAll(Chain(c, c[t.uuid], bound), first.1);
             && tasks == (tasks0 - {t.uuid}) - Ids(Chain(c, c[t.uuid], bound))
             && log == (log0 + first.0) + rest.0
             && live == rest.1
    ensures tasks == tasks0 - Ids(Chain(c, t, bound))
    ensures log == log0 + DisposeAll(Chain(c, t, bound), live0).0
    ensures live == DisposeAll(Chain(c, t, bound), live0).1
  {
    var rest := Chain(c, c[t.uuid], bound);
    ChainStep(c, t, bound);
    MapMinusUnion(tasks0, {t.uuid}, Ids(rest));
    AppendAssoc(log0, Dispose(t.disposed, live0).0, DisposeAll(rest, Dispose(t.disposed, live0).1).0);
  }

  /** Every task sits under its own uuid, below the next uuid, and a
      cancellation task was created after the task it cancels. */
  predicate TasksValid(tasks: map<Uuid, Task>, bound: nat)
  {
    && (forall u :: u in tasks ==> tasks[u].uuid == u && u < bound)
    && (forall u :: u in tasks && tasks[u].callback.CancelOf? ==> tasks[u].callback.original.uuid < u)
  }

  lemma RemovalKeepsTasksValid(tasks: map<Uuid, Task>, bound: nat, ids: set<Uuid>)
    requires TasksValid(tasks, bound)
    ensures TasksValid(tasks - ids, bound)
  {
  }

  /** Each cancellation task was created after the task it cancels. */
  predicate Linked(c: map<Uuid, Task>, bound: nat)
  {
    forall u :: u in c ==> u < c[u].uuid < bound
  }

  /** The tasks `cancel_task(t)` reaches: `t`, then its cancellation task and so on. */
  function Chain(c: map<Uuid, Task>, t: Task, bound: nat): (r: seq<Task>)
    requires Linked(c, bound) && t.uuid < bound
    ensures r != [] && r[0] == t
    ensures t.uuid !in c ==> r == [t]
    decreases bound - t.uuid
  {
    if t.uuid in c then [t] + Chain(c, c[t.uuid], bound) else [t]
  }

  function Ids(ts: seq<Task>): set<Uuid>
  {
    set i | 0 <= i < |ts| :: ts[i].uuid
  }

  /** The uuids of a task followed by more tasks. */
  lemma IdsCons(t: Task, rest: seq<Task>)
    ensures Ids([t] + rest) == {t.uuid} + Ids(rest)
  {
    var chain := [t] + rest;
    forall x
      ensures x in Ids(chain) <==> x in {t.uuid} + Ids(rest)
    {
      if x in Ids(chain) {
        var i :| 0 <= i < |chain| && chain[i].uuid == x;
        if i > 0 { assert rest[i - 1].uuid == x; }
      }
      if x in Ids(rest) {
        var i :| 0 <= i < |rest| && rest[i].uuid == x;
        assert chain[i + 1].uuid == x;
      }
    }
  }

  /** One step of the chain: the task itself, then the chain of its cancellation task. */
  lemma ChainStep(c: map<Uuid, Task>, t: Task, bound: nat)
    requires Linked(c, bound) && t.uuid < bound
    ensures t.uuid in c ==>
              && Ids(Chain(c, t, bound)) == {t.uuid} + Ids(Chain(c, c[t.uuid], bound))
              && Chain(c, t, bound)[1..] == Chain(c, c[t.uuid], bound)
    ensures t.uuid !in c ==> Ids(Chain(c, t, bound)) == {t.uuid}
  {
    var chain := Chain(c, t, bound);
    if t.uuid in c {
      IdsCons(t, Chain(c, c[t.uuid], bound));
    } else {
      IdsCons(t, []);
      assert chain == [t] + [];
    }
  }

  /** A chain of one task disposes just that task. */
  lemma DisposeSingle(t: Task, live: set<nat>)
    ensures DisposeAll([t], live) == Dispose(t.disposed, live)
  {
    var first := Dispose(t.disposed, live);
    assert [t][1..] == [];
    assert DisposeAll([], first.1) == ([], first.1);
    assert first.0 + [] == first.0;
  }

  /** The chain is strictly increasing in uuid, so it never revisits a task. */
  lemma {:induction false} ChainIncreasing(c: map<Uuid, Task>, t: Task, bound: nat)
    requires Linked(c, bound) && t.uuid < bound
    ensures forall i, j :: 0 <= i < j < |Chain(c, t, bound)| ==>
              Chain(c, t, bound)[i].uuid < Chain(c, t, bound)[j].uuid
    decreases bound - t.uuid
  {
    var r := Chain(c, t, bound);
    if t.uuid in c {
      var rest := Chain(c, c[t.uuid], bound);
      ChainIncreasing(c, c[t.uuid], bound);
      forall i, j | 0 <= i < j < |r|
        ensures r[i].uuid < r[j].uuid
      {
        assert r[j] == rest[j - 1];
        if i > 0 {
          assert r[i] == rest[i - 1];
        } else if j > 1 {
          assert rest[0].uuid < rest[j - 1].uuid;
        }
      }
    }
  }

  /** A task with a registered cancellation task takes it down with it. */
  lemma ChainReachesCancellation(c: map<Uuid, Task>, t: Task, bound: nat)
    requires Linked(c, bound) && t.uuid < bound
    ensures t.uuid in Ids(Chain(c, t, bound))
    ensures t.uuid in c ==> c[t.uuid].uuid in Ids(Chain(c, t, bound))
  {
    var r := Chain(c, t, bound);
    assert r[0] == t;
    if t.uuid in c { assert r[1] == c[t.uuid]; }
  }

  class CallbackQueryTaskManager {
    var tasks: map<Uuid, Task>
    var cancellations: map<Uuid, Task>
    /** The timers still registered in `_expire_tasks`, by task uuid. */
    var expiring: set<nat>
    const errorAnswer: Option<string>
    const prefix: string
    var nextUuid: nat
    var log: seq<Effect>

    predicate Valid()
      reads this
    {
      TasksValid(tasks, nextUuid) && Linked(cancellations, nextUuid)
    }

    constructor(queryPrefix: string, errorAnswer: Option<string>)
      ensures Valid()
      ensures tasks == map[] && cancellations == map[] && expiring == {} && log == []
      ensures this.errorAnswer == errorAnswer && prefix == queryPrefix
    {
      tasks := map[];
      cancellations := map[];
      expiring := {};
      this.errorAnswer := errorAnswer;
      prefix := queryPrefix;
      nextUuid := 0;
      log := [];
    }

    /** The body of `create_task`, for any callback the manager may hold. An
        expiring task registers its timer and gets the disposing wrapper. */
    method NewTask(callback: Callback, disposable: bool, expiredAfter: Option<int>, disposed: Option<nat>, now: int)
      returns (t: Task)
      requires Valid()
      requires callback.CancelOf? ==> callback.original.uuid < nextUuid
      modifies this
      ensures Valid()
      ensures t.uuid == old(nextUuid) && nextUuid == old(nextUuid) + 1
      ensures t.uuid !in old(tasks) && tasks == old(tasks)[t.uuid := t]
      ensures t.callback == callback && t.disposable == disposable && t.callbackData == Pack(prefix, t.uuid)
      ensures expiredAfter.Some? && expiredAfter.value != 0 ==>
                && t.expiry == Some(now + expiredAfter.value) && t.disposed == Expirable(t.uuid, disposed)
                && expiring == old(expiring) + {t.uuid}
      ensures !(expiredAfter.Some? && expiredAfter.value != 0) ==>
                && t.expiry.None? && t.disposed == (if disposed.Some? then Plain(disposed.value) else NoDisposer)
                && expiring == old(expiring)
      ensures cancellations == old(cancellations) && log == old(log)
    {
      var uuid := nextUuid;
      nextUuid := nextUuid + 1;
      if expiredAfter.Some? && expiredAfter.value != 0 {
        t := Task(uuid, disposable, callback, Pack(prefix, uuid), Some(now + expiredAfter.value), Expirable(uuid, disposed));
        expiring := expiring + {uuid};
      } else {
        t := Task(uuid, disposable, callback, Pack(prefix, uuid), None,
                  if disposed.Some? then Plain(disposed.value) else NoDisposer);
      }
      tasks := tasks[uuid := t];
    }

    /** `create_task` with a user callback; a zero `expired_after` counts as none. */
    method CreateTask(callback: nat, disposable: bool, expiredAfter: Option<int>, disposed: Option<nat>, now: int)
      returns (t: Task)
      requires Valid()
      modifies this
      ensures Valid()
      ensures t.uuid !in old(tasks) && tasks == old(tasks)[t.uuid := t]
      ensures t.callback == User(callback) && t.disposable == disposable && Unpack(prefix, t.callbackData) == Some(t.uuid)
      ensures t.expiry == (if expiredAfter.Some? && expiredAfter.value != 0 then Some(now + expiredAfter.value) else None)
      ensures expiring == (if t.expiry.Some? then old(expiring) + {t.uuid} else old(expiring))
      ensures cancellations == old(cancellations) && log == old(log)
    {
      t := NewTask(User(callback), disposable, expiredAfter, disposed, now);
      UnpackPack(prefix, t.uuid);
    }

    /** `cancel_task`: drops the task (absent is fine), runs its disposer with
        errors suppressed, and then cancels its cancellation task, if one was
        registered. */
    method CancelTask(t: Task)
      requires Valid() && t.uuid < nextUuid
      modifies this
      ensures Valid()
      ensures cancellations == old(cancellations) && nextUuid == old(nextUuid)
      ensures var chain := Chain(cancellations, t, nextUuid);
              && tasks == old(tasks) - Ids(chain)
              && log == old(log) + DisposeAll(chain, old(expiring)).0
              && expiring == DisposeAll(chain, old(expiring)).1
      decreases nextUuid - t.uuid
    {
      ghost var tasks0, log0, live0 := tasks, log, expiring;
      RemovalKeepsTasksValid(tasks, nextUuid, {t.uuid});
      tasks := tasks - {t.uuid};
      var d := Dispose(t.disposed, expiring);
      log := log + d.0;
      expiring := d.1;
      if t.uuid in cancellations {
        CancelTask(cancellations[t.uuid]);
        CancelThenChain(tasks0, log0, live0, t, cancellations, nextUuid, tasks, log, expiring);
      } else {
        ChainStep(cancellations, t, nextUuid);
        DisposeSingle(t, live0);
      }
    }

    /** `create_cancellation_task`: at most one per task (the assertion fails
        otherwise); the new task inherits the original's expiry time. */
    method CreateCancellationTask(t: Task, post: Option<nat>, cancelledAnswer: Option<string>, now: int)
      returns (r: Option<Task>)
      requires Valid() && t.uuid < nextUuid
      modifies this
      ensures Valid()
      ensures t.uuid in old(cancellations) ==>
                r.None? && tasks == old(tasks) && cancellations == old(cancellations) && expiring == old(expiring)
      ensures t.uuid !in old(cancellations) ==>
                && r.Some? && r.value.uuid !in old(tasks)
                && tasks == old(tasks)[r.value.uuid := r.value]
                && cancellations == old(cancellations)[t.uuid := r.value]
                && r.value.callback == CancelOf(t, post, cancelledAnswer) && r.value.disposable
                && r.value.expiry == (if t.expiry.Some? && t.expiry.value != now then t.expiry else None)
                && r.value.disposed == (if r.value.expiry.Some? then Expirable(r.value.uuid, None) else NoDisposer)
                && expiring == (if r.value.expiry.Some? then old(expiring) + {r.value.uuid} else old(expiring))
      ensures log == old(log)
    {
      if t.uuid in cancellations {
        return None;
      }
      var after := if t.expiry.Some? then Some(t.expiry.value - now) else None;
      var c := NewTask(CancelOf(t, post, cancelledAnswer), true, after, None, now);
      cancellations := cancellations[t.uuid := c];
      r := Some(c);
    }

    /** The `cancel` closure of a cancellation task: cancel the original
        task, run `post_callback` if given, then answer. */
    method RunCancel(original: Task, post: Option<nat>, cancelledAnswer: Option<string>)
      requires Valid() && original.uuid < nextUuid
      modifies this
      ensures Valid()
      ensures cancellations == old(cancellations) && nextUuid == old(nextUuid)
      ensures var chain := Chain(cancellations, original, nextUuid);
              && tasks == old(tasks) - Ids(chain)
              && log == old(log) + DisposeAll(chain, old(expiring)).0
                        + (if post.Some? then [RanPost(post.value)] else []) + [Answered(cancelledAnswer)]
              && expiring == DisposeAll(chain, old(expiring)).1
    {
      CancelTask(original);
      if post.Some? {
        log := log + [RanPost(post.value)];
      }
      log := log + [Answered(cancelledAnswer)];
    }

    /** `_handle_callback_query_task`: an unknown uuid gets the error answer;
        otherwise the callback runs, and a disposable task is then cancelled
        unless the callback returned `False`. `returnsFalse` says which user
        callbacks return `False`. */
    method Dispatch(uuid: Uuid, returnsFalse: nat -> bool)
      requires Valid()
      modifies this
      ensures Valid()
      ensures cancellations == old(cancellations) && nextUuid == old(nextUuid)
      ensures uuid !in old(tasks) ==>
                tasks == old(tasks) && log == old(log) + [Answered(errorAnswer)] && expiring == old(expiring)
      ensures uuid in old(tasks) && old(tasks)[uuid].callback.User? ==>
                var t := old(tasks)[uuid];
                var cancel := t.disposable && !returnsFalse(t.callback.id);
                var chain := Chain(cancellations, t, nextUuid);
                var d := DisposeAll(chain, old(expiring));
                && tasks == (if cancel then old(tasks) - Ids(chain) else old(tasks))
                && log == old(log) + [RanCallback(t.callback.id)] + (if cancel then d.0 else [])
                && expiring == (if cancel then d.1 else old(expiring))
      ensures uuid in old(tasks) && old(tasks)[uuid].callback.CancelOf? ==>
                var t := old(tasks)[uuid];
                var k := t.callback;
                var first := Chain(cancellations, k.original, nextUuid);
                var second := Chain(cancellations, t, nextUuid);
                var d1 := DisposeAll(first, old(expiring));
                var d2 := DisposeAll(second, d1.1);
                && tasks == (if t.disposable then (old(tasks) - Ids(first)) - Ids(second) else old(tasks) - Ids(first))
                && log == old(log) + d1.0
                          + (if k.post.Some? then [RanPost(k.post.value)] else [])
                          + [Answered(k.cancelledAnswer)]
                          + (if t.disposable then d2.0 else [])
                && expiring == (if t.disposable then d2.1 else d1.1)
    {
      if uuid !in tasks {
        log := log + [Answered(errorAnswer)];
        return;
      }
      var t := tasks[uuid];
      var isFalse: bool;
      match t.callback {
        case User(id) =>
          log := log + [RanCallback(id)];
          isFalse := returnsFalse(id);
        case CancelOf(original, post, cancelledAnswer) =>
          RunCancel(original, post, cancelledAnswer);
          isFalse := false;
      }
      if t.disposable && !isFalse {
        CancelTask(t);
      }
    }
  }

  /** Pressing a cancellation button cancels the original task and the
      cancellation task itself. */
  lemma CancellationRemovesBoth(c: map<Uuid, Task>, tasks: map<Uuid, Task>, orig: Task, bound: nat)
    requires Linked(c, bound) && orig.uuid < bound && orig.uuid in c
    ensures var first := Chain(c, orig, bound);
            orig.uuid !in tasks - Ids(first) && c[orig.uuid].uuid !in tasks - Ids(first)
  {
    ChainReachesCancellation(c, orig, bound);
  }

  /** With every expiring task's timer already gone, disposing a chain
      leaves the live timers as they are. */
  lemma {:induction false} DisposeAllGone(ts: seq<Task>, live: set<nat>)
    requires forall i :: 0 <= i < |ts| && ts[i].disposed.Expirable? ==> ts[i].disposed.timer !in live
    ensures DisposeAll(ts, live).1 == live
    decreases |ts|
  {
    if ts != [] {
      assert Dispose(ts[0].disposed, live).1 == live;
      assert forall i :: 0 <= i < |ts[1..]| ==> ts[1..][i] == ts[i + 1];
      DisposeAllGone(ts[1..], live);
    }
  }

  /** Pressing an expiring cancellation button disposes the cancellation task
      twice: once in the original's chain and again after its callback. The
      second time its wrapper finds the timer gone: it runs nothing and no
      timer of the second chain is still live. */
  lemma CancelButtonDisposesOnce(c: map<Uuid, Task>, orig: Task, bound: nat, live: set<nat>)
    requires Linked(c, bound) && orig.uuid < bound && orig.uuid in c && c[orig.uuid].disposed.Expirable?
    ensures var d1 := DisposeAll(Chain(c, orig, bound), live);
            var k := c[orig.uuid];
            && Dispose(k.disposed, d1.1) == ([], d1.1)
            && DisposeAll(Chain(c, k, bound), d1.1).1 == d1.1
  {
    var first := Chain(c, orig, bound);
    var d1 := DisposeAll(first, live);
    ChainStep(c, orig, bound);
    var second := Chain(c, c[orig.uuid], bound);
    assert forall i :: 0 <= i < |second| ==> second[i] == first[i + 1];
    DisposeAllGone(second, d1.1);
  }
}
