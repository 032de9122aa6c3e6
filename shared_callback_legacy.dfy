/** The older callback-query task table of yakusoku/shared/callback.py. Next
    to what `SharedCallback` models, each task carries answered filters that
    must all pass before its callback runs, its callback data is the query
    prefix followed by the uuid, and a disposable task is always cancelled
    after its callback. */
module SharedCallbackLegacy {

  import opened Wrappers
  import opened Text
  import opened CallbackEffects

  type Uuid = nat

  /** A filter as given by the caller: bare, or paired with its own answer. */
  datatype CustomFilter = Bare(filter: nat) | WithAnswer(filter: nat, answer: string)

  /** `_unify_filter`: every filter gets an answer, the fallback when it had none. */
  function UnifyFilter(f: CustomFilter, fallbackAnswer: string): (r: (nat, string))
    ensures r.0 == f.filter
    ensures f.WithAnswer? ==> r.1 == f.answer
    ensures f.Bare? ==> r.1 == fallbackAnswer
  {
    match f
    case Bare(filter) => (filter, fallbackAnswer)
    case WithAnswer(filter, answer) => (filter, answer)
  }

  function UnifyFilters(fs: seq<CustomFilter>, fallbackAnswer: string): (r: seq<(nat, string)>)
    ensures |r| == |fs| && forall i :: 0 <= i < |fs| ==> r[i] == UnifyFilter(fs[i], fallbackAnswer)
  {
    seq(|fs|, i requires 0 <= i < |fs| => UnifyFilter(fs[i], fallbackAnswer))
  }

  /** Answered filters handed back as custom filters, as a cancellation task
      that inherits its task's filters does. */
  function Rewrap(fs: seq<(nat, string)>): (r: seq<CustomFilter>)
    ensures |r| == |fs|
  {
    seq(|fs|, i requires 0 <= i < |fs| => WithAnswer(fs[i].0, fs[i].1))
  }

  /** Unifying rewrapped filters gives them back whatever the fallback. */
  lemma UnifyRewrap(fs: seq<(nat, string)>, fallbackAnswer: string)
    ensures UnifyFilters(Rewrap(fs), fallbackAnswer) == fs
  {
  }

  datatype Callback =
    | User(id: nat)
    | CancelOf(original: Task, post: Option<nat>, cancelledAnswer: Option<string>)

  datatype Task = Task(
    uuid: Uuid,
    description: Option<string>,
    disposable: bool,
    callback: Callback,
    filters: seq<(nat, string)>,
    queryPrefix: string,
    expiredOn: Option<int>,
    disposed: Disposer)

  /** The `callback_data` property. */
  function CallbackData(t: Task): string
  {
    t.queryPrefix + NatToString(t.uuid)
  }

  /** `str.removeprefix`. */
  function RemovePrefix(s: string, prefix: string): (r: string)
    ensures StartsWith(s, prefix) ==> s == prefix + r
    ensures !StartsWith(s, prefix) ==> r == s
  {
    if StartsWith(s, prefix) then s[|prefix|..] else s
  }

  /** `UUID(query.data.removeprefix(prefix))`; `None` is the ValueError. */
  function QueryUuid(prefix: string, data: string): Option<Uuid>
  {
    ParseNat(RemovePrefix(data, prefix))
  }

  /** The handler recovers the uuid from the callback data of a task made with its prefix. */
  lemma QueryUuidOfCallbackData(t: Task)
    ensures QueryUuid(t.queryPrefix, CallbackData(t)) == Some(t.uuid)
  {
    assert CallbackData(t)[..|t.queryPrefix|] == t.queryPrefix;
    assert RemovePrefix(CallbackData(t), t.queryPrefix) == NatToString(t.uuid);
    ParseNatToString(t.uuid);
  }

  /** The index of the first filter that fails, in list order. */
  function FirstFailing(filters: seq<(nat, string)>, passes: nat -> bool): (r: Option<nat>)
    ensures r.None? <==> forall i :: 0 <= i < |filters| ==> passes(filters[i].0)
    ensures r.Some? ==> r.value < |filters| && !passes(filters[r.value].0)
                        && forall i :: 0 <= i < r.value ==> passes(filters[i].0)
    decreases |filters|
  {
    if filters == [] then None
    else if !passes(filters[0].0) then Some(0)
    else
      var rest := FirstFailing(filters[1..], passes);
      assert forall i :: 1 <= i < |filters| ==> filters[i] == filters[1..][i - 1];
      if rest.None? then None else Some(rest.value + 1)
  }

  /** The filter loop of the handler: the answer of the first failing filter, if any. */
  method CheckFilters(filters: seq<(nat, string)>, passes: nat -> bool) returns (r: Option<string>)
    ensures FirstFailing(filters, passes).None? ==> r.None?
    ensures FirstFailing(filters, passes).Some? ==> r == Some(filters[FirstFailing(filters, passes).value].1)
  {
    var i := 0;
    while i < |filters|
      invariant 0 <= i <= |filters|
      invariant forall j :: 0 <= j < i ==> passes(filters[j].0)
    {
      if !passes(filters[i].0) {
        return Some(filters[i].1);
      }
      i := i + 1;
    }
    return None;
  }

  /** `await task.disposed()` inside `cancel_task`: the effects, the live
      timers afterwards and whether it raised. An expiring task's wrapper runs
      the given callback first and then unregisters its timer; when the timer
      is already gone, `list.remove` raises ValueError, which nothing in this
      version catches. */
  datatype Disposal = Disposal(effects: seq<Effect>, live: set<nat>, raised: bool)

  function Dispose(d: Disposer, live: set<nat>): (r: Disposal)
    ensures |r.effects| <= 1 && r.live <= live
    ensures r.raised <==> d.Expirable? && d.timer !in live
    ensures d.Expirable? ==> d.timer !in r.live && r.effects == InnerEffects(d.inner)
    ensures !d.Expirable? ==> r.live == live
  {
    match d
    case NoDisposer => Disposal([], live, false)
    case Plain(id) => Disposal([RanDisposed(id)], live, false)
    case Expirable(timer, inner) => Disposal(InnerEffects(inner), live - {timer}, timer !in live)
  }

  /** Cancelling a chain of tasks in turn until a disposer raises: how many
      tasks were reached (and dropped from the table), the effects, the live
      timers at the end and whether it raised. */
  datatype Cancelled = Cancelled(reached: nat, effects: seq<Effect>, live: set<nat>, raised: bool)

  function CancelAll(ts: seq<Task>, live: set<nat>): (r: Cancelled)
    ensures r.reached <= |ts| && r.live <= live
    ensures !r.raised ==> r.reached == |ts|
    ensures r.raised ==> 0 < r.reached && ts[r.reached - 1].disposed.Expirable?
                         && ts[r.reached - 1].disposed.timer !in r.live
    ensures forall i :: 0 <= i < r.reached && ts[i].disposed.Expirable? ==> ts[i].disposed.timer !in r.live
    decreases |ts|
  {
    if ts == [] then Cancelled(0, [], live, false)
    else
      var d := Dispose(ts[0].disposed, live);
      if d.raised then Cancelled(1, d.effects, d.live, true)
      else
        var rest := CancelAll(ts[1..], d.live);
        assert forall i :: 1 <= i < |ts| ==> ts[i] == ts[1..][i - 1];
        Cancelled(rest.reached + 1, d.effects + rest.effects, rest.live, rest.raised)
  }

  /** Cancelling `t` and then the rest of its chain cancels the whole chain,
      up to the first disposer that raises. */
  lemma CancelThenChain(tasks0: map<Uuid, Task>, log0: seq<Effect>, live0: set<nat>, t: Task, c: map<Uuid, Task>,
                        bound: nat, tasks: map<Uuid, Task>, log: seq<Effect>, live: set<nat>)
    requires Linked(c, bound) && t.uuid < bound && t.uuid in c
    requires var d := Dispose(t.disposed, live0);
             var rest := Chain(c, c[t.uuid], bound);
             var o := CancelAll(rest, d.live);
             && !d.raised
             && tasks == (tasks0 - {t.uuid}) - Ids(rest[..o.reached])
             && log == (log0 + d.effects) + o.effects
             && live == o.live
    ensures var chain := Chain(c, t, bound);
            var o := CancelAll(chain, live0);
            && tasks == tasks0 - Ids(chain[..o.reached])
            && log == log0 + o.effects
            && live == o.live
            && o.raised == CancelAll(Chain(c, c[t.uuid], bound), Dispose(t.disposed, live0).live).raised
  {
    var chain := Chain(c, t, bound);
    var rest := Chain(c, c[t.uuid], bound);
    ChainStep(c, t, bound);
    var d := Dispose(t.disposed, live0);
    var o := CancelAll(rest, d.live);
    assert CancelAll(chain, live0) == Cancelled(o.reached + 1, d.effects + o.effects, o.live, o.raised);
    assert chain[..o.reached + 1] == [t] + rest[..o.reached];
    IdsCons(t, rest[..o.reached]);
    MapMinusUnion(tasks0, {t.uuid}, Ids(rest[..o.reached]));
    AppendAssoc(log0, d.effects, o.effects);
  }

  /** Every task sits under its own uuid, below the next uuid, and a
      cancellation task was created after the task it cancels. */
  predicate TasksValid(tasks: map<Uuid, Task>, bound: nat)
  {
    && (forall u :: u in tasks ==> tasks[u].uuid == u && u < bound)
    && (forall u :: u in tasks && tasks[u].callback.CancelOf? ==> tasks[u].callback.original.uuid < u)
  }

  lemma RemovalKeepsTasksValid(tasks: map<Uuid, Task>, bound: nat, ids: set<Uuid>)
    requires TasksValid(tasks, bound)
    ensures TasksValid(tasks - ids, bound)
  {
  }

  predicate Linked(c: map<Uuid, Task>, bound: nat)
  {
    forall u :: u in c ==> u < c[u].uuid < bound
  }

  function Chain(c: map<Uuid, Task>, t: Task, bound: nat): (r: seq<Task>)
    requires Linked(c, bound) && t.uuid < bound
    ensures r != [] && r[0] == t
    ensures t.uuid !in c ==> r == [t]
    decreases bound - t.uuid
  {
    if t.uuid in c then [t] + Chain(c, c[t.uuid], bound) else [t]
  }

  function Ids(ts: seq<Task>): set<Uuid>
  {
    set i | 0 <= i < |ts| :: ts[i].uuid
  }

  lemma IdsCons(t: Task, rest: seq<Task>)
    ensures Ids([t] + rest) == {t.uuid} + Ids(rest)
  {
    var chain := [t] + rest;
    forall x
      ensures x in Ids(chain) <==> x in {t.uuid} + Ids(rest)
    {
      if x in Ids(chain) {
        var i :| 0 <= i < |chain| && chain[i].uuid == x;
        if i > 0 { assert rest[i - 1].uuid == x; }
      }
      if x in Ids(rest) {
        var i :| 0 <= i < |rest| && rest[i].uuid == x;
        assert chain[i + 1].uuid == x;
      }
    }
  }

  lemma ChainStep(c: map<Uuid, Task>, t: Task, bound: nat)
    requires Linked(c, bound) && t.uuid < bound
    ensures t.uuid in c ==> Chain(c, t, bound)[1..] == Chain(c, c[t.uuid], bound)
    ensures t.uuid !in c ==> Ids(Chain(c, t, bound)) == {t.uuid}
  {
    if t.uuid !in c {
      IdsCons(t, []);
      assert [t] + [] == [t];
    }
  }

  /** Cancelling a lone task whose disposer does not raise. */
  lemma CancelSingle(t: Task, live: set<nat>)
    requires !Dispose(t.disposed, live).raised
    ensures var d := Dispose(t.disposed, live);
            CancelAll([t], live) == Cancelled(1, d.effects, d.live, false)
  {
    var d := Dispose(t.disposed, live);
    assert [t][1..] == [];
    assert CancelAll([], d.live) == Cancelled(0, [], d.live, false);
    assert d.effects + [] == d.effects;
  }

  /** A chain of distinct expiring tasks whose timers are all live is
      cancelled without raising, and leaves none of those timers live. */
  lemma {:induction false} CancelLiveChain(ts: seq<Task>, live: set<nat>)
    requires forall i :: 0 <= i < |ts| && ts[i].disposed.Expirable? ==> ts[i].disposed.timer in live
    requires forall i, j :: 0 <= i < j < |ts| && ts[i].disposed.Expirable? && ts[j].disposed.Expirable? ==>
               ts[i].disposed.timer != ts[j].disposed.timer
    ensures !CancelAll(ts, live).raised
    decreases |ts|
  {
    if ts != [] {
      var d := Dispose(ts[0].disposed, live);
      assert forall i :: 0 <= i < |ts[1..]| ==> ts[1..][i] == ts[i + 1];
      CancelLiveChain(ts[1..], d.live);
    }
  }

  /** Cancelling an expiring task twice raises the second time: its wrapper
      finds its timer gone, after running its `disposed` callback again. */
  lemma CancelTwiceRaises(t: Task, live: set<nat>)
    requires t.disposed.Expirable? && t.disposed.timer in live
    ensures var once := CancelAll([t], live);
            && !once.raised
            && CancelAll([t], once.live) == Cancelled(1, InnerEffects(t.disposed.inner), once.live, true)
  {
    CancelSingle(t, live);
  }

  /** Pressing an expiring cancellation button raises: the original's chain
      reaches the cancellation task and unregisters its timer, so cancelling
      the cancellation task again after its callback finds the timer gone,
      unless the first chain raised already. */
  lemma CancelButtonRaises(c: map<Uuid, Task>, orig: Task, bound: nat, live: set<nat>)
    requires Linked(c, bound) && orig.uuid < bound && orig.uuid in c && c[orig.uuid].disposed.Expirable?
    ensures var o1 := CancelAll(Chain(c, orig, bound), live);
            o1.raised || CancelAll(Chain(c, c[orig.uuid], bound), o1.live).raised
  {
    var first := Chain(c, orig, bound);
    ChainStep(c, orig, bound);
    assert first[1] == c[orig.uuid];
  }

  /** What the handler reports back besides its effects: the ValueError of
      callback data that holds no uuid, and the ValueError an expiring
      task's wrapper raises when its timer is already gone. */
  datatype HandleError = InvalidUuid | TimerGone

  class CallbackQueryTaskManager {
    var tasks: map<Uuid, Task>
    var cancellations: map<Uuid, Task>
    /** The timers still registered in `_expire_tasks`, by task uuid. */
    var expiring: set<nat>
    const queryPrefix: string
    const errorAnswer: Option<string>
    var nextUuid: nat
    var log: seq<Effect>

    predicate Valid()
      reads this
    {
      TasksValid(tasks, nextUuid) && Linked(cancellations, nextUuid)
    }

    /** `query_prefix` defaults to "task/". */
    constructor(queryPrefix: string, errorAnswer: Option<string>)
      ensures Valid()
      ensures tasks == map[] && cancellations == map[] && expiring == {} && log == []
      ensures this.queryPrefix == queryPrefix && this.errorAnswer == errorAnswer
    {
      tasks := map[];
      cancellations := map[];
      expiring := {};
      this.queryPrefix := queryPrefix;
      this.errorAnswer := errorAnswer;
      nextUuid := 0;
      log := [];
    }

    method NewTask(callback: Callback, customFilters: seq<CustomFilter>, description: Option<string>,
                   fallbackAnswer: string, disposable: bool, expiredAfter: Option<int>, disposed: Option<nat>, now: int)
      returns (t: Task)
      requires Valid()
      requires callback.CancelOf? ==> callback.original.uuid < nextUuid
      modifies this
      ensures Valid()
      ensures t.uuid == old(nextUuid) && nextUuid == old(nextUuid) + 1
      ensures t.uuid !in old(tasks) && tasks == old(tasks)[t.uuid := t]
      ensures t.callback == callback && t.disposable == disposable && t.description == description
      ensures t.filters == UnifyFilters(customFilters, fallbackAnswer) && t.queryPrefix == queryPrefix
      ensures expiredAfter.Some? && expiredAfter.value != 0 ==>
                && t.expiredOn == Some(now + expiredAfter.value) && t.disposed == Expirable(t.uuid, disposed)
                && expiring == old(expiring) + {t.uuid}
      ensures !(expiredAfter.Some? && expiredAfter.value != 0) ==>
                && t.expiredOn.None? && t.disposed == (if disposed.Some? then Plain(disposed.value) else NoDisposer)
                && expiring == old(expiring)
      ensures cancellations == old(cancellations) && log == old(log)
    {
      var filters := UnifyFilters(customFilters, fallbackAnswer);
      var uuid := nextUuid;
      nextUuid := nextUuid + 1;
      if expiredAfter.Some? && expiredAfter.value != 0 {
        t := Task(uuid, description, disposable, callback, filters, queryPrefix,
                  Some(now + expiredAfter.value), Expirable(uuid, disposed));
        expiring := expiring + {uuid};
      } else {
        t := Task(uuid, description, disposable, callback, filters, queryPrefix, None,
                  if disposed.Some? then Plain(disposed.value) else NoDisposer);
      }
      tasks := tasks[uuid := t];
    }

    /** `create_task` with a user callback. */
    method CreateTask(callback: nat, customFilters: seq<CustomFilter>, description: Option<string>,
                      fallbackAnswer: string, disposable: bool, expiredAfter: Option<int>, disposed: Option<nat>, now: int)
      returns (t: Task)
      requires Valid()
      modifies this
      ensures Valid()
      ensures t.uuid !in old(tasks) && tasks == old(tasks)[t.uuid := t]
      ensures t.callback == User(callback) && t.disposable == disposable
      ensures t.filters == UnifyFilters(customFilters, fallbackAnswer)
      ensures QueryUuid(queryPrefix, CallbackData(t)) == Some(t.uuid)
      ensures t.expiredOn == (if expiredAfter.Some? && expiredAfter.value != 0 then Some(now + expiredAfter.value) else None)
      ensures expiring == (if t.expiredOn.Some? then old(expiring) + {t.uuid} else old(expiring))
      ensures cancellations == old(cancellations) && log == old(log)
    {
      t := NewTask(User(callback), customFilters, description, fallbackAnswer, disposable, expiredAfter, disposed, now);
      QueryUuidOfCallbackData(t);
    }

    /** `cancel_task`: the chain is cancelled task by task; a disposer that
        raises stops it there, the raising task already dropped. */
    method CancelTask(t: Task) returns (r: Result<(), HandleError>)
      requires Valid() && t.uuid < nextUuid
      modifies this
      ensures Valid()
      ensures cancellations == old(cancellations) && nextUuid == old(nextUuid)
      ensures var chain := Chain(cancellations, t, nextUuid);
              var o := CancelAll(chain, old(expiring));
              && tasks == old(tasks) - Ids(chain[..o.reached])
              && log == old(log) + o.effects
              && expiring == o.live
              && r == (if o.raised then Err(TimerGone) else Ok(()))
      decreases nextUuid - t.uuid
    {
      ghost var tasks0, log0, live0 := tasks, log, expiring;
      var chain := Chain(cancellations, t, nextUuid);
      RemovalKeepsTasksValid(tasks, nextUuid, {t.uuid});
      tasks := tasks - {t.uuid};
      var d := Dispose(t.disposed, expiring);
      log := log + d.effects;
      expiring := d.live;
      if d.raised {
        assert chain[..1] == [t];
        IdsCons(t, []);
        assert [t] + [] == [t];
        return Err(TimerGone);
      }
      if t.uuid in cancellations {
        r := CancelTask(cancellations[t.uuid]);
        CancelThenChain(tasks0, log0, live0, t, cancellations, nextUuid, tasks, log, expiring);
      } else {
        ChainStep(cancellations, t, nextUuid);
        CancelSingle(t, live0);
        assert chain[..1] == chain;
        r := Ok(());
      }
    }

    /** `create_cancellation_task`: at most one per task (the assertion fails
        otherwise); without custom filters the cancellation task keeps the
        original's filters and their answers. */
    method CreateCancellationTask(t: Task, customFilters: Option<seq<CustomFilter>>, post: Option<nat>,
                                  fallbackAnswer: string, cancelledAnswer: Option<string>, now: int)
      returns (r: Option<Task>)
      requires Valid() && t.uuid < nextUuid
      modifies this
      ensures Valid()
      ensures t.uuid in old(cancellations) ==>
                r.None? && tasks == old(tasks) && cancellations == old(cancellations) && expiring == old(expiring)
      ensures t.uuid !in old(cancellations) ==>
                && r.Some? && r.value.uuid !in old(tasks)
                && tasks == old(tasks)[r.value.uuid := r.value]
                && cancellations == old(cancellations)[t.uuid := r.value]
                && r.value.callback == CancelOf(t, post, cancelledAnswer) && r.value.disposable
                && r.value.filters == (if customFilters.None? then t.filters
                                       else UnifyFilters(customFilters.value, fallbackAnswer))
                && r.value.expiredOn == (if t.expiredOn.Some? && t.expiredOn.value != now then t.expiredOn else None)
                && r.value.disposed == (if r.value.expiredOn.Some? then Expirable(r.value.uuid, None) else NoDisposer)
                && expiring == (if r.value.expiredOn.Some? then old(expiring) + {r.value.uuid} else old(expiring))
      ensures log == old(log)
    {
      if t.uuid in cancellations {
        return None;
      }
      var after := if t.expiredOn.Some? then Some(t.expiredOn.value - now) else None;
      var filters := if customFilters.None? then Rewrap(t.filters) else customFilters.value;
      UnifyRewrap(t.filters, fallbackAnswer);
      var c := NewTask(CancelOf(t, post, cancelledAnswer), filters, None, fallbackAnswer, true, after, None, now);
      cancellations := cancellations[t.uuid := c];
      r := Some(c);
    }

    /** The `cancel` closure of a cancellation task: cancel the original
        task, run `post_callback` if given, then answer; an error from the
        cancellation propagates and skips both. */
    method RunCancel(original: Task, post: Option<nat>, cancelledAnswer: Option<string>)
      returns (r: Result<(), HandleError>)
      requires Valid() && original.uuid < nextUuid
      modifies this
      ensures Valid()
      ensures cancellations == old(cancellations) && nextUuid == old(nextUuid)
      ensures var chain := Chain(cancellations, original, nextUuid);
              var o := CancelAll(chain, old(expiring));
              && tasks == old(tasks) - Ids(chain[..o.reached])
              && expiring == o.live
              && r == (if o.raised then Err(TimerGone) else Ok(()))
              && log == old(log) + o.effects
                        + (if o.raised then []
                           else (if post.Some? then [RanPost(post.value)] else []) + [Answered(cancelledAnswer)])
    {
      r := CancelTask(original);
      if r.Err? {
        return;
      }
      ghost var log1 := log;
      if post.Some? {
        log := log + [RanPost(post.value)];
      }
      log := log + [Answered(cancelledAnswer)];
      AppendAssoc(log1, if post.Some? then [RanPost(post.value)] else [], [Answered(cancelledAnswer)]);
    }

    /** A task whose filters all passed: its callback runs, and a disposable
        task is then cancelled whatever the callback returned. An error from
        a cancellation propagates. Pressing an expiring cancellation button
        always ends in that error. */
    method RunTask(t: Task) returns (r: Result<(), HandleError>)
      requires Valid() && t.uuid < nextUuid
      requires t.callback.CancelOf? ==> t.callback.original.uuid < nextUuid
      modifies this
      ensures Valid()
      ensures cancellations == old(cancellations) && nextUuid == old(nextUuid)
      ensures Ran(t, cancellations, nextUuid, old(tasks), old(log), old(expiring), tasks, log, expiring, r)
      ensures && t.disposable && t.disposed.Expirable? && t.callback.CancelOf?
              && t.callback.original.uuid in cancellations && cancellations[t.callback.original.uuid] == t
              ==> r == Err(TimerGone)
    {
      if t.callback.User? {
        log := log + [RanCallback(t.callback.id)];
        r := Ok(());
        if t.disposable {
          r := CancelTask(t);
        }
      } else {
        r := RunCancellation(t);
      }
    }

    /** `RunTask` for a cancellation task. */
    method RunCancellation(t: Task) returns (r: Result<(), HandleError>)
      requires Valid() && t.uuid < nextUuid
      requires t.callback.CancelOf? && t.callback.original.uuid < nextUuid
      modifies this
      ensures Valid()
      ensures cancellations == old(cancellations) && nextUuid == old(nextUuid)
      ensures CancellationRan(Chain(cancellations, t.callback.original, nextUuid), Chain(cancellations, t, nextUuid),
                              t.disposable, t.callback.post, t.callback.cancelledAnswer,
                              old(tasks), old(log), old(expiring), tasks, log, expiring, r)
      ensures && t.disposable && t.disposed.Expirable?
              && t.callback.original.uuid in cancellations && cancellations[t.callback.original.uuid] == t
              ==> r == Err(TimerGone)
    {
      var original := t.callback.original;
      var first := Chain(cancellations, original, nextUuid);
      var chain := Chain(cancellations, t, nextUuid);
      ghost var tasks0, log0, live0 := tasks, log, expiring;
      ghost var o1 := CancelAll(first, live0);
      ghost var posted := if t.callback.post.Some? then [RanPost(t.callback.post.value)] else [];
      r := RunCancel(original, t.callback.post, t.callback.cancelledAnswer);
      if original.uuid in cancellations && cancellations[original.uuid] == t && t.disposed.Expirable? {
        CancelButtonRaises(cancellations, original, nextUuid, live0);
      }
      if r.Err? {
        assert log0 + o1.effects + [] == log0 + o1.effects;
        return;
      }
      assert first[..o1.reached] == first;
      AppendAssoc(log0 + o1.effects, posted, [Answered(t.callback.cancelledAnswer)]);
      if t.disposable {
        ghost var log1 := log;
        ghost var o2 := CancelAll(chain, o1.live);
        r := CancelTask(t);
        assert log == log1 + o2.effects;
      }
    }

    /** `_handle_callback_query_task`: callback data without a uuid raises;
        an unknown uuid gets the error answer; the first failing filter's
        answer is sent and nothing runs; otherwise the task runs. */
    method Dispatch(data: string, passes: nat -> bool) returns (r: Result<(), HandleError>)
      requires Valid()
      modifies this
      ensures Valid()
      ensures cancellations == old(cancellations) && nextUuid == old(nextUuid)
      ensures r == Err(InvalidUuid) <==> QueryUuid(queryPrefix, data).None?
      ensures QueryUuid(queryPrefix, data).None? ==>
                tasks == old(tasks) && log == old(log) && expiring == old(expiring)
      ensures QueryUuid(queryPrefix, data).Some? && QueryUuid(queryPrefix, data).value !in old(tasks) ==>
                && r.Ok? && tasks == old(tasks) && expiring == old(expiring)
                && log == old(log) + [Answered(errorAnswer)]
      ensures QueryUuid(queryPrefix, data).Some? && QueryUuid(queryPrefix, data).value in old(tasks) ==>
                var t := old(tasks)[QueryUuid(queryPrefix, data).value];
                var failing := FirstFailing(t.filters, passes);
                && (failing.Some? ==>
                      && r.Ok? && tasks == old(tasks) && expiring == old(expiring)
                      && log == old(log) + [Answered(Some(t.filters[failing.value].1))])
                && (failing.None? ==>
                      Ran(t, cancellations, nextUuid, old(tasks), old(log), old(expiring), tasks, log, expiring, r))
                && (&& failing.None? && t.disposable && t.disposed.Expirable? && t.callback.CancelOf?
                    && t.callback.original.uuid in cancellations && cancellations[t.callback.original.uuid] == t
                    ==> r == Err(TimerGone))
    {
      var uuid := QueryUuid(queryPrefix, data);
      if uuid.None? {
        return Err(InvalidUuid);
      }
      if uuid.value !in tasks {
        log := log + [Answered(errorAnswer)];
        return Ok(());
      }
      var t := tasks[uuid.value];
      var failed := CheckFilters(t.filters, passes);
      if failed.Some? {
        log := log + [Answered(Some(failed.value))];
        return Ok(());
      }
      r := RunTask(t);
    }
  }

  /** The outcome of running a task whose filters passed, from the table,
      log and live timers before to those after. A user callback is logged
      and then, for a disposable task, the task's chain is cancelled. A
      cancellation task cancels its original's chain; when that raises, the
      handler stops there; otherwise `post_callback` and the answer follow,
      and then, for a disposable task, its own chain is cancelled. */
  ghost predicate Ran(t: Task, c: map<Uuid, Task>, bound: nat,
                      tasks0: map<Uuid, Task>, log0: seq<Effect>, live0: set<nat>,
                      tasks: map<Uuid, Task>, log: seq<Effect>, live: set<nat>, r: Result<(), HandleError>)
    requires Linked(c, bound) && t.uuid < bound
    requires t.callback.CancelOf? ==> t.callback.original.uuid < bound
  {
    var chain := Chain(c, t, bound);
    match t.callback
    case User(id) =>
      var o := CancelAll(chain, live0);
      && tasks == (if t.disposable then tasks0 - Ids(chain[..o.reached]) else tasks0)
      && log == log0 + [RanCallback(id)] + (if t.disposable then o.effects else [])
      && live == (if t.disposable then o.live else live0)
      && r == (if t.disposable && o.raised then Err(TimerGone) else Ok(()))
    case CancelOf(original, post, cancelledAnswer) =>
      CancellationRan(Chain(c, original, bound), chain, t.disposable, post, cancelledAnswer,
                      tasks0, log0, live0, tasks, log, live, r)
  }

  /** `Ran` for a cancellation task, given the chain of its original and its own. */
  ghost predicate CancellationRan(first: seq<Task>, chain: seq<Task>, disposable: bool,
                                  post: Option<nat>, cancelledAnswer: Option<string>,
                                  tasks0: map<Uuid, Task>, log0: seq<Effect>, live0: set<nat>,
                                  tasks: map<Uuid, Task>, log: seq<Effect>, live: set<nat>, r: Result<(), HandleError>)
  {
    var o1 := CancelAll(first, live0);
    var o2 := CancelAll(chain, o1.live);
    if o1.raised then
      && tasks == tasks0 - Ids(first[..o1.reached])
      && log == log0 + o1.effects
      && live == o1.live
      && r == Err(TimerGone)
    else
      && tasks == (if disposable then (tasks0 - Ids(first)) - Ids(chain[..o2.reached]) else tasks0 - Ids(first))
      && log == log0 + o1.effects + (if post.Some? then [RanPost(post.value)] else []) + [Answered(cancelledAnswer)]
                + (if disposable then o2.effects else [])
      && live == (if disposable then o2.live else o1.live)
      && r == (if disposable && o2.raised then Err(TimerGone) else Ok(()))
  }
}
