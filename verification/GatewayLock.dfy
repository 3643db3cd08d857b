/**
 `withGatewayLock`: one push at a time per gateway, by chaining promises in a map. The event
 loop may take any enabled microtask next, so the lock is a state machine over those steps; a
 task is one call, numbered in call order, and a promise is a number never handed out twice.
 */
module GatewayLock {
  import opened Wrappers

  type Gateway = int
  type PromiseId = nat

  datatype Phase = Waiting | Running | Fulfilled | Rejected

  /**
   `previous` is what its `then` waits for (`None`: an already resolved promise), `guard`
   the `run.catch(...)` stored in the map for whoever comes next.
   */
  datatype Task = Task(gateway: Gateway, previous: Option<PromiseId>, guard: PromiseId,
                       phase: Phase, guardSettled: bool, returned: bool)

  datatype State = State(tasks: seq<Task>, locks: map<Gateway, PromiseId>, nextId: PromiseId)

  const INITIAL := State([], map[], 0)

  /**
   `Call`: the synchronous part of a call. `Start`: the awaited promise settled, so `fn` runs.
   `Settle`: `fn` returned or threw. `PassOn`: the guard settles. `Return`: the caller resumes
   and runs the `finally` block.
   */
  datatype Step =
    | Call(gateway: Gateway)
    | Start(task: nat)
    | Settle(task: nat, ok: bool)
    | PassOn(task: nat)
    | Return(task: nat)

  predicate Done(t: Task) {
    t.phase == Fulfilled || t.phase == Rejected
  }

  predicate PromiseSettled(s: State, p: Option<PromiseId>) {
    p.None? || exists k :: 0 <= k < |s.tasks| && s.tasks[k].guard == p.value && s.tasks[k].guardSettled
  }

  predicate Enabled(s: State, step: Step) {
    match step
    case Call(_) => true
    case Start(i) => i < |s.tasks| && s.tasks[i].phase == Waiting && PromiseSettled(s, s.tasks[i].previous)
    case Settle(i, _) => i < |s.tasks| && s.tasks[i].phase == Running
    case PassOn(i) => i < |s.tasks| && Done(s.tasks[i]) && !s.tasks[i].guardSettled
    case Return(i) => i < |s.tasks| && Done(s.tasks[i]) && !s.tasks[i].returned
  }

  function Apply(s: State, step: Step): State {
    if !Enabled(s, step) then s
    else match step
      case Call(g) =>
        var previous := if g in s.locks then Some(s.locks[g]) else None;
        State(s.tasks + [Task(g, previous, s.nextId, Waiting, false, false)], s.locks[g := s.nextId], s.nextId + 1)
      case Start(i) =>
        s.(tasks := s.tasks[i := s.tasks[i].(phase := Running)])
      case Settle(i, ok) =>
        s.(tasks := s.tasks[i := s.tasks[i].(phase := if ok then Fulfilled else Rejected)])
      case PassOn(i) =>
        s.(tasks := s.tasks[i := s.tasks[i].(guardSettled := true)])
      case Return(i) =>
        // The comparison builds a promise of its own, so it takes a number of its own.
        var g := s.tasks[i].gateway;
        var compared := s.nextId;
        State(s.tasks[i := s.tasks[i].(returned := true)],
              if g in s.locks && s.locks[g] == compared then s.locks - {g} else s.locks,
              s.nextId + 1)
  }

  /** The state after a run: any sequence of steps, those not enabled changing nothing. */
  function After(steps: seq<Step>): State {
    if steps == [] then INITIAL else Apply(After(steps[..|steps| - 1]), steps[|steps| - 1])
  }

  // ─── Invariant ─────────────────────────────────────────────────────────────────────

  /** The last of the first `n` tasks on gateway `g`. */
  function LastOn(tasks: seq<Task>, n: nat, g: Gateway): (last: Option<nat>)
    requires n <= |tasks|
    ensures last.Some? ==> last.value < n && tasks[last.value].gateway == g
    ensures forall k :: 0 <= k < n && tasks[k].gateway == g ==> last.Some? && k <= last.value
  {
    if n == 0 then None else if tasks[n - 1].gateway == g then Some(n - 1) else LastOn(tasks, n - 1, g)
  }

  /** A task waits for the guard of the last task called before it on the same gateway. */
  ghost predicate Chained(tasks: seq<Task>, i: nat)
    requires i < |tasks|
  {
    match LastOn(tasks, i, tasks[i].gateway)
    case None => tasks[i].previous == None
    case Some(k) =>
      && tasks[i].previous == Some(tasks[k].guard)
      && (tasks[i].phase != Waiting ==> tasks[k].guardSettled)
  }

  /** The map's entry for a gateway is the guard of its last task. */
  ghost predicate Points(s: State, g: Gateway) {
    match LastOn(s.tasks, |s.tasks|, g)
    case None => g !in s.locks
    case Some(k) => g in s.locks && s.locks[g] == s.tasks[k].guard
  }

  ghost predicate GuardsDistinct(s: State) {
    && (forall i :: 0 <= i < |s.tasks| ==> s.tasks[i].guard < s.nextId)
    && (forall i, j :: 0 <= i < j < |s.tasks| ==> s.tasks[i].guard != s.tasks[j].guard)
  }

  ghost predicate Inv(s: State) {
    && GuardsDistinct(s)
    && (forall i :: 0 <= i < |s.tasks| && (s.tasks[i].guardSettled || s.tasks[i].returned) ==> Done(s.tasks[i]))
    && (forall i :: 0 <= i < |s.tasks| ==> Chained(s.tasks, i))
    && (forall g :: Points(s, g))
  }

  /** Two task lists that agree on gateways agree on who was last. */
  lemma {:induction false} SameLast(a: seq<Task>, b: seq<Task>, n: nat, g: Gateway)
    requires n <= |a| && n <= |b|
    requires forall i :: 0 <= i < n ==> a[i].gateway == b[i].gateway
    ensures LastOn(a, n, g) == LastOn(b, n, g)
  {
    if n > 0 {
      SameLast(a, b, n - 1, g);
    }
  }

  lemma InvCall(s: State, g: Gateway)
    requires Inv(s)
    ensures Inv(Apply(s, Call(g)))
  {
    var s' := Apply(s, Call(g));
    forall i | 0 <= i < |s'.tasks| ensures Chained(s'.tasks, i) {
      assert Points(s, g);
      SameLast(s.tasks, s'.tasks, i, s'.tasks[i].gateway);
      assert i < |s.tasks| ==> Chained(s.tasks, i);
    }
    forall h ensures Points(s', h) {
      assert Points(s, h);
      SameLast(s.tasks, s'.tasks, |s.tasks|, h);
    }
    assert GuardsDistinct(s');
  }

  /** A step that touches one existing task keeps everything, provided what it changed is justified. */
  lemma InvUpdate(s: State, s': State, i: nat)
    requires Inv(s) && i < |s.tasks|
    requires s'.locks == s.locks && s'.nextId >= s.nextId
    requires |s'.tasks| == |s.tasks| && s'.tasks == s.tasks[i := s'.tasks[i]]
    requires var t, t' := s.tasks[i], s'.tasks[i];
             && t'.gateway == t.gateway && t'.guard == t.guard && t'.previous == t.previous
             && (t.guardSettled ==> t'.guardSettled)
             && (t'.guardSettled || t'.returned ==> Done(t'))
             && (t'.phase != Waiting ==> t.phase != Waiting || PromiseSettled(s, t.previous))
    ensures Inv(s')
  {
    forall j | 0 <= j < |s'.tasks| ensures Chained(s'.tasks, j) {
      SameLast(s.tasks, s'.tasks, j, s'.tasks[j].gateway);
      assert Chained(s.tasks, j);
    }
    forall g ensures Points(s', g) {
      assert Points(s, g);
      SameLast(s.tasks, s'.tasks, |s.tasks|, g);
    }
  }

  lemma InvStep(s: State, step: Step)
    requires Inv(s)
    ensures Inv(Apply(s, step))
  {
    if Enabled(s, step) {
      if step.Call? {
        InvCall(s, step.gateway);
      } else {
        if step.Return? {
          var g := s.tasks[step.task].gateway;
          assert Points(s, g);
        }
        InvUpdate(s, Apply(s, step), step.task);
      }
    }
  }

  lemma {:induction false} InvAlways(steps: seq<Step>)
    ensures Inv(After(steps))
  {
    if steps != [] {
      InvAlways(steps[..|steps| - 1]);
      InvStep(After(steps[..|steps| - 1]), steps[|steps| - 1]);
    }
  }

  // ─── Order and exclusion ───────────────────────────────────────────────────────────

  lemma {:induction false} EarlierDone(s: State, i: nat, j: nat)
    requires Inv(s) && i < j < |s.tasks| && s.tasks[i].gateway == s.tasks[j].gateway
    requires s.tasks[j].phase != Waiting
    ensures Done(s.tasks[i])
    decreases j
  {
    assert Chained(s.tasks, j);
    var k := LastOn(s.tasks, j, s.tasks[j].gateway).value;
    if k != i {
      EarlierDone(s, i, k);
    }
  }

  /**
   First come, first served on each gateway, whatever the interleaving: a task that has started
   leaves no earlier task of its gateway unfinished.
   */
  lemma FirstCome(steps: seq<Step>, i: nat, j: nat)
    requires var tasks := After(steps).tasks;
             i < j < |tasks| && tasks[i].gateway == tasks[j].gateway && tasks[j].phase != Waiting
    ensures Done(After(steps).tasks[i])
  {
    InvAlways(steps);
    EarlierDone(After(steps), i, j);
  }

  /** No two tasks of one gateway ever run at the same time. */
  lemma MutualExclusion(steps: seq<Step>, i: nat, j: nat)
    requires var tasks := After(steps).tasks;
             i < |tasks| && j < |tasks| && tasks[i].gateway == tasks[j].gateway
             && tasks[i].phase == Running && tasks[j].phase == Running
    ensures i == j
  {
    if i < j {
      FirstCome(steps, i, j);
    } else if j < i {
      FirstCome(steps, j, i);
    }
  }

  // ─── Progress ──────────────────────────────────────────────────────────────────────

  /** Task `k` is running, or a step that brings it or its successor on is enabled. */
  predicate CanMove(s: State, k: nat)
    requires k < |s.tasks|
  {
    s.tasks[k].phase == Running || Enabled(s, Start(k)) || Enabled(s, PassOn(k))
  }

  /**
   While a task of a gateway is unfinished, that gateway itself has a task running or able to
   move: it never waits for another gateway, and a predecessor that threw does not hold it up.
   */
  lemma {:induction false} GatewayMoves(s: State, i: nat) returns (k: nat)
    requires Inv(s) && i < |s.tasks| && !Done(s.tasks[i])
    ensures k <= i && s.tasks[k].gateway == s.tasks[i].gateway
    ensures CanMove(s, k)
    decreases i
  {
    k := i;
    assert Chained(s.tasks, i);
    match LastOn(s.tasks, i, s.tasks[i].gateway)
    case None =>
    case Some(p) =>
      if s.tasks[i].phase == Waiting && !s.tasks[p].guardSettled {
        if Done(s.tasks[p]) {
          k := p;
        } else {
          k := GatewayMoves(s, p);
        }
      }
  }

  /** Every queued task runs if tasks finish: a state nothing can leave has no unfinished task. */
  lemma NothingLeftBehind(steps: seq<Step>)
    requires forall k :: 0 <= k < |After(steps).tasks| ==> !CanMove(After(steps), k)
    ensures forall i :: 0 <= i < |After(steps).tasks| ==> Done(After(steps).tasks[i])
  {
    InvAlways(steps);
    var s := After(steps);
    forall i | 0 <= i < |s.tasks| ensures Done(s.tasks[i]) {
      if !Done(s.tasks[i]) {
        var k := GatewayMoves(s, i);
        assert false;
      }
    }
  }

  function StepsLeft(t: Task): nat {
    (match t.phase case Waiting => 2 case Running => 1 case _ => 0)
    + (if t.guardSettled then 0 else 1) + (if t.returned then 0 else 1)
  }

  function TotalLeft(tasks: seq<Task>): nat {
    if tasks == [] then 0 else TotalLeft(tasks[..|tasks| - 1]) + StepsLeft(tasks[|tasks| - 1])
  }

  lemma {:induction false} TotalUpdate(tasks: seq<Task>, i: nat, t: Task)
    requires i < |tasks|
    ensures TotalLeft(tasks[i := t]) == TotalLeft(tasks) - StepsLeft(tasks[i]) + StepsLeft(t)
  {
    var n := |tasks| - 1;
    if i == n {
      assert tasks[i := t][..n] == tasks[..n];
    } else {
      assert tasks[i := t][..n] == tasks[..n][i := t];
      TotalUpdate(tasks[..n], i, t);
    }
  }

  /** Every step but a new call uses up one of the four steps each task ever takes. */
  lemma StepsRunOut(s: State, step: Step)
    requires Enabled(s, step) && !step.Call?
    ensures TotalLeft(Apply(s, step).tasks) == TotalLeft(s.tasks) - 1
  {
    TotalUpdate(s.tasks, step.task, Apply(s, step).tasks[step.task]);
  }

  /** Every step of `more` is enabled when it is taken, and none calls a task. */
  ghost predicate Drains(steps: seq<Step>, more: seq<Step>) {
    forall k :: 0 <= k < |more| ==> MovesAt(steps, more, k)
  }

  predicate MovesAt(steps: seq<Step>, more: seq<Step>, k: nat)
    requires k < |more|
  {
    Moves(After(steps + more[..k]), more[k])
  }

  predicate Moves(s: State, step: Step) {
    !step.Call? && Enabled(s, step)
  }

  lemma AfterSnoc(steps: seq<Step>, more: seq<Step>, n: nat)
    requires |more| == n + 1
    ensures After(steps + more) == Apply(After(steps + more[..n]), more[n])
  {
    assert (steps + more)[..|steps + more| - 1] == steps + more[..n];
  }

  lemma DrainsInit(steps: seq<Step>, more: seq<Step>, n: nat)
    requires n <= |more| && Drains(steps, more)
    ensures Drains(steps, more[..n])
  {
    forall k | 0 <= k < n ensures MovesAt(steps, more[..n], k) {
      assert MovesAt(steps, more, k);
      assert more[..n][..k] == more[..k];
    }
  }

  lemma {:induction false} DrainCounts(steps: seq<Step>, more: seq<Step>)
    requires Drains(steps, more)
    ensures TotalLeft(After(steps + more).tasks) == TotalLeft(After(steps).tasks) - |more|
    decreases |more|
  {
    if more == [] {
      assert steps + more == steps;
    } else {
      var n := |more| - 1;
      assert MovesAt(steps, more, n);
      DrainsInit(steps, more, n);
      DrainCounts(steps, more[..n]);
      AfterSnoc(steps, more, n);
      StepsRunOut(After(steps + more[..n]), more[n]);
    }
  }

  predicate Finished(t: Task) {
    Done(t) && t.guardSettled && t.returned
  }

  lemma {:induction false} NoneLeft(tasks: seq<Task>)
    ensures TotalLeft(tasks) == 0 <==> AllFinished(tasks)
  {
    if tasks != [] {
      NoneLeft(tasks[..|tasks| - 1]);
    }
  }

  /** Only new calls are possible. */
  ghost predicate Idle(s: State) {
    forall step :: !Moves(s, step)
  }

  predicate AllFinished(tasks: seq<Task>) {
    forall i :: 0 <= i < |tasks| ==> Finished(tasks[i])
  }

  lemma IdleWhenFinished(s: State)
    requires AllFinished(s.tasks)
    ensures Idle(s)
  {
    forall step ensures !Moves(s, step) {
      if !step.Call? && step.task < |s.tasks| {
        assert Finished(s.tasks[step.task]);
      }
    }
  }

  lemma FinishedWhenIdle(steps: seq<Step>)
    requires Idle(After(steps))
    ensures AllFinished(After(steps).tasks)
  {
    var s := After(steps);
    forall k | 0 <= k < |s.tasks| ensures !CanMove(s, k) {
      assert !Moves(s, Start(k)) && !Moves(s, Settle(k, true)) && !Moves(s, PassOn(k));
    }
    NothingLeftBehind(steps);
    forall i | 0 <= i < |s.tasks| ensures Finished(s.tasks[i]) {
      assert !Moves(s, PassOn(i)) && !Moves(s, Return(i));
    }
  }

  /**
   Draining: without new calls a run can only go on for as many steps as its tasks have left. It
   stops there and nowhere else, whatever order was taken, and then every task has run, let its
   successor go and returned.
   */
  lemma EveryRunDrains(steps: seq<Step>, more: seq<Step>)
    requires Drains(steps, more)
    ensures |more| <= TotalLeft(After(steps).tasks)
    ensures Idle(After(steps + more)) <==> |more| == TotalLeft(After(steps).tasks)
    ensures Idle(After(steps + more)) <==> AllFinished(After(steps + more).tasks)
  {
    DrainCounts(steps, more);
    if Idle(After(steps + more)) {
      FinishedWhenIdle(steps + more);
    } else if AllFinished(After(steps + more).tasks) {
      IdleWhenFinished(After(steps + more));
    }
    NoneLeft(After(steps + more).tasks);
  }

  /** A call is always taken, and waits at the end of the queue. */
  lemma CallQueues(s: State, g: Gateway)
    ensures var after := Apply(s, Call(g));
            && |after.tasks| == |s.tasks| + 1 && after.tasks[..|s.tasks|] == s.tasks
            && after.tasks[|s.tasks|].gateway == g && after.tasks[|s.tasks|].phase == Waiting
            && !after.tasks[|s.tasks|].guardSettled && !after.tasks[|s.tasks|].returned
  {}

  /** How a task ended is how its own function ended, and no later step changes that. */
  lemma OutcomeKept(s: State, step: Step, i: nat)
    requires i < |s.tasks| && Enabled(s, step)
    ensures step == Settle(i, true) ==> Apply(s, step).tasks[i].phase == Fulfilled
    ensures step == Settle(i, false) ==> Apply(s, step).tasks[i].phase == Rejected
    ensures i < |Apply(s, step).tasks| && (Done(s.tasks[i]) ==> Apply(s, step).tasks[i].phase == s.tasks[i].phase)
  {}

  // ─── Outcomes and gateways do not interfere ────────────────────────────────────────

  function Calm(t: Task): Task {
    if t.phase == Rejected then t.(phase := Fulfilled) else t
  }

  /** The same state with every thrown error replaced by a normal return. */
  function CalmState(s: State): State {
    s.(tasks := seq(|s.tasks|, i requires 0 <= i < |s.tasks| => Calm(s.tasks[i])))
  }

  function CalmStep(step: Step): Step {
    if step.Settle? then Settle(step.task, true) else step
  }

  /** A run in which tasks throw goes exactly as the run in which they return. */
  lemma ThrowingChangesNothing(s: State, step: Step)
    ensures Enabled(s, step) <==> Enabled(CalmState(s), CalmStep(step))
    ensures CalmState(Apply(s, step)) == Apply(CalmState(s), CalmStep(step))
  {
    var c := CalmState(s);
    if step.Start? && step.task < |s.tasks| {
      var p := s.tasks[step.task].previous;
      if PromiseSettled(s, p) && p.Some? {
        var k :| 0 <= k < |s.tasks| && s.tasks[k].guard == p.value && s.tasks[k].guardSettled;
        assert c.tasks[k].guard == p.value && c.tasks[k].guardSettled;
      }
    }
    if Enabled(s, step) {
      assert CalmState(Apply(s, step)).tasks == Apply(c, CalmStep(step)).tasks;
    }
  }

  predicate Concerns(s: State, step: Step, g: Gateway) {
    if step.Call? then step.gateway == g else step.task < |s.tasks| && s.tasks[step.task].gateway == g
  }

  /** What a task waits for has settled exactly when its predecessor's guard has. */
  lemma WaitsForPredecessor(s: State, i: nat)
    requires i < |s.tasks| && GuardsDistinct(s) && Chained(s.tasks, i)
    ensures PromiseSettled(s, s.tasks[i].previous) <==>
              match LastOn(s.tasks, i, s.tasks[i].gateway) case None => true case Some(k) => s.tasks[k].guardSettled
  {
    match LastOn(s.tasks, i, s.tasks[i].gateway)
    case None =>
    case Some(k) =>
      if PromiseSettled(s, s.tasks[i].previous) {
        var j :| 0 <= j < |s.tasks| && s.tasks[j].guard == s.tasks[k].guard && s.tasks[j].guardSettled;
        assert j == k;
      }
  }

  /** A step leaves the tasks of every other gateway as they were, and every task on its gateway. */
  lemma OtherTasksKept(s: State, other: Step, h: Gateway, k: nat)
    requires Concerns(s, other, h) && k < |s.tasks|
    ensures k < |Apply(s, other).tasks| && Apply(s, other).tasks[k].gateway == s.tasks[k].gateway
    ensures s.tasks[k].gateway != h ==> Apply(s, other).tasks[k] == s.tasks[k]
  {}

  lemma StartIndependent(s: State, s': State, i: nat)
    requires Inv(s) && Inv(s') && i < |s.tasks| <= |s'.tasks| && s'.tasks[i] == s.tasks[i]
    requires forall k :: 0 <= k < i ==> s'.tasks[k].gateway == s.tasks[k].gateway
    requires forall k :: 0 <= k < i && s.tasks[k].gateway == s.tasks[i].gateway ==> s'.tasks[k] == s.tasks[k]
    ensures PromiseSettled(s, s.tasks[i].previous) <==> PromiseSettled(s', s'.tasks[i].previous)
  {
    assert Chained(s.tasks, i) && Chained(s'.tasks, i);
    WaitsForPredecessor(s, i);
    WaitsForPredecessor(s', i);
    SameLast(s.tasks, s'.tasks, i, s.tasks[i].gateway);
  }

  /** A step of one gateway neither enables nor disables any step of another. */
  lemma GatewaysIndependent(s: State, mine: Step, other: Step, g: Gateway, h: Gateway)
    requires Inv(s) && g != h && Concerns(s, mine, g) && Concerns(s, other, h)
    ensures Enabled(s, mine) <==> Enabled(Apply(s, other), mine)
  {
    if !mine.Call? {
      OtherTasksKept(s, other, h, mine.task);
    }
    if mine.Start? {
      InvStep(s, other);
      forall k | 0 <= k < mine.task
        ensures Apply(s, other).tasks[k].gateway == s.tasks[k].gateway
        ensures s.tasks[k].gateway == g ==> Apply(s, other).tasks[k] == s.tasks[k]
      {
        OtherTasksKept(s, other, h, k);
      }
      StartIndependent(s, Apply(s, other), mine.task);
    }
  }

  /**
   The `finally` comparison is never true, so nothing is ever deleted: the map holds exactly one
   entry for every gateway that ever called.
   */
  lemma NeverCleanedUp(steps: seq<Step>, g: Gateway)
    ensures g in After(steps).locks <==> exists i :: 0 <= i < |After(steps).tasks| && After(steps).tasks[i].gateway == g
    ensures forall i :: 0 <= i < |After(steps).tasks| ==> Apply(After(steps), Return(i)).locks == After(steps).locks
  {
    InvAlways(steps);
    var s := After(steps);
    assert Points(s, g);
    forall i | 0 <= i < |s.tasks| ensures Apply(s, Return(i)).locks == s.locks {
      assert Points(s, s.tasks[i].gateway);
    }
  }
}
