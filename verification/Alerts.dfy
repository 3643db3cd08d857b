/**
 Alert detection and lifecycle (`alerts.service.ts`): folding verdicts into the one alert of a
 condition, and the permitted transitions. Each operation is atomic. The alerts table carries
 the schema's unique index on (dedupeKey, status), so an update that would break it throws.
 */
module Alerts {
  import opened Wrappers
  import opened JsText
  import opened Joined
  import opened Reals
  import opened Severity

  datatype Status = Open | Acknowledged | Investigating | Resolved | Closed

  predicate Active(s: Status) {
    s in {Open, Acknowledged, Investigating}
  }

  function Allowed(s: Status): set<Status> {
    match s
    case Open => {Acknowledged, Investigating, Resolved}
    case Acknowledged => {Investigating, Resolved}
    case Investigating => {Resolved}
    case Resolved => {Closed, Investigating}
    case Closed => {}
  }

  function StatusNumber(s: Status): nat {
    match s case Open => 0 case Acknowledged => 1 case Investigating => 2 case Resolved => 3 case Closed => 4
  }

  /** An alert only moves forward, and is closed from resolved alone; a resolved one may be taken up again. */
  lemma OnlyForward(a: Status, b: Status)
    ensures b in Allowed(a) <==>
              || (StatusNumber(a) < StatusNumber(b) && (b == Closed ==> a == Resolved))
              || (a == Resolved && b == Investigating)
  {}

  datatype Cause = Raised | Escalated | Moved | Assigned

  datatype Event = Event(from: Option<Status>, to: Status, cause: Cause)

  datatype Alert = Alert(tenant: int, dedupeKey: string, severity: Level, confidence: real, status: Status,
                         occurrences: int, lastObservedAt: int, note: Option<string>, assignee: Option<int>,
                           events: seq<Event>)

  datatype Store = Store(alerts: map<nat, Alert>, nextId: nat)

  const EMPTY := Store(map[], 0)

  // ─── Specification of each operation ───────────────────────────────────────────────

  /**
   `prefer`: which of several active alerts of the condition the unordered query returns, if that
   is one of them. `scope`: the caller's tenant; a platform administrator has none.
   */
  datatype Op =
    | Observe(tenant: int, dedupeKey: string, verdict: Verdict, ts: int, prefer: nat)
    | Transition(id: nat, to: Status, note: Option<string>, assignTo: Option<int>, scope: Option<int>)
    | Assign(id: nat, member: int, isMember: bool, scope: Option<int>)

  /** The first active alert of the condition among ids below `n`. */
  function ActiveFor(s: Store, key: string, n: nat): (found: Option<nat>)
    ensures found.Some? ==> var id := found.value;
              id < n && id in s.alerts && s.alerts[id].dedupeKey == key && Active(s.alerts[id].status)
    ensures found.None? ==> forall i: nat ::
                              i < n && i in s.alerts && s.alerts[i].dedupeKey == key ==> !Active(s.alerts[i].status)
  {
    if n == 0 then None
    else if ActiveFor(s, key, n - 1).Some? then ActiveFor(s, key, n - 1)
    else if n - 1 in s.alerts && s.alerts[n - 1].dedupeKey == key && Active(s.alerts[n - 1].status) then Some(n - 1)
    else None
  }

  predicate IsActive(s: Store, key: string, id: nat) {
    id in s.alerts && s.alerts[id].dedupeKey == key && Active(s.alerts[id].status)
  }

  /** The active alert of the condition that the query returns. */
  function Existing(s: Store, key: string, prefer: nat): (found: Option<nat>)
    ensures found.Some? ==> IsActive(s, key, found.value)
    ensures found.None? ==> forall i: nat :: i < s.nextId ==> !IsActive(s, key, i)
  {
    if IsActive(s, key, prefer) then Some(prefer) else ActiveFor(s, key, s.nextId)
  }

  predicate StatusTaken(s: Store, key: string, status: Status, besides: nat) {
    exists j <- s.alerts :: j != besides && s.alerts[j].dedupeKey == key && s.alerts[j].status == status
  }

  predicate Visible(s: Store, id: nat, scope: Option<int>) {
    id in s.alerts && (scope.None? || s.alerts[id].tenant == scope.value)
  }

  predicate HasText(note: Option<string>) {
    note.Some? && Trim(note.value) != ""
  }

  /** Exactly when a requested transition goes through. */
  predicate Moves(s: Store, op: Op) {
    && op.Transition? && Visible(s, op.id, op.scope)
    && op.to in Allowed(s.alerts[op.id].status)
    && (op.to == Resolved ==> HasText(op.note))
    && !StatusTaken(s, s.alerts[op.id].dedupeKey, op.to, op.id)
  }

  function Fold(a: Alert, v: Verdict, ts: int): Alert {
    var escalated := IsEscalation(a.severity, v.severity);
    a.(severity := if escalated then v.severity else a.severity,
       confidence := Max(a.confidence, v.confidence),
       occurrences := a.occurrences + 1,
       lastObservedAt := ts,
       events := a.events + if escalated then [Event(Some(a.status), a.status, Escalated)] else [])
  }

  function Fresh(op: Op): Alert
    requires op.Observe?
  {
    Alert(op.tenant, op.dedupeKey, op.verdict.severity, op.verdict.confidence, Open, 1, op.ts, None, None,
          [Event(None, Open, Raised)])
  }

  function Apply(s: Store, op: Op): Store {
    match op
    case Observe(tenant, key, v, ts, prefer) =>
      (match Existing(s, key, prefer)
       case Some(id) => s.(alerts := s.alerts[id := Fold(s.alerts[id], v, ts)])
       case None => Store(s.alerts[s.nextId := Fresh(op)], s.nextId + 1))
    case Transition(id, to, note, assignTo, _) =>
      if !Moves(s, op) then s
      else
        var a := s.alerts[id];
        s.(alerts := s.alerts[id := a.(
          status := to,
          note := if to == Resolved then Some(Trim(note.value)) else a.note,
          assignee := if assignTo.Some? then assignTo else a.assignee,
          events := a.events + [Event(Some(a.status), to, Moved)])])
    case Assign(id, member, isMember, scope) =>
      if !Visible(s, id, scope) || !isMember then s
      else
        var a := s.alerts[id];
        var given := a.(assignee := Some(member), events := a.events + [Event(Some(a.status), a.status, Assigned)]);
        s.(alerts := s.alerts[id := given])
  }

  function RunFrom(s: Store, ops: seq<Op>): Store {
    if ops == [] then s else Apply(RunFrom(s, ops[..|ops| - 1]), ops[|ops| - 1])
  }

  function After(ops: seq<Op>): Store {
    RunFrom(EMPTY, ops)
  }

  // ─── What every operation keeps ────────────────────────────────────────────────────

  function Escalations(events: seq<Event>): nat {
    if events == [] then 0
    else Escalations(events[..|events| - 1]) + if events[|events| - 1].cause == Escalated then 1 else 0
  }

  /** The trail starts with the raising, each event starts where the last ended, and every change is permitted. */
  ghost predicate Trail(events: seq<Event>, status: Status) {
    && events != [] && events[0] == Event(None, Open, Raised)
    && events[|events| - 1].to == status
    && forall i :: 0 < i < |events| ==>
         && events[i].from == Some(events[i - 1].to)
         && (events[i].to == events[i - 1].to || events[i].to in Allowed(events[i - 1].to))
         && (events[i].cause == Moved <==> events[i].to != events[i - 1].to)
  }

  ghost predicate AlertOk(a: Alert) {
    && Trail(a.events, a.status)
    && (a.status in {Resolved, Closed} ==> a.note.Some? && Trim(a.note.value) == a.note.value != "")
    && Escalations(a.events) <= Order(a.severity)
  }

  /** The unique index: no two alerts share both condition and status. */
  ghost predicate IndexHolds(s: Store) {
    forall i <- s.alerts, j <- s.alerts ::
      s.alerts[i].dedupeKey == s.alerts[j].dedupeKey && s.alerts[i].status == s.alerts[j].status ==> i == j
  }

  ghost predicate Inv(s: Store) {
    && (forall i <- s.alerts :: i < s.nextId && AlertOk(s.alerts[i]))
    && IndexHolds(s)
  }

  lemma TrimTwice(text: string)
    ensures Trim(Trim(text)) == Trim(text)
  {
    TrimIsTrimmed(text);
    TrimNothing(Trim(text));
  }

  lemma TrailGrows(events: seq<Event>, status: Status, e: Event)
    requires Trail(events, status) && e.from == Some(status)
    requires e.to == status || e.to in Allowed(status)
    requires e.cause == Moved <==> e.to != status
    ensures Trail(events + [e], e.to)
    ensures Escalations(events + [e]) == Escalations(events) + if e.cause == Escalated then 1 else 0
  {
    var longer := events + [e];
    assert longer[..|events|] == events;
    forall i | 0 < i < |longer|
      ensures longer[i].from == Some(longer[i - 1].to)
      ensures longer[i].to == longer[i - 1].to || longer[i].to in Allowed(longer[i - 1].to)
      ensures longer[i].cause == Moved <==> longer[i].to != longer[i - 1].to
    {
      assert i < |events| ==> longer[i] == events[i] && longer[i - 1] == events[i - 1];
    }
  }

  lemma FoldOk(a: Alert, v: Verdict, ts: int)
    requires AlertOk(a)
    ensures AlertOk(Fold(a, v, ts))
  {
    TrailGrows(a.events, a.status, Event(Some(a.status), a.status, Escalated));
    assert a.events + [] == a.events;
  }

  lemma InvSet(s: Store, id: nat, a: Alert)
    requires Inv(s) && id in s.alerts && AlertOk(a) && a.dedupeKey == s.alerts[id].dedupeKey
    requires a.status == s.alerts[id].status || !StatusTaken(s, a.dedupeKey, a.status, id)
    ensures Inv(s.(alerts := s.alerts[id := a]))
  {}

  lemma InvAdd(s: Store, a: Alert)
    requires Inv(s) && AlertOk(a) && !StatusTaken(s, a.dedupeKey, a.status, s.nextId)
    ensures Inv(Store(s.alerts[s.nextId := a], s.nextId + 1))
  {}

  lemma FreshOk(op: Op)
    requires op.Observe?
    ensures AlertOk(Fresh(op))
  {
    assert [Event(None, Open, Raised)][..0] == [];
  }

  lemma InvObserve(s: Store, op: Op)
    requires Inv(s) && op.Observe?
    ensures Inv(Apply(s, op))
  {
    match Existing(s, op.dedupeKey, op.prefer) {
      case Some(id) =>
        FoldOk(s.alerts[id], op.verdict, op.ts);
        InvSet(s, id, Fold(s.alerts[id], op.verdict, op.ts));
      case None =>
        FreshOk(op);
        InvAdd(s, Fresh(op));
    }
  }

  lemma InvTransition(s: Store, op: Op)
    requires Inv(s) && op.Transition?
    ensures Inv(Apply(s, op))
  {
    if Moves(s, op) {
      var a := s.alerts[op.id];
      TrailGrows(a.events, a.status, Event(Some(a.status), op.to, Moved));
      if op.note.Some? {
        TrimTwice(op.note.value);
      }
      InvSet(s, op.id, Apply(s, op).alerts[op.id]);
    }
  }

  lemma InvAssign(s: Store, op: Op)
    requires Inv(s) && op.Assign?
    ensures Inv(Apply(s, op))
  {
    if Visible(s, op.id, op.scope) && op.isMember {
      var a := s.alerts[op.id];
      TrailGrows(a.events, a.status, Event(Some(a.status), a.status, Assigned));
      InvSet(s, op.id, Apply(s, op).alerts[op.id]);
    }
  }

  lemma InvStep(s: Store, op: Op)
    requires Inv(s)
    ensures Inv(Apply(s, op))
  {
    match op
    case Observe(_, _, _, _, _) => InvObserve(s, op);
    case Transition(_, _, _, _, _) => InvTransition(s, op);
    case Assign(_, _, _, _) => InvAssign(s, op);
  }

  lemma {:induction false} InvAlways(ops: seq<Op>)
    ensures Inv(After(ops))
  {
    if ops != [] {
      InvAlways(ops[..|ops| - 1]);
      InvStep(After(ops[..|ops| - 1]), ops[|ops| - 1]);
    }
  }

  // ─── The life of one alert ─────────────────────────────────────────────────────────

  /** The alert an observation lands on: the condition's active alert, or a new one. */
  function Target(s: Store, op: Op): nat
    requires op.Observe?
  {
    match Existing(s, op.dedupeKey, op.prefer) case Some(id) => id case None => s.nextId
  }

  /** The verdicts folded into alert `id` during a run, oldest first. */
  function Folded(ops: seq<Op>, id: nat): seq<Verdict> {
    if ops == [] then []
    else
      var n := |ops| - 1;
      Folded(ops[..n], id)
      + if ops[n].Observe? && Target(After(ops[..n]), ops[n]) == id then [ops[n].verdict] else []
  }

  ghost predicate IsMaximum(a: Alert, verdicts: seq<Verdict>) {
    && (forall i ::
          0 <= i < |verdicts| ==>
            Order(verdicts[i].severity) <= Order(a.severity) && verdicts[i].confidence <= a.confidence)
    && (exists i :: 0 <= i < |verdicts| && verdicts[i].severity == a.severity)
    && (exists i :: 0 <= i < |verdicts| && verdicts[i].confidence == a.confidence)
  }

  lemma FoldMaximum(a: Alert, verdicts: seq<Verdict>, v: Verdict, ts: int)
    requires IsMaximum(a, verdicts)
    ensures IsMaximum(Fold(a, v, ts), verdicts + [v])
  {
    var a', longer := Fold(a, v, ts), verdicts + [v];
    assert longer[|verdicts|] == v;
    var i :| 0 <= i < |verdicts| && verdicts[i].severity == a.severity;
    var j :| 0 <= j < |verdicts| && verdicts[j].confidence == a.confidence;
    assert longer[i].severity == a.severity && longer[j].confidence == a.confidence;
    forall k | 0 <= k < |longer|
      ensures Order(longer[k].severity) <= Order(a'.severity) && longer[k].confidence <= a'.confidence
    {
      assert k < |verdicts| ==> longer[k] == verdicts[k];
    }
  }

  ghost predicate Sums(s: Store, id: nat, verdicts: seq<Verdict>) {
    if id in s.alerts then IsMaximum(s.alerts[id], verdicts) && s.alerts[id].occurrences == |verdicts|
    else verdicts == []
  }

  lemma SumsObserved(s: Store, op: Op, id: nat, verdicts: seq<Verdict>)
    requires Inv(s) && Sums(s, id, verdicts) && op.Observe? && Target(s, op) == id
    ensures Sums(Apply(s, op), id, verdicts + [op.verdict])
  {
    if id in s.alerts {
      FoldMaximum(s.alerts[id], verdicts, op.verdict, op.ts);
    } else {
      assert (verdicts + [op.verdict])[0] == op.verdict;
    }
  }

  lemma SumsOther(s: Store, op: Op, id: nat, verdicts: seq<Verdict>)
    requires Inv(s) && Sums(s, id, verdicts) && !(op.Observe? && Target(s, op) == id)
    ensures Sums(Apply(s, op), id, verdicts)
  {}

  /**
   In any run, an alert's severity and confidence are the maxima of the verdicts folded into it,
   and its occurrence count is how many there were.
   */
  lemma {:induction false} RunningMaxima(ops: seq<Op>, id: nat)
    ensures Sums(After(ops), id, Folded(ops, id))
  {
    if ops != [] {
      var n := |ops| - 1;
      RunningMaxima(ops[..n], id);
      InvAlways(ops[..n]);
      var s, before := After(ops[..n]), Folded(ops[..n], id);
      if ops[n].Observe? && Target(s, ops[n]) == id {
        SumsObserved(s, ops[n], id, before);
      } else {
        SumsOther(s, ops[n], id, before);
        assert before + [] == before;
      }
    }
  }

  /**
   In any run: the trail is a path of permitted changes from the raising to the stored status,
   at most four events are escalations, and whatever is resolved or closed says why.
   */
  lemma LifeOfAnAlert(ops: seq<Op>, id: nat)
    requires id in After(ops).alerts
    ensures var a := After(ops).alerts[id];
            && Trail(a.events, a.status) && Escalations(a.events) <= 4
            && (a.status in {Resolved, Closed} ==> HasText(a.note))
  {
    InvAlways(ops);
  }

  /** Nobody gets from open to closed without passing through resolved. */
  lemma ClosedWasResolved(ops: seq<Op>, id: nat, i: nat)
    requires id in After(ops).alerts && 0 < i < |After(ops).alerts[id].events|
    requires After(ops).alerts[id].events[i].to == Closed && After(ops).alerts[id].events[i].cause == Moved
    ensures After(ops).alerts[id].events[i].from == Some(Resolved)
  {
    InvAlways(ops);
    var events := After(ops).alerts[id].events;
    assert events[i].to in Allowed(events[i - 1].to);
  }

  /** What a closed alert keeps whatever happens; only who it is assigned to may still change. */
  ghost predicate FrozenSince(before: Alert, after: Alert) {
    after == before.(assignee := after.assignee, events := after.events)
      && Escalations(after.events) == Escalations(before.events)
  }

  lemma AssignmentFreezes(a: Alert, member: int)
    requires Trail(a.events, a.status)
    ensures FrozenSince(a,
                        a.(assignee := Some(member), events := a.events + [Event(Some(a.status), a.status, Assigned)]))
  {
    TrailGrows(a.events, a.status, Event(Some(a.status), a.status, Assigned));
  }

  /** Only an assignment reaches a closed alert. */
  lemma ClosedStep(s: Store, op: Op, id: nat)
    requires Inv(s) && id in s.alerts && s.alerts[id].status == Closed
    ensures id in Apply(s, op).alerts && FrozenSince(s.alerts[id], Apply(s, op).alerts[id])
  {
    match op
    case Observe(_, _, _, _, _) =>
      assert Apply(s, op).alerts[id] == s.alerts[id];
    case Transition(_, _, _, _, _) =>
      assert Apply(s, op).alerts[id] == s.alerts[id];
    case Assign(_, _, _, _) =>
      AssignmentFreezes(s.alerts[id], op.member);
  }

  lemma {:induction false} ClosedIsFrozen(s: Store, later: seq<Op>, id: nat)
    requires Inv(s) && id in s.alerts && s.alerts[id].status == Closed
    ensures Inv(RunFrom(s, later)) && id in RunFrom(s, later).alerts
            && FrozenSince(s.alerts[id], RunFrom(s, later).alerts[id])
  {
    if later != [] {
      var n := |later| - 1;
      ClosedIsFrozen(s, later[..n], id);
      InvStep(RunFrom(s, later[..n]), later[n]);
      ClosedStep(RunFrom(s, later[..n]), later[n], id);
    }
  }

  // ─── Conditions ────────────────────────────────────────────────────────────────────

  ghost predicate OneActive(s: Store) {
    forall i <- s.alerts, j <- s.alerts ::
      s.alerts[i].dedupeKey == s.alerts[j].dedupeKey && Active(s.alerts[i].status) && Active(s.alerts[j].status) ==>
        i == j
  }

  /** The alert is reopened although its condition has another active alert already. */
  predicate ReopensBeside(s: Store, op: Op) {
    && Moves(s, op) && s.alerts[op.id].status == Resolved && op.to == Investigating
    && exists j <- s.alerts ::
         j != op.id && s.alerts[j].dedupeKey == s.alerts[op.id].dedupeKey && Active(s.alerts[j].status)
  }

  /**
   One active alert per condition survives an operation exactly when it is not such a reopening:
   the index on (dedupeKey, status) does not stop an open alert and an investigating one.
   */
  lemma OneActiveUnlessReopened(s: Store, op: Op)
    requires Inv(s) && OneActive(s)
    ensures OneActive(Apply(s, op)) <==> !ReopensBeside(s, op)
  {
    var s' := Apply(s, op);
    if ReopensBeside(s, op) {
      var j :| j in s.alerts && j != op.id && s.alerts[j].dedupeKey == s.alerts[op.id].dedupeKey
        && Active(s.alerts[j].status);
      assert s'.alerts[j] == s.alerts[j] && Active(s'.alerts[op.id].status);
    } else {
      forall i, j | i in s'.alerts && j in s'.alerts && s'.alerts[i].dedupeKey == s'.alerts[j].dedupeKey
                    && Active(s'.alerts[i].status) && Active(s'.alerts[j].status)
        ensures i == j
      {
        ActiveBefore(s, op, i);
        ActiveBefore(s, op, j);
      }
    }
  }

  /** Where an active alert comes from: it was active, it is new for its condition, or it was reopened. */
  lemma ActiveBefore(s: Store, op: Op, i: nat)
    requires Inv(s) && i in Apply(s, op).alerts && Active(Apply(s, op).alerts[i].status)
    ensures i in s.alerts ==> Apply(s, op).alerts[i].dedupeKey == s.alerts[i].dedupeKey
    ensures i in s.alerts && !Active(s.alerts[i].status)
            ==> Moves(s, op) && op.id == i && op.to == Investigating && s.alerts[i].status == Resolved
    ensures i !in s.alerts ==> op.Observe? && i == s.nextId && Existing(s, op.dedupeKey, op.prefer).None?
                               && Apply(s, op).alerts[i].dedupeKey == op.dedupeKey
  {}

  ghost predicate OneActiveAt(ops: seq<Op>, i: nat)
    requires i <= |ops|
  {
    OneActive(After(ops[..i]))
  }

  predicate ReopenedAt(ops: seq<Op>, i: nat)
    requires i < |ops|
  {
    ReopensBeside(After(ops[..i]), ops[i])
  }

  lemma OneActiveNext(ops: seq<Op>, i: nat)
    requires i < |ops| && OneActiveAt(ops, i)
    ensures OneActiveAt(ops, i + 1) <==> !ReopenedAt(ops, i)
  {
    assert ops[..i + 1][..i] == ops[..i];
    InvAlways(ops[..i]);
    OneActiveUnlessReopened(After(ops[..i]), ops[i]);
  }

  lemma {:induction false} OneActiveUpTo(ops: seq<Op>, i: nat)
    requires i <= |ops| && forall k :: 0 <= k < |ops| ==> !ReopenedAt(ops, k)
    ensures OneActiveAt(ops, i)
  {
    if i > 0 {
      OneActiveUpTo(ops, i - 1);
      OneActiveNext(ops, i - 1);
    }
  }

  /** In any run: one active alert per condition all along, if and only if no step is such a reopening. */
  lemma OneActiveAlong(ops: seq<Op>)
    ensures (forall i :: 0 <= i <= |ops| ==> OneActiveAt(ops, i))
            <==> (forall i :: 0 <= i < |ops| ==> !ReopenedAt(ops, i))
  {
    if forall i :: 0 <= i < |ops| ==> !ReopenedAt(ops, i) {
      forall i | 0 <= i <= |ops| ensures OneActiveAt(ops, i) {
        OneActiveUpTo(ops, i);
      }
    } else {
      var i :| 0 <= i < |ops| && ReopenedAt(ops, i);
      if OneActiveAt(ops, i) {
        OneActiveNext(ops, i);
      }
    }
  }

  /** The shortest run that breaks it: raise, resolve, raise again, reopen the first. */
  lemma ReopeningBreaks(tenant: int, key: string, v: Verdict, ts: int)
    ensures var raised := Apply(EMPTY, Observe(tenant, key, v, ts, 0));
            var resolved := Apply(raised, Transition(0, Resolved, Some("x"), None, None));
            var again := Apply(resolved, Observe(tenant, key, v, ts, 0));
            var reopened := Apply(again, Transition(0, Investigating, None, None, None));
            OneActive(again) && !OneActive(reopened)
  {
    var raised := Apply(EMPTY, Observe(tenant, key, v, ts, 0));
    assert ActiveFor(EMPTY, key, 0) == None;
    TrimNothing("x");
    var resolve := Transition(0, Resolved, Some("x"), None, None);
    assert Moves(raised, resolve);
    var resolved := Apply(raised, resolve);
    assert ActiveFor(resolved, key, 0) == None && ActiveFor(resolved, key, 1) == None;
    var again := Apply(resolved, Observe(tenant, key, v, ts, 0));
    assert again.alerts.Keys == {0, 1} && again.alerts[0].status == Resolved && again.alerts[1].status == Open;
    var reopen := Transition(0, Investigating, None, None, None);
    assert Moves(again, reopen);
    var reopened := Apply(again, reopen);
    assert Active(reopened.alerts[0].status) && Active(reopened.alerts[1].status);
  }

  lemma {:induction false} FewByStatus(s: Store, ids: set<nat>, key: string, n: nat)
    requires IndexHolds(s) && forall i <- ids ::
                                i in s.alerts && s.alerts[i].dedupeKey == key && StatusNumber(s.alerts[i].status) < n
    ensures |ids| <= n
    decreases n
  {
    if n > 0 {
      if i :| i in ids && StatusNumber(s.alerts[i].status) == n - 1 {
        assert forall j <- ids - {i} :: StatusNumber(s.alerts[j].status) != n - 1;
        FewByStatus(s, ids - {i}, key, n - 1);
      } else {
        FewByStatus(s, ids, key, n - 1);
      }
    } else {
      assert forall i <- ids :: StatusNumber(s.alerts[i].status) >= 0;
      assert ids == {};
    }
  }

  function AlertsOf(s: Store, key: string): set<nat> {
    set i | i in s.alerts && s.alerts[i].dedupeKey == key
  }

  /**
   The price of that index: a condition has at most five alerts in all its life, one per status,
   and once one of them is closed no other can ever be closed.
   */
  lemma FiveAlertsPerCondition(ops: seq<Op>, key: string)
    ensures |AlertsOf(After(ops), key)| <= 5
    ensures forall i, j, note, assignTo, scope ::
              i in After(ops).alerts && j in After(ops).alerts && i != j
              && After(ops).alerts[i].dedupeKey == After(ops).alerts[j].dedupeKey
                 && After(ops).alerts[i].status == Closed
              ==> !Moves(After(ops), Transition(j, Closed, note, assignTo, scope))
  {
    InvAlways(ops);
    var s := After(ops);
    FewByStatus(s, AlertsOf(s, key), key, 5);
  }

  function CategoryName(c: Category): string {
    match c
    case Structural => "structural"
    case SensorHealth => "sensor_health"
    case DataQuality => "data_quality"
    case Connectivity => "connectivity"
  }

  function BoundName(b: Bound): string {
    match b case Lower => "min" case Upper => "max"
  }

  function IdOrNone(id: Option<int>): string {
    match id case None => "none" case Some(i) => Decimal(i)
  }

  /** Tenant, rule, sensor, category and bound: the identity of a condition. */
  datatype Condition = Condition(tenant: int, rule: Option<int>, sensor: Option<int>, category: Category, bound: Bound)

  function KeyParts(c: Condition): seq<string> {
    ["t" + Decimal(c.tenant), "r" + IdOrNone(c.rule), "s" + IdOrNone(c.sensor), CategoryName(c.category),
     BoundName(c.bound)]
  }

  function BuildDedupeKey(c: Condition): string {
    Join(KeyParts(c), ':')
  }

  lemma IdOrNoneReads(a: Option<int>, b: Option<int>)
    ensures ':' !in IdOrNone(a)
    ensures IdOrNone(a) == IdOrNone(b) ==> a == b
  {
    if a.Some? {
      DecimalReads(a.value);
    }
    if b.Some? {
      DecimalReads(b.value);
    }
    if a.None? != b.None? {
      assert "none"[0] == 'n' && !IsDigit('n');
    }
  }

  /** Different conditions have different keys. */
  lemma KeysAreIdentities(a: Condition, b: Condition)
    ensures BuildDedupeKey(a) == BuildDedupeKey(b) ==> a == b
  {
    var p, q := KeyParts(a), KeyParts(b);
    NoColons(a);
    NoColons(b);
    SplitJoin(p, ':');
    SplitJoin(q, ':');
    if BuildDedupeKey(a) == BuildDedupeKey(b) {
      assert p[0][1..] == Decimal(a.tenant) && q[0][1..] == Decimal(b.tenant);
      assert p[1][1..] == IdOrNone(a.rule) && q[1][1..] == IdOrNone(b.rule);
      assert p[2][1..] == IdOrNone(a.sensor) && q[2][1..] == IdOrNone(b.sensor);
      DecimalReads(a.tenant);
      DecimalReads(b.tenant);
      IdOrNoneReads(a.rule, b.rule);
      IdOrNoneReads(a.sensor, b.sensor);
      assert CategoryName(a.category) == CategoryName(b.category) && BoundName(a.bound) == BoundName(b.bound);
      NamesDiffer(a.category, b.category);
      assert "min"[1] == 'i' && "max"[1] == 'a';
    }
  }

  lemma NamesDiffer(a: Category, b: Category)
    ensures CategoryName(a) == CategoryName(b) ==> a == b
  {
    assert |CategoryName(Structural)| == 10 && |CategoryName(SensorHealth)| == 13;
    assert |CategoryName(DataQuality)| == 12 && |CategoryName(Connectivity)| == 12;
    assert CategoryName(DataQuality)[0] == 'd' && CategoryName(Connectivity)[0] == 'c';
  }

  lemma NoColons(c: Condition)
    ensures forall i :: 0 <= i < 5 ==> ':' !in KeyParts(c)[i]
  {
    IdOrNoneReads(Some(c.tenant), Some(c.tenant));
    IdOrNoneReads(c.rule, c.rule);
    IdOrNoneReads(c.sensor, c.sensor);
    Prefixed("t", Decimal(c.tenant));
    Prefixed("r", IdOrNone(c.rule));
    Prefixed("s", IdOrNone(c.sensor));
  }

  lemma Prefixed(prefix: string, text: string)
    requires ':' !in prefix && ':' !in text
    ensures ':' !in prefix + text
  {}

  // ─── One request ───────────────────────────────────────────────────────────────────

  /** The caller's own organization's, or any for a platform administrator. */
  predicate MayTouch(s: Store, id: nat, scope: Option<int>) {
    id in s.alerts && scope in {None, Some(s.alerts[id].tenant)}
  }

  /** A requested move goes through exactly if the caller may touch the alert, it is permitted, explained and free. */
  lemma MovesWhen(s: Store, id: nat, to: Status, note: Option<string>, assignTo: Option<int>, scope: Option<int>)
    ensures Moves(s, Transition(id, to, note, assignTo, scope)) <==>
              && MayTouch(s, id, scope) && to in Allowed(s.alerts[id].status)
              && (to == Resolved ==> note != None && Trim(note.value) != "")
              && forall j <- s.alerts ::
                   s.alerts[j].dedupeKey == s.alerts[id].dedupeKey && s.alerts[j].status == to ==> j == id
  {}

  /**
   Then the alert has the status asked for, and the assignee and the explanation if they were given;
   no other alert changes.
   */
  lemma MoveTells(s: Store, id: nat, to: Status, note: Option<string>, assignTo: Option<int>, scope: Option<int>)
    requires Moves(s, Transition(id, to, note, assignTo, scope))
    ensures var after := Apply(s, Transition(id, to, note, assignTo, scope));
            && id in after.alerts && after.alerts == s.alerts[id := after.alerts[id]] && after.nextId == s.nextId
            && after.alerts[id].status == to
            && (assignTo != None ==> after.alerts[id].assignee == assignTo)
            && (assignTo == None ==> after.alerts[id].assignee == s.alerts[id].assignee)
            && (to == Resolved ==> after.alerts[id].note == Some(Trim(note.value)))
            && (to != Resolved ==> after.alerts[id].note == s.alerts[id].note)
            && after.alerts[id].severity == s.alerts[id].severity
               && after.alerts[id].occurrences == s.alerts[id].occurrences
  {}

  /** Assignment changes the assignee exactly for a member and an alert the caller may touch, and nothing else. */
  lemma AssignTells(s: Store, id: nat, member: int, isMember: bool, scope: Option<int>)
    ensures var after := Apply(s, Assign(id, member, isMember, scope));
            if MayTouch(s, id, scope) && isMember then
              && id in after.alerts && after.alerts == s.alerts[id := after.alerts[id]]
              && after.alerts[id].assignee == Some(member)
              && after.alerts[id].(assignee := None, events := []) == s.alerts[id].(assignee := None, events := [])
            else after == s
  {}

  // ─── Evaluating a batch of readings ────────────────────────────────────────────────

  datatype Rule = Rule(id: int, tenant: int, enabled: bool, sensorId: Option<int>, structureId: Option<int>,
                       category: Category, minValue: Option<real>, maxValue: Option<real>, consecutiveSamples: int)

  predicate Concerns(rule: Rule, o: Observation) {
    && (rule.sensorId.None? || rule.sensorId.value == o.sensorId)
    && (rule.structureId.None? || rule.structureId == o.structureId)
  }

  function Applicable(rule: Rule, observations: seq<Observation>): seq<Observation> {
    if observations == [] then []
    else
      var n := |observations| - 1;
      Applicable(rule, observations[..n]) + if Concerns(rule, observations[n]) then [observations[n]] else []
  }

  predicate Selected(tenant: int, rule: Rule, observations: seq<Observation>) {
    rule.tenant == tenant && rule.enabled
    && (rule.sensorId.None? || exists i :: 0 <= i < |observations| && observations[i].sensorId == rule.sensorId.value)
  }

  function LimitOf(rule: Rule, bound: Bound): Option<real> {
    if bound == Lower then rule.minValue else rule.maxValue
  }

  function ConditionOf(tenant: int, rule: Rule, bound: Bound, worst: Observation): Condition {
    Condition(tenant, Some(rule.id), if rule.sensorId.Some? then rule.sensorId else Some(worst.sensorId),
              rule.category, bound)
  }

  /** At most one observation per rule and bound: the judgement of that rule's own readings. */
  function BoundOps(tenant: int, rule: Rule, bound: Bound, observations: seq<Observation>,
                    prefer: string -> nat): seq<Op> {
    if LimitOf(rule, bound).None? then []
    else
      match Judge(Applicable(rule, observations), rule.category, rule.consecutiveSamples, bound,
                  LimitOf(rule, bound).value)
      case None => []
      case Some(j) =>
        [Observe(tenant, BuildDedupeKey(ConditionOf(tenant, rule, bound, j.worst)), j.verdict, j.worst.ts,
                 prefer(BuildDedupeKey(ConditionOf(tenant, rule, bound, j.worst))))]
  }

  function RuleOps(tenant: int, rule: Rule, observations: seq<Observation>, prefer: string -> nat): seq<Op> {
    if Selected(tenant, rule, observations)
    then BoundOps(tenant, rule, Lower, observations, prefer) + BoundOps(tenant, rule, Upper, observations, prefer)
    else []
  }

  function BatchOps(tenant: int, rules: seq<Rule>, observations: seq<Observation>, prefer: string -> nat): seq<Op> {
    if rules == [] then []
    else
      var n := |rules| - 1;
      BatchOps(tenant, rules[..n], observations, prefer) + RuleOps(tenant, rules[n], observations, prefer)
  }

  class AlertService {
    var alerts: map<nat, Alert>
    var nextId: nat

    ghost function Abstract(): Store
      reads this
    {
      Store(alerts, nextId)
    }

    constructor ()
      ensures Abstract() == EMPTY
    {
      alerts, nextId := map[], 0;
    }

    /** Folds the verdict into the condition's active alert, or raises one. */
    method UpsertAlert(tenant: int, dedupeKey: string, verdict: Verdict, ts: int, prefer: nat) returns (raised: bool)
      requires Inv(Abstract())
      modifies this
      ensures Abstract() == Apply(old(Abstract()), Observe(tenant, dedupeKey, verdict, ts, prefer)) && Inv(Abstract())
      ensures nextId == old(nextId) + if raised then 1 else 0
    {
      InvStep(Abstract(), Observe(tenant, dedupeKey, verdict, ts, prefer));
      var existing := Existing(Store(alerts, nextId), dedupeKey, prefer);
      if existing.Some? {
        var a := alerts[existing.value];
        var escalated := IsEscalation(a.severity, verdict.severity);
        a := a.(lastObservedAt := ts, occurrences := a.occurrences + 1,
                confidence := Max(a.confidence, verdict.confidence));
        if escalated {
          a := a.(severity := verdict.severity, events := a.events + [Event(Some(a.status), a.status, Escalated)]);
        }
        assert a == Fold(old(alerts)[existing.value], verdict, ts);
        alerts := alerts[existing.value := a];
        return false;
      }
      var alert := Alert(tenant, dedupeKey, verdict.severity, verdict.confidence, Open, 1, ts, None, None, []);
      alert := alert.(events := alert.events + [Event(None, Open, Raised)]);
      assert alert == Fresh(Observe(tenant, dedupeKey, verdict, ts, prefer));
      alerts := alerts[nextId := alert];
      nextId := nextId + 1;
      return true;
    }

    method EvaluateBound(tenant: int, rule: Rule, bound: Bound, observations: seq<Observation>, prefer: string -> nat)
      returns (raised: nat, updated: nat)
      requires Inv(Abstract())
      modifies this
      ensures Abstract() == RunFrom(old(Abstract()), BoundOps(tenant, rule, bound, observations, prefer))
              && Inv(Abstract())
      ensures raised + updated == |BoundOps(tenant, rule, bound, observations, prefer)|
              && nextId == old(nextId) + raised
    {
      var limit := LimitOf(rule, bound);
      if limit.None? {
        return 0, 0;
      }
      var judgement :=
        JudgeBound(Applicable(rule, observations), rule.category, rule.consecutiveSamples, bound, limit.value);
      if judgement.None? {
        return 0, 0;
      }
      var j := judgement.value;
      var key := BuildDedupeKey(ConditionOf(tenant, rule, bound, j.worst));
      ghost var op := Observe(tenant, key, j.verdict, j.worst.ts, prefer(key));
      RunConcat(Abstract(), [], [op]);
      var isNew := UpsertAlert(tenant, key, j.verdict, j.worst.ts, prefer(key));
      if isNew {
        return 1, 0;
      } else {
        return 0, 1;
      }
    }

    /** Each bound on its own: they are different conditions. */
    method EvaluateRule(tenant: int, rule: Rule, observations: seq<Observation>, prefer: string -> nat)
      returns (raised: nat, updated: nat)
      requires Inv(Abstract())
      modifies this
      ensures Abstract() == RunFrom(old(Abstract()), RuleOps(tenant, rule, observations, prefer)) && Inv(Abstract())
      ensures raised + updated == |RuleOps(tenant, rule, observations, prefer)| && nextId == old(nextId) + raised
    {
      if !Selected(tenant, rule, observations) {
        return 0, 0;
      }
      RunConcat(Abstract(), BoundOps(tenant, rule, Lower, observations, prefer),
                BoundOps(tenant, rule, Upper, observations, prefer));
      raised, updated := EvaluateBound(tenant, rule, Lower, observations, prefer);
      var moreRaised, moreUpdated := EvaluateBound(tenant, rule, Upper, observations, prefer);
      raised, updated := raised + moreRaised, updated + moreUpdated;
    }

    /** Every rule, after the readings are stored. */
    method EvaluateReadings(tenant: int, rules: seq<Rule>, observations: seq<Observation>, prefer: string -> nat)
      returns (raised: nat, updated: nat)
      requires Inv(Abstract())
      modifies this
      ensures Abstract() == RunFrom(old(Abstract()), BatchOps(tenant, rules, observations, prefer)) && Inv(Abstract())
      ensures raised + updated == |BatchOps(tenant, rules, observations, prefer)| && nextId == old(nextId) + raised
    {
      raised, updated := 0, 0;
      for r := 0 to |rules|
        invariant Inv(Abstract())
                  && Abstract() == RunFrom(old(Abstract()), BatchOps(tenant, rules[..r], observations, prefer))
        invariant raised + updated == |BatchOps(tenant, rules[..r], observations, prefer)|
                  && nextId == old(nextId) + raised
      {
        assert rules[..r + 1][..r] == rules[..r];
        RunConcat(old(Abstract()), BatchOps(tenant, rules[..r], observations, prefer),
                  RuleOps(tenant, rules[r], observations, prefer));
        var moreRaised, moreUpdated := EvaluateRule(tenant, rules[r], observations, prefer);
        raised, updated := raised + moreRaised, updated + moreUpdated;
      }
      assert rules[..|rules|] == rules;
    }

    /** Moves an alert if that is permitted and explained; otherwise throws and changes nothing. */
    method TransitionAlert(id: nat, to: Status, note: Option<string>, assignTo: Option<int>, scope: Option<int>)
      returns (ok: bool)
      requires Inv(Abstract())
      modifies this`alerts
      ensures ok <==> Moves(old(Abstract()), Transition(id, to, note, assignTo, scope))
      ensures Abstract() == Apply(old(Abstract()), Transition(id, to, note, assignTo, scope)) && Inv(Abstract())
    {
      InvStep(Abstract(), Transition(id, to, note, assignTo, scope));
      if id !in alerts || (scope.Some? && alerts[id].tenant != scope.value) {
        return false;
      }
      var a := alerts[id];
      if to !in Allowed(a.status) {
        return false;
      }
      if to == Resolved && (note.None? || Trim(note.value) == "") {
        return false;
      }
      if exists j <- alerts :: j != id && alerts[j].dedupeKey == a.dedupeKey && alerts[j].status == to {
        return false;  // the unique index
      }
      var event := Event(Some(a.status), to, Moved);
      a := a.(status := to);
      if to == Resolved {
        a := a.(note := Some(Trim(note.value)));
      }
      if assignTo.Some? {
        a := a.(assignee := assignTo);
      }
      alerts := alerts[id := a.(events := a.events + [event])];
      return true;
    }

    method AssignAlert(id: nat, member: int, isMember: bool, scope: Option<int>) returns (ok: bool)
      requires Inv(Abstract())
      modifies this`alerts
      ensures ok <==> Visible(old(Abstract()), id, scope) && isMember
      ensures Abstract() == Apply(old(Abstract()), Assign(id, member, isMember, scope)) && Inv(Abstract())
    {
      InvStep(Abstract(), Assign(id, member, isMember, scope));
      if id !in alerts || (scope.Some? && alerts[id].tenant != scope.value) || !isMember {
        return false;
      }
      var a := alerts[id];
      alerts := alerts[id :=
                       a.(assignee := Some(member), events := a.events + [Event(Some(a.status), a.status, Assigned)])];
      return true;
    }
  }

  lemma {:induction false} RunConcat(s: Store, a: seq<Op>, b: seq<Op>)
    ensures RunFrom(s, a + b) == RunFrom(RunFrom(s, a), b)
    decreases |b|
  {
    if b == [] {
      assert a + b == a;
    } else {
      assert (a + b)[..|a + b| - 1] == a + b[..|b| - 1];
      RunConcat(s, a, b[..|b| - 1]);
    }
  }
}
