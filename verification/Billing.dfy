/**
 Subscription state driven by the payment provider (`billing.service.ts`): entitlement against
 the clock, webhooks recorded before they are applied, and the expiry sweep. Instants are
 integer milliseconds; each webhook and each sweep is atomic, and applying an event may throw.
 */
module Billing {
  import opened Wrappers

  datatype Status = Pending | Trial | Active | PastDue | Canceled | Expired | Suspended

  datatype Subscription = Subscription(status: Status, periodEnd: Option<int>, graceEnd: Option<int>)

  const DAY := 24 * 60 * 60 * 1000
  const GRACE_PERIOD := 7 * DAY
  const DEFAULT_PERIOD := 30 * DAY

  predicate After(end: Option<int>, now: int) {
    end.Some? && end.value > now
  }

  /** Whether the subscription entitles access at this instant. */
  predicate Entitled(s: Subscription, now: int) {
    match s.status
    case Pending => false
    case Suspended => false
    case Trial => s.periodEnd.None? || After(s.periodEnd, now)
    case Canceled => After(s.periodEnd, now)
    case PastDue => After(s.graceEnd, now)
    case Expired => false
    case Active => s.periodEnd.None? || After(s.periodEnd, now)
  }

  datatype Kind = Succeeded | Failed | Updated | Cancel | UnknownKind

  datatype Event = Event(id: string, kind: Kind, providerRef: Option<string>, localRef: Option<nat>,
                         periodEnd: Option<int>)

  /** `processed`: the event's row says it was applied; otherwise its error was recorded. */
  datatype State = State(subs: map<nat, Subscription>, byProvider: map<string, nat>, events: map<string, bool>,
                         applied: seq<string>)

  /** Where applying the event throws: before the subscription row is written, after it, or nowhere. */
  datatype Throws = Nowhere | Early | Late

  datatype Step = Webhook(event: Event, now: int, throws: Throws) | Sweep(now: int)

  // ─── Specification ─────────────────────────────────────────────────────────────────

  /** The provider's own subscription id first, then ours. */
  function Target(s: State, e: Event): Option<nat> {
    if e.providerRef.Some? && e.providerRef.value in s.byProvider && s.byProvider[e.providerRef.value] in s.subs
    then Some(s.byProvider[e.providerRef.value])
    else if e.localRef.Some? && e.localRef.value in s.subs then e.localRef
    else None
  }

  function Changed(sub: Subscription, e: Event, now: int): Subscription {
    match e.kind
    case Succeeded => Subscription(Active, if e.periodEnd.Some? then e.periodEnd else Some(now + DEFAULT_PERIOD), None)
    case Failed =>
      sub.(status := PastDue, graceEnd := if sub.graceEnd.Some? then sub.graceEnd else Some(now + GRACE_PERIOD))
    case Updated => if e.periodEnd.Some? then sub.(periodEnd := e.periodEnd) else sub
    case Cancel => sub.(status := Canceled)
    case UnknownKind => sub
  }

  predicate Lapsed(sub: Subscription, now: int) {
    sub.status == PastDue && sub.graceEnd.Some? && sub.graceEnd.value < now
  }

  function Swept(sub: Subscription, now: int): Subscription {
    if Lapsed(sub, now) then sub.(status := Expired) else sub
  }

  function Apply(s: State, step: Step): State {
    match step
    case Sweep(now) => s.(subs := map id | id in s.subs :: Swept(s.subs[id], now))
    case Webhook(e, now, throws) =>
      if e.id in s.events then s
      else
        var target := Target(s, e);
        var effect := throws != Early && target.Some? && e.kind != UnknownKind;
        State(if effect then s.subs[target.value := Changed(s.subs[target.value], e, now)] else s.subs,
              s.byProvider,
              s.events[e.id := throws == Nowhere],
              if effect then s.applied + [e.id] else s.applied)
  }

  function RunFrom(s: State, steps: seq<Step>): State {
    if steps == [] then s else Apply(RunFrom(s, steps[..|steps| - 1]), steps[|steps| - 1])
  }

  // ─── The service ───────────────────────────────────────────────────────────────────

  datatype WebhookResult = Handled | Duplicate | Threw

  class BillingService {
    var subs: map<nat, Subscription>
    var byProvider: map<string, nat>
    var events: map<string, bool>
    ghost var applied: seq<string>

    ghost function Abstract(): State
      reads this
    {
      State(subs, byProvider, events, applied)
    }

    constructor (subs: map<nat, Subscription>, byProvider: map<string, nat>)
      ensures Abstract() == State(subs, byProvider, map[], [])
    {
      this.subs, this.byProvider, events, applied := subs, byProvider, map[], [];
    }

    /** Recorded first: a redelivery, even of an event that threw, is answered as a duplicate. */
    method HandleWebhook(e: Event, now: int, throws: Throws) returns (result: WebhookResult)
      modifies this
      ensures Abstract() == Apply(old(Abstract()), Webhook(e, now, throws))
      ensures result == Duplicate <==> e.id in old(events)
      ensures result == Handled <==> e.id !in old(events) && throws == Nowhere
    {
      if e.id in events {
        return Duplicate;
      }
      events := events[e.id := false];
      if throws == Early {
        return Threw;
      }
      ApplyEvent(e, now);
      if throws == Late {
        return Threw;
      }
      events := events[e.id := true];
      return Handled;
    }

    method ApplyEvent(e: Event, now: int)
      modifies this`subs, this`applied
      ensures var target := Target(old(Abstract()), e);
              if target.None? || e.kind == UnknownKind then subs == old(subs) && applied == old(applied)
              else
                && subs == old(subs)[target.value := Changed(old(subs)[target.value], e, now)]
                && applied == old(applied) + [e.id]
    {
      if e.kind == UnknownKind {
        return;
      }
      var id;
      if e.providerRef.Some? && e.providerRef.value in byProvider && byProvider[e.providerRef.value] in subs {
        id := byProvider[e.providerRef.value];
      } else if e.localRef.Some? && e.localRef.value in subs {
        id := e.localRef.value;
      } else {
        return;
      }
      var sub := subs[id];
      match e.kind {
        case Succeeded =>
          var periodEnd := if e.periodEnd.Some? then e.periodEnd else Some(now + DEFAULT_PERIOD);
          subs := subs[id := sub.(status := Active, periodEnd := periodEnd, graceEnd := None)];
        case Failed =>
          var graceEnd := if sub.graceEnd.Some? then sub.graceEnd else Some(now + GRACE_PERIOD);
          subs := subs[id := sub.(status := PastDue, graceEnd := graceEnd)];
        case Updated =>
          if e.periodEnd.Some? {
            sub := sub.(periodEnd := e.periodEnd);
          }
          subs := subs[id := sub];
        case Cancel =>
          subs := subs[id := sub.(status := Canceled)];
        case UnknownKind =>
      }
      applied := applied + [e.id];
    }

    method ExpireLapsedSubscriptions(now: int) returns (count: nat)
      modifies this`subs
      ensures Abstract() == Apply(old(Abstract()), Sweep(now))
      ensures count == |set id | id in old(subs) && Lapsed(old(subs)[id], now)|
    {
      var lapsed := set id | id in subs && Lapsed(subs[id], now);
      subs := map id | id in subs :: if id in lapsed then subs[id].(status := Expired) else subs[id];
      count := |lapsed|;
    }
  }

  // ─── Events ────────────────────────────────────────────────────────────────────────

  ghost predicate Once(s: State) {
    && (forall i, j :: 0 <= i < j < |s.applied| ==> s.applied[i] != s.applied[j])
    && forall i :: 0 <= i < |s.applied| ==> s.applied[i] in s.events
  }

  /** In any run, each event takes effect at most once, redeliveries and throws included. */
  lemma {:induction false} AppliedOnce(s: State, steps: seq<Step>)
    requires Once(s)
    ensures Once(RunFrom(s, steps)) && s.events.Keys <= RunFrom(s, steps).events.Keys
  {
    if steps != [] {
      AppliedOnce(s, steps[..|steps| - 1]);
    }
  }

  /** An event already recorded has no effect ever again; one whose application threw early never has any. */
  lemma {:induction false} RecordedIsOver(s: State, steps: seq<Step>, id: string)
    requires id in s.events
    ensures id in RunFrom(s, steps).events && RunFrom(s, steps).events[id] == s.events[id]
    ensures id in RunFrom(s, steps).applied <==> id in s.applied
  {
    if steps != [] {
      RecordedIsOver(s, steps[..|steps| - 1], id);
    }
  }

  // ─── The clock ─────────────────────────────────────────────────────────────────────

  /** Left alone, a subscription that is not entitled never becomes so as time passes. */
  lemma NeverTurnsBackOn(sub: Subscription, now: int, later: int)
    requires now <= later && Entitled(sub, later)
    ensures Entitled(sub, now)
  {}

  /** The sweep changes no entitlement at its own instant or later: only what was past already. */
  lemma SweepChangesNothing(sub: Subscription, now: int, t: int)
    ensures (Entitled(Swept(sub, now), t) <==> Entitled(sub, t)) <==> !(Lapsed(sub, now) && t < sub.graceEnd.value)
    ensures t >= now ==> (Entitled(Swept(sub, now), t) <==> Entitled(sub, t))
  {}

  // ─── Grace ─────────────────────────────────────────────────────────────────────────

  /** The step writes subscription `id` with an event of this kind. */
  predicate Hits(s: State, step: Step, id: nat, kind: Kind) {
    step.Webhook? && step.event.id !in s.events && step.throws != Early && Target(s, step.event) == Some(id)
      && step.event.kind == kind
  }

  /** A payment failed and the grace then given still stands. */
  predicate InArrears(s: State, id: nat, graceEnd: int) {
    id in s.subs && s.subs[id].status in {PastDue, Expired} && s.subs[id].graceEnd == Some(graceEnd)
  }

  predicate NoRescue(s: State, steps: seq<Step>, id: nat) {
    forall i :: 0 <= i < |steps| ==>
      !Hits(RunFrom(s, steps[..i]), steps[i], id, Succeeded) && !Hits(RunFrom(s, steps[..i]), steps[i], id, Cancel)
  }

  lemma ArrearsStep(s: State, step: Step, id: nat, graceEnd: int)
    requires InArrears(s, id, graceEnd) && !Hits(s, step, id, Succeeded) && !Hits(s, step, id, Cancel)
    ensures InArrears(Apply(s, step), id, graceEnd)
  {
    if step.Webhook? && Target(s, step.event) != Some(id) {
      assert Apply(s, step).subs[id] == s.subs[id];
    }
  }

  /**
   Once in arrears, no number of further failures, updates, sweeps, redeliveries or events of
   other subscriptions moves the grace end: without a success or a cancellation there is no
   entitlement from that instant on.
   */
  lemma {:induction false} GraceIsFixed(s: State, steps: seq<Step>, id: nat, graceEnd: int, t: int)
    requires InArrears(s, id, graceEnd) && NoRescue(s, steps, id) && t >= graceEnd
    ensures InArrears(RunFrom(s, steps), id, graceEnd) && !Entitled(RunFrom(s, steps).subs[id], t)
  {
    if steps != [] {
      var n := |steps| - 1;
      forall i | 0 <= i < n
        ensures !Hits(RunFrom(s, steps[..n][..i]), steps[..n][i], id, Succeeded)
                && !Hits(RunFrom(s, steps[..n][..i]), steps[..n][i], id, Cancel)
      {
        assert steps[..n][..i] == steps[..i];
      }
      GraceIsFixed(s, steps[..n], id, graceEnd, t);
      ArrearsStep(RunFrom(s, steps[..n]), steps[n], id, graceEnd);
    }
  }

  /**
   The failure that started the grace: no success follows it, and an earlier failure was followed by
   a success before it.
   */
  ghost predicate StartedGrace(s: State, steps: seq<Step>, id: nat, j: nat)
    requires j < |steps|
  {
    && Hits(RunFrom(s, steps[..j]), steps[j], id, Failed)
    && RunFrom(s, steps[..j]).subs[id].graceEnd == None
    && (forall i :: j < i < |steps| ==> NoSuccessAt(s, steps, id, i))
    && forall k :: 0 <= k < j ==> !FailsAt(s, steps, id, k) || SuccessBetween(s, steps, id, k, j)
  }

  predicate FailsAt(s: State, steps: seq<Step>, id: nat, k: nat)
    requires k < |steps|
  {
    Hits(RunFrom(s, steps[..k]), steps[k], id, Failed)
  }

  ghost predicate SuccessBetween(s: State, steps: seq<Step>, id: nat, k: nat, j: nat)
    requires k < j <= |steps|
  {
    exists l :: k < l < j && !NoSuccessAt(s, steps, id, l)
  }

  predicate NoSuccessAt(s: State, steps: seq<Step>, id: nat, i: nat)
    requires i < |steps|
  {
    !Hits(RunFrom(s, steps[..i]), steps[i], id, Succeeded)
  }

  /** A grace that runs goes on until a success. */
  lemma GraceGoesOn(s: State, step: Step, id: nat)
    requires id in s.subs && s.subs[id].graceEnd.Some? && !Hits(s, step, id, Succeeded)
    ensures Apply(s, step).subs[id].graceEnd.Some?
  {
    if step.Webhook? && Target(s, step.event) != Some(id) {
      assert Apply(s, step).subs[id] == s.subs[id];
    }
  }

  /** From a failure on, grace runs unless a success came since. */
  lemma {:induction false} GraceSince(s: State, steps: seq<Step>, id: nat, k: nat, j: nat)
    requires id in s.subs && k < j <= |steps| && FailsAt(s, steps, id, k)
    ensures id in RunFrom(s, steps[..j]).subs
    ensures RunFrom(s, steps[..j]).subs[id].graceEnd.Some? || SuccessBetween(s, steps, id, k, j)
    decreases j
  {
    SameSubs(s, steps[..j]);
    assert steps[..j][..j - 1] == steps[..j - 1];
    if j > k + 1 {
      GraceSince(s, steps, id, k, j - 1);
      if SuccessBetween(s, steps, id, k, j - 1) {
        var l :| k < l < j - 1 && !NoSuccessAt(s, steps, id, l);
      } else if NoSuccessAt(s, steps, id, j - 1) {
        GraceGoesOn(RunFrom(s, steps[..j - 1]), steps[j - 1], id);
      }
    }
  }

  lemma FailuresBefore(s: State, steps: seq<Step>, id: nat, j: nat)
    requires id in s.subs && j < |steps| && id in RunFrom(s, steps[..j]).subs
             && RunFrom(s, steps[..j]).subs[id].graceEnd == None
    ensures forall k :: 0 <= k < j ==> !FailsAt(s, steps, id, k) || SuccessBetween(s, steps, id, k, j)
  {
    forall k | 0 <= k < j && FailsAt(s, steps, id, k) ensures SuccessBetween(s, steps, id, k, j) {
      GraceSince(s, steps, id, k, j);
    }
  }

  lemma StillStarted(s: State, steps: seq<Step>, id: nat, j: nat)
    requires steps != [] && j < |steps| - 1 && StartedGrace(s, steps[..|steps| - 1], id, j)
    requires NoSuccessAt(s, steps, id, |steps| - 1) && id in s.subs
    ensures StartedGrace(s, steps, id, j)
  {
    var shorter := steps[..|steps| - 1];
    assert shorter[..j] == steps[..j];
    forall i | j < i < |steps| ensures NoSuccessAt(s, steps, id, i) {
      if i < |shorter| {
        assert NoSuccessAt(s, shorter, id, i);
        assert shorter[..i] == steps[..i];
      }
    }
    FailuresBefore(s, steps, id, j);
  }

  /** A grace end is either left alone, and then no success struck, or set by a failure that found none. */
  lemma GraceStep(s: State, step: Step, id: nat)
    requires id in s.subs && Apply(s, step).subs[id].graceEnd.Some?
    ensures if s.subs[id].graceEnd.None?
            then Hits(s, step, id, Failed) && Apply(s, step).subs[id].graceEnd == Some(step.now + GRACE_PERIOD)
            else !Hits(s, step, id, Succeeded) && Apply(s, step).subs[id].graceEnd == s.subs[id].graceEnd
  {
    if step.Webhook? && Target(s, step.event) != Some(id) {
      assert Apply(s, step).subs[id] == s.subs[id];
    }
  }

  /** A grace end is always seven days after the first failure since the last success. */
  lemma {:induction false} GraceFromFirstFailure(s: State, steps: seq<Step>, id: nat) returns (j: nat)
    requires id in s.subs && s.subs[id].graceEnd == None
    requires id in RunFrom(s, steps).subs && RunFrom(s, steps).subs[id].graceEnd.Some?
    ensures j < |steps| && StartedGrace(s, steps, id, j)
    ensures RunFrom(s, steps).subs[id].graceEnd == Some(steps[j].now + 604800000)
  {
    var n := |steps| - 1;
    SameSubs(s, steps[..n]);
    GraceStep(RunFrom(s, steps[..n]), steps[n], id);
    if RunFrom(s, steps[..n]).subs[id].graceEnd.None? {
      j := n;
      FailuresBefore(s, steps, id, j);
    } else {
      j := GraceFromFirstFailure(s, steps[..n], id);
      StillStarted(s, steps, id, j);
    }
  }

  lemma {:induction false} SameSubs(s: State, steps: seq<Step>)
    ensures RunFrom(s, steps).subs.Keys == s.subs.Keys
  {
    if steps != [] {
      SameSubs(s, steps[..|steps| - 1]);
    }
  }

  /**
   A payment opens access up to the end of the period paid for, thirty days if the provider names
   none, whatever was before.
   */
  lemma SuccessGrantsPeriod(sub: Subscription, e: Event, now: int, t: int)
    requires e.kind == Succeeded
    ensures var paid := Changed(sub, e, now);
            && (Entitled(paid, t) <==> t < match e.periodEnd case Some(end) => end case None => now + 2592000000)
            && paid.status == Active && paid.graceEnd == None
  {}

  /** A new period end is where access by a paid period ends from then on; access by grace, or none, stays as it was. */
  lemma UpdateMovesPeriod(sub: Subscription, e: Event, now: int, t: int)
    requires e.kind == Updated
    ensures if e.periodEnd.Some? && sub.status in {Active, Trial, Canceled}
            then Entitled(Changed(sub, e, now), t) <==> t < e.periodEnd.value
            else Entitled(Changed(sub, e, now), t) <==> Entitled(sub, t)
    ensures Changed(sub, e, now).status == sub.status && Changed(sub, e, now).graceEnd == sub.graceEnd
  {}

  /** Without any event: a trial or a paid account without an end has access for ever, and some accounts never. */
  lemma AccessByStatus(sub: Subscription, t: int)
    ensures sub.status in {Active, Trial} && sub.periodEnd == None ==> Entitled(sub, t)
    ensures sub.status in {Pending, Suspended, Expired} ==> !Entitled(sub, t)
  {}

  /** The sweep expires an account in arrears once its grace end is past, and not at that very instant. */
  lemma SweptPastEnd(sub: Subscription, now: int)
    ensures Swept(sub, now).status != sub.status
            <==> sub.status == PastDue && sub.graceEnd.Some? && now > sub.graceEnd.value
    ensures Swept(sub, now).status != sub.status ==> Swept(sub, now).status == Expired
  {}

  /** What a new event leaves behind: a row that says whether it was processed, and one effect or none. */
  lemma NewEvent(s: State, e: Event, now: int, throws: Throws)
    requires e.id !in s.events && e.id !in s.applied
    ensures var after := Apply(s, Webhook(e, now, throws));
            && e.id in after.events && (after.events[e.id] <==> throws == Nowhere)
            && (e.id in after.applied <==> throws != Early && Target(s, e).Some? && e.kind != UnknownKind)
            && (e.id !in after.applied ==> after.subs == s.subs)
            && (e.id in after.applied ==>
                  var id := Target(s, e).value;
                  id in s.subs && after.subs == s.subs[id := Changed(s.subs[id], e, now)])
  {}

  /** The provider's own id of a subscription counts before ours, if we know it. */
  lemma TargetIs(s: State, e: Event)
    ensures match Target(s, e)
            case Some(id) =>
              && id in s.subs
              && (ByProvider(s, e, id) || (e.localRef == Some(id) && forall other :: !ByProvider(s, e, other)))
            case None => (forall id :: !ByProvider(s, e, id)) && forall id <- s.subs :: e.localRef != Some(id)
  {}

  predicate ByProvider(s: State, e: Event, id: nat) {
    && id in s.subs && exists ref <- s.byProvider :: e.providerRef == Some(ref) && s.byProvider[ref] == id
  }

  /**
   What a failed payment grants, whatever the status before it: access up to the grace end.
   So it can turn access on, even for an account that never paid or was suspended, exactly when
   there was none and a grace still lies ahead.
   */
  lemma FailureGrantsGrace(sub: Subscription, e: Event, now: int, t: int)
    requires e.kind == Failed
    ensures Entitled(Changed(sub, e, now), t)
            <==> t < (if sub.graceEnd.Some? then sub.graceEnd.value else now + 604800000)
    ensures sub == Subscription(Pending, None, None) ==> !Entitled(sub, now) && Entitled(Changed(sub, e, now), now)
  {}

  /** A cancellation keeps what was paid for, and only that: it can revive a lapsed grace inside a paid period. */
  lemma CancelKeepsPaidPeriod(sub: Subscription, e: Event, now: int, t: int)
    requires e.kind == Cancel
    ensures Entitled(Changed(sub, e, now), t) <==> After(sub.periodEnd, t)
  {}
}
