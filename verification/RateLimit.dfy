/**
 `RedisRateLimitStore`: a fixed-window counter shared by many clients through Redis. The
 increment and the time-to-live read travel in one atomic pipeline, but the expiry that closes
 a new window is a second command, and a client may die in between. So the store is a state
 machine over single Redis commands, interleaved in any order; the class at the end shows how
 the methods are made of those commands. Times are integer milliseconds.
 */
module RateLimit {
  import opened Wrappers

  type Client = nat

  /** A counter in Redis; with no deadline it never expires by itself. */
  datatype Key = Key(count: int, deadline: Option<int>)

  /** Where a client stands between its commands. */
  datatype Pc = Idle | Expiring | Decrementing

  datatype State = State(windowMs: nat, now: int, key: Option<Key>, clients: map<Client, Pc>)

  datatype Step =
    | Tick(ms: nat)
    | Incr(client: Client)      // MULTI INCR TTL EXEC
    | Expire(client: Client)    // EXPIRE, after a negative TTL
    | Crash(client: Client)     // the client dies or its connection does
    | DecrRead(client: Client)  // GET, the first half of decrement
    | Decr(client: Client)      // DECR, the second
    | Del                       // resetKey

  /** Whole seconds, at least one, in milliseconds. */
  function Window(windowMs: nat): nat {
    1000 * if windowMs / 1000 > 1 then windowMs / 1000 else 1
  }

  function Initial(windowMs: nat): State {
    State(windowMs, 0, None, map[])
  }

  function PcOf(s: State, c: Client): Pc {
    if c in s.clients then s.clients[c] else Idle
  }

  /** TTL in seconds, rounded to the nearest; -1 for a key without a deadline, -2 for no key. */
  function Ttl(s: State): int {
    match s.key
    case None => -2
    case Some(Key(_, None)) => -1
    case Some(Key(_, Some(d))) => if d < s.now then -2 else (d - s.now + 500) / 1000
  }

  function Incremented(key: Option<Key>, amount: int): Key {
    match key case None => Key(amount, None) case Some(k) => k.(count := k.count + amount)
  }

  predicate Enabled(s: State, step: Step) {
    match step
    case Tick(_) => true
    case Del => true
    case Incr(c) => PcOf(s, c) == Idle
    case DecrRead(c) => PcOf(s, c) == Idle
    case Expire(c) => PcOf(s, c) == Expiring
    case Decr(c) => PcOf(s, c) == Decrementing
    case Crash(c) => PcOf(s, c) != Idle
  }

  function Apply(s: State, step: Step): State {
    if !Enabled(s, step) then s
    else match step
      case Tick(ms) =>
        var now := s.now + ms;
        var expired := s.key.Some? && s.key.value.deadline.Some? && s.key.value.deadline.value < now;
        s.(now := now, key := if expired then None else s.key)
      case Del =>
        s.(key := None)
      case Incr(c) =>
        var s' := s.(key := Some(Incremented(s.key, 1)));
        s'.(clients := s.clients[c := if Ttl(s') < 0 then Expiring else Idle])
      case Expire(c) =>
        s.(key := match s.key case None => None case Some(k) => Some(k.(deadline := Some(s.now + Window(s.windowMs)))),
           clients := s.clients[c := Idle])
      case Crash(c) =>
        s.(clients := s.clients[c := Idle])
      case DecrRead(c) =>
        s.(clients := s.clients[c := if s.key.Some? && s.key.value.count > 0 then Decrementing else Idle])
      case Decr(c) =>
        s.(key := Some(Incremented(s.key, -1)), clients := s.clients[c := Idle])
  }

  function After(windowMs: nat, steps: seq<Step>): State {
    if steps == [] then Initial(windowMs)
    else Apply(After(windowMs, steps[..|steps| - 1]), steps[|steps| - 1])
  }

  /** A step by which an increment completes: nothing is left for its client to do. */
  predicate Completes(s: State, step: Step) {
    Enabled(s, step) && (step.Expire? || (step.Incr? && PcOf(Apply(s, step), step.client) == Idle))
  }

  // ─── Deadlines ─────────────────────────────────────────────────────────────────────

  ghost predicate DeadlineNear(s: State) {
    s.key.Some? && s.key.value.deadline.Some? ==> s.now <= s.key.value.deadline.value <= s.now + Window(s.windowMs)
  }

  /** In every reachable state a deadline is in the future and at most one window away. */
  lemma {:induction false} DeadlinesNear(windowMs: nat, steps: seq<Step>)
    ensures After(windowMs, steps).windowMs == windowMs && DeadlineNear(After(windowMs, steps))
  {
    if steps != [] {
      DeadlinesNear(windowMs, steps[..|steps| - 1]);
    }
  }

  /** Every completed increment leaves a key that will expire within a window, or no key at all. */
  lemma CompletedHasDeadline(windowMs: nat, steps: seq<Step>, step: Step)
    requires Completes(After(windowMs, steps), step)
    ensures var s := Apply(After(windowMs, steps), step);
            match s.key
            case None => step.Expire?
            case Some(k) => k.deadline.Some? && s.now <= k.deadline.value <= s.now + Window(windowMs)
  {
    DeadlinesNear(windowMs, steps);
  }

  predicate Stranded(s: State) {
    s.key.Some? && s.key.value.deadline.None?
  }

  /**
   A key stranded without an expiry stays so until it is deleted or the next increment
   completes, and that completion repairs it: no increment completes around it.
   */
  lemma StrandedUntilCompleted(s: State, step: Step)
    requires Stranded(s)
    ensures Stranded(Apply(s, step)) <==> step != Del && !Completes(s, step)
  {}

  /** What is still needed for a key to be stranded for good: a crash or a decrement on the way. */
  predicate Undisturbed(steps: seq<Step>) {
    forall i :: 0 <= i < |steps| ==> !steps[i].Crash? && !steps[i].Decr?
  }

  lemma {:induction false} StrandingNeedsACrash(windowMs: nat, steps: seq<Step>)
    requires Undisturbed(steps)
    ensures Stranded(After(windowMs, steps))
            ==> exists c :: c in After(windowMs, steps).clients && PcOf(After(windowMs, steps), c) == Expiring
  {
    if steps != [] {
      var before, step := After(windowMs, steps[..|steps| - 1]), steps[|steps| - 1];
      var s := After(windowMs, steps);
      StrandingNeedsACrash(windowMs, steps[..|steps| - 1]);
      if Stranded(s) {
        if step.Incr? && Enabled(before, step) {
          assert PcOf(s, step.client) == Expiring;
        } else {
          var c :| c in before.clients && PcOf(before, c) == Expiring;
          assert PcOf(s, c) == Expiring;
        }
      }
    }
  }

  // ─── Who moves a deadline ──────────────────────────────────────────────────────────

  /** At step `i` client `c` counted itself and was told that the key had no deadline. */
  ghost predicate SawNoDeadline(windowMs: nat, steps: seq<Step>, i: nat, c: Client)
    requires i < |steps|
  {
    && steps[i] == Incr(c) && Enabled(After(windowMs, steps[..i]), steps[i])
    && Stranded(After(windowMs, steps[..i + 1]))
  }

  /** From just after step `i` to now, client `c` has been about to set the expiry. */
  ghost predicate ExpiringSince(windowMs: nat, steps: seq<Step>, i: nat, c: Client) {
    forall m :: i < m <= |steps| ==> PcOf(After(windowMs, steps[..m]), c) == Expiring
  }

  lemma {:induction false} ExpiringSawNone(windowMs: nat, steps: seq<Step>, c: Client) returns (i: nat)
    requires PcOf(After(windowMs, steps), c) == Expiring
    ensures i < |steps| && SawNoDeadline(windowMs, steps, i, c) && ExpiringSince(windowMs, steps, i, c)
  {
    var n := |steps| - 1;
    var before, step := After(windowMs, steps[..n]), steps[n];
    assert steps[..n + 1] == steps;
    if step == Incr(c) && Enabled(before, step) {
      i := n;
      DeadlinesNear(windowMs, steps[..n]);
    } else {
      i := ExpiringSawNone(windowMs, steps[..n], c);
      assert steps[..n][..i] == steps[..i] && steps[..n][..i + 1] == steps[..i + 1];
      forall m | i < m <= |steps| ensures PcOf(After(windowMs, steps[..m]), c) == Expiring {
        assert m <= n ==> steps[..n][..m] == steps[..m];
      }
    }
  }

  /**
   A live deadline is only ever moved by a client that was told there was none by its latest
   increment: a client whose read saw a live deadline leaves it alone.
   */
  lemma OnlyRepairersMove(windowMs: nat, steps: seq<Step>, step: Step)
    requires var s, s' := After(windowMs, steps), Apply(After(windowMs, steps), step);
             s.key.Some? && s'.key.Some? && s'.key.value.deadline != s.key.value.deadline
    ensures step.Expire? && exists i :: 0 <= i < |steps| && SawNoDeadline(windowMs, steps, i, step.client)
                                        && ExpiringSince(windowMs, steps, i, step.client)
  {
    var i := ExpiringSawNone(windowMs, steps, step.client);
  }

  // ─── Counts ────────────────────────────────────────────────────────────────────────

  /** Increments less decrements that took effect in steps `from` onwards. */
  function Hits(windowMs: nat, steps: seq<Step>, from: nat): int
    requires from <= |steps|
    decreases |steps|
  {
    if |steps| == from then 0
    else
      var n := |steps| - 1;
      Hits(windowMs, steps[..n], from)
      + if !Enabled(After(windowMs, steps[..n]), steps[n]) then 0
        else if steps[n].Incr? then 1
        else if steps[n].Decr? then -1
        else 0
  }

  /** The key that is there now was created by step `born` and has been there ever since. */
  ghost predicate AliveSince(windowMs: nat, steps: seq<Step>, born: nat)
    requires born < |steps|
  {
    && After(windowMs, steps[..born]).key.None?
    && forall m :: born < m <= |steps| ==> After(windowMs, steps[..m]).key.Some?
  }

  /** The count is exactly the increments (less decrements) since the window's key was created. */
  lemma {:induction false} CountsSinceCreation(windowMs: nat, steps: seq<Step>) returns (born: nat)
    requires After(windowMs, steps).key.Some?
    ensures born < |steps| && AliveSince(windowMs, steps, born)
    ensures After(windowMs, steps).key.value.count == Hits(windowMs, steps, born)
  {
    var n := |steps| - 1;
    var shorter := steps[..n];
    assert steps[..n + 1] == steps;
    if After(windowMs, shorter).key.None? {
      born := n;
      assert Hits(windowMs, shorter, born) == 0;
    } else {
      born := CountsSinceCreation(windowMs, shorter);
      assert shorter[..born] == steps[..born];
      forall m | born < m <= |steps| ensures After(windowMs, steps[..m]).key.Some? {
        assert m <= n ==> shorter[..m] == steps[..m];
      }
    }
  }

  // ─── Decrements ────────────────────────────────────────────────────────────────────

  /** The step that created the key there is now. */
  function Birth(windowMs: nat, steps: seq<Step>): Option<nat> {
    if After(windowMs, steps).key.None? then None
    else
      var n := |steps| - 1;
      if After(windowMs, steps[..n]).key.None? then Some(n) else Birth(windowMs, steps[..n])
  }

  lemma {:induction false} BornBefore(windowMs: nat, steps: seq<Step>)
    ensures Birth(windowMs, steps).Some? <==> After(windowMs, steps).key.Some?
    ensures Birth(windowMs, steps).Some? ==> Birth(windowMs, steps).value < |steps|
  {
    if After(windowMs, steps).key.Some? {
      BornBefore(windowMs, steps[..|steps| - 1]);
    }
  }

  /** From step `i` to step `j` there was a key all the time. */
  ghost predicate AliveFrom(windowMs: nat, steps: seq<Step>, i: nat, j: nat)
    requires i <= j <= |steps|
  {
    forall m :: i <= m <= j ==> After(windowMs, steps[..m]).key.Some?
  }

  /** It is the same key at two points exactly when there was one all the time between them. */
  lemma {:induction false} SameKey(windowMs: nat, steps: seq<Step>, i: nat, j: nat)
    requires i <= j <= |steps| && After(windowMs, steps[..i]).key.Some?
    ensures Birth(windowMs, steps[..j]) == Birth(windowMs, steps[..i]) <==> AliveFrom(windowMs, steps, i, j)
    decreases j
  {
    BornBefore(windowMs, steps[..i]);
    BornBefore(windowMs, steps[..j]);
    if i < j {
      assert steps[..j][..j - 1] == steps[..j - 1];
      SameKey(windowMs, steps, i, j - 1);
      if After(windowMs, steps[..j - 1]).key.Some? && After(windowMs, steps[..j]).key.Some? {
        assert Birth(windowMs, steps[..j]) == Birth(windowMs, steps[..j - 1]);
        AliveOneMore(windowMs, steps, i, j);
      } else {
        assert !AliveFrom(windowMs, steps, i, j);
      }
    }
  }

  lemma AliveOneMore(windowMs: nat, steps: seq<Step>, i: nat, j: nat)
    requires i < j <= |steps| && After(windowMs, steps[..j]).key.Some?
    ensures AliveFrom(windowMs, steps, i, j) <==> AliveFrom(windowMs, steps, i, j - 1)
  {}

  /** Between its two commands the client does nothing else. */
  predicate Quiet(steps: seq<Step>, i: nat, j: nat, c: Client)
    requires i < j <= |steps|
  {
    forall m :: i < m < j ==> steps[m] != Crash(c) && steps[m] != Decr(c)
  }

  lemma {:induction false} StillDecrementing(windowMs: nat, steps: seq<Step>, i: nat, j: nat, c: Client)
    requires i < j <= |steps| && Quiet(steps, i, j, c) && PcOf(After(windowMs, steps[..i + 1]), c) == Decrementing
    ensures PcOf(After(windowMs, steps[..j]), c) == Decrementing
    decreases j
  {
    if i + 1 < j {
      assert steps[..j][..j - 1] == steps[..j - 1];
      StillDecrementing(windowMs, steps, i, j - 1, c);
    }
  }

  lemma DecrStep(windowMs: nat, steps: seq<Step>, j: nat, c: Client)
    requires j < |steps| && steps[j] == Decr(c) && PcOf(After(windowMs, steps[..j]), c) == Decrementing
    ensures var key := After(windowMs, steps[..j]).key;
            After(windowMs, steps[..j + 1]).key
              == Some(match key case None => Key(-1, None) case Some(k) => k.(count := k.count - 1))
    ensures Birth(windowMs, steps[..j + 1])
            == if After(windowMs, steps[..j]).key.None? then Some(j) else Birth(windowMs, steps[..j])
  {
    assert steps[..j + 1][..j] == steps[..j];
  }

  lemma ReadStep(windowMs: nat, steps: seq<Step>, i: nat, c: Client)
    requires i < |steps| && steps[i] == DecrRead(c)
    requires var s := After(windowMs, steps[..i]); PcOf(s, c) == Idle && s.key.Some? && s.key.value.count > 0
    ensures PcOf(After(windowMs, steps[..i + 1]), c) == Decrementing
  {
    assert steps[..i + 1][..i] == steps[..i];
  }

  /**
   The decrement's own race, whatever the others do between its two commands: the second command
   creates a key, at -1 and with no expiry, exactly when there is none just before it; and it takes
   one off the very window it read exactly when that key has been there ever since.
   */
  lemma StrayDecrement(windowMs: nat, steps: seq<Step>, i: nat, j: nat, c: Client)
    requires i < j < |steps| && steps[i] == DecrRead(c) && steps[j] == Decr(c) && Quiet(steps, i, j, c)
    requires var s := After(windowMs, steps[..i]); PcOf(s, c) == Idle && s.key.Some? && s.key.value.count > 0
    ensures var before, after := After(windowMs, steps[..j]), After(windowMs, steps[..j + 1]);
            after.key == Some(match before.key case None => Key(-1, None) case Some(k) => k.(count := k.count - 1))
    ensures Birth(windowMs, steps[..j + 1]) == Some(j) <==> After(windowMs, steps[..j]).key.None?
    ensures Birth(windowMs, steps[..j + 1]) == Birth(windowMs, steps[..i]) <==> AliveFrom(windowMs, steps, i, j)
  {
    ReadStep(windowMs, steps, i, c);
    StillDecrementing(windowMs, steps, i, j, c);
    DecrStep(windowMs, steps, j, c);
    BornBefore(windowMs, steps[..j]);
    BornBefore(windowMs, steps[..i]);
    SameKey(windowMs, steps, i, j);
    assert After(windowMs, steps[..j]).key.None? ==> !AliveFrom(windowMs, steps, i, j);
  }

  /** The shortest such run: the key is deleted between the two commands. */
  lemma StrayExample(windowMs: nat)
    ensures var read := Apply(Apply(Initial(windowMs), Incr(0)), DecrRead(1));
            Apply(Apply(read, Del), Decr(1)).key == Some(Key(-1, None))
  {}

  // ─── One window ────────────────────────────────────────────────────────────────────

  /** The window is the configured one in whole seconds, and at least one. */
  lemma WindowIs(windowMs: nat)
    ensures Window(windowMs) == if windowMs < 1000 then 1000 else windowMs - windowMs % 1000
  {}

  /** A window, from its first increment on: it counts one, lasts exactly as configured, and then the key is gone. */
  lemma WindowEnds(s: State, c: Client, ms: nat)
    requires s.key == None && PcOf(s, c) == Idle
    ensures var first := Apply(Apply(s, Incr(c)), Expire(c));
            var later := Apply(first, Tick(ms));
            && first.key == Some(Key(1, Some(s.now + Window(s.windowMs)))) && later.now == s.now + ms
            && (later.key == first.key <==> ms <= Window(s.windowMs))
               && (later.key == None <==> ms > Window(s.windowMs))
  {}

  /** Only a positive count is taken down. */
  lemma DecrementsPositive(s: State, c: Client)
    requires PcOf(s, c) == Idle
    ensures PcOf(Apply(s, DecrRead(c)), c) == Decrementing <==> s.key.Some? && s.key.value.count >= 1
    ensures Apply(s, DecrRead(c)).key == s.key
  {}

  // ─── The class ─────────────────────────────────────────────────────────────────────

  /** One client's view: its methods, with the commands they send, in order and undisturbed. */
  class RedisRateLimitStore {
    var windowMs: nat
    var now: int
    var key: Option<Key>
    ghost var clients: map<Client, Pc>

    ghost function Abstract(): State
      reads this
    {
      State(windowMs, now, key, clients)
    }

    constructor (windowMs: nat)
      ensures Abstract() == Initial(windowMs)
    {
      this.windowMs, now, key, clients := windowMs, 0, None, map[];
    }

    /** The pipeline: INCR and TTL in one transaction. */
    method IncrTtl(c: Client) returns (totalHits: int, ttl: int)
      requires PcOf(Abstract(), c) == Idle
      modifies this`key, this`clients
      ensures Abstract() == Apply(old(Abstract()), Incr(c))
      ensures key.Some? && totalHits == key.value.count && ttl == Ttl(Abstract())
    {
      key := Some(match key case None => Key(1, None) case Some(k) => k.(count := k.count + 1));
      totalHits := key.value.count;
      ttl := match key.value.deadline
        case None => -1
        case Some(d) => if d < now then -2 else (d - now + 500) / 1000;
      clients := clients[c := if ttl < 0 then Expiring else Idle];
    }

    method SetExpiry(c: Client, windowSecs: nat)
      requires PcOf(Abstract(), c) == Expiring && 1000 * windowSecs == Window(windowMs)
      modifies this`key, this`clients
      ensures Abstract() == Apply(old(Abstract()), Expire(c))
    {
      if key.Some? {
        key := Some(key.value.(deadline := Some(now + 1000 * windowSecs)));
      }
      clients := clients[c := Idle];
    }

    /** Undisturbed, an increment is one `Incr` step, and one `Expire` step when there was no expiry. */
    method Increment(c: Client) returns (totalHits: int, resetTime: int)
      requires PcOf(Abstract(), c) == Idle && DeadlineNear(Abstract())
      modifies this`key, this`clients
      ensures var counted := Apply(old(Abstract()), Incr(c));
              Abstract() == (if Ttl(counted) < 0 then Apply(counted, Expire(c)) else counted)
      ensures key.Some? && totalHits == key.value.count
      ensures totalHits == if old(key).None? then 1 else old(key).value.count + 1
      ensures key.value.deadline.Some? && resetTime - 500 <= key.value.deadline.value <= resetTime + 500
      ensures old(key).Some? && old(key).value.deadline.Some? ==> key.value.deadline == old(key).value.deadline
      ensures DeadlineNear(Abstract())
    {
      var windowSecs := if windowMs / 1000 > 1 then windowMs / 1000 else 1;
      var ttl;
      totalHits, ttl := IncrTtl(c);
      if ttl < 0 {
        SetExpiry(c, windowSecs);
        ttl := windowSecs;
      }
      resetTime := now + ttl * 1000;
    }

    /**
     What a client is shown, when nothing comes between its two commands: nothing, unless the key
     has at least half a second left.
     */
    method Get() returns (totalHits: int, resetTime: Option<int>)
      ensures resetTime.Some? <==> key.Some? && key.value.deadline.Some? && key.value.deadline.value >= now + 500
      ensures totalHits == if resetTime.Some? then key.value.count else 0
    {
      var ttl := match key
        case None => -2
        case Some(Key(_, None)) => -1
        case Some(Key(_, Some(d))) => if d < now then -2 else (d - now + 500) / 1000;
      if ttl <= 0 {
        return 0, None;
      }
      return key.value.count, Some(now + ttl * 1000);
    }

    method Decrement(c: Client)
      requires PcOf(Abstract(), c) == Idle
      modifies this`key, this`clients
      ensures Abstract() == (var read := Apply(old(Abstract()), DecrRead(c));
                             if PcOf(read, c) == Decrementing then Apply(read, Decr(c)) else read)
    {
      var current := if key.Some? then key.value.count else 0;
      if current > 0 {
        clients := clients[c := Decrementing];
        key := Some(key.value.(count := key.value.count - 1));
      }
      clients := clients[c := Idle];
    }

    method ResetKey()
      modifies this`key
      ensures Abstract() == Apply(old(Abstract()), Del)
    {
      key := None;
    }
  }
}
