/**
 Reading the audit log (`listAuditLog`): a filtered page of descending ids, one row fetched
 beyond the limit to know whether there is more, and the last id of the page as the cursor of
 the next. The log only grows, by rows with larger ids; instants are integers.
 */
module Audit {
  import opened Wrappers

  datatype Row = Row(id: nat, userId: Option<int>, action: string, entity: string, createdAt: int)

  datatype Filters = Filters(entity: Option<string>, action: Option<string>, actorId: Option<int>,
                             from: Option<int>, to: Option<int>, limit: Option<int>, cursor: Option<nat>)

  datatype Caller = Caller(isPlatformAdmin: bool, tenantId: Option<int>)

  /** The users a row may be by: anyone, one of some members, or one actor. */
  datatype Users = Anyone | Members(ids: set<int>) | Actor(id: int)

  datatype Where = Where(users: Users, entity: Option<string>, action: Option<string>, from: Option<int>,
                         to: Option<int>)

  predicate UserFits(users: Users, userId: Option<int>) {
    match users
    case Anyone => true
    case Members(ids) => userId.Some? && userId.value in ids
    case Actor(id) => userId == Some(id)
  }

  predicate Fits(w: Where, r: Row) {
    && UserFits(w.users, r.userId)
    && (w.entity.Some? ==> r.entity == w.entity.value)
    && (w.action.Some? ==> r.action == w.action.value)
    && (w.from.Some? ==> r.createdAt >= w.from.value)
    && (w.to.Some? ==> r.createdAt <= w.to.value)
  }

  predicate Below(cursor: Option<nat>, r: Row) {
    cursor.Some? ==> r.id < cursor.value
  }

  ghost predicate Increasing(log: seq<Row>) {
    forall i, j :: 0 <= i < j < |log| ==> log[i].id < log[j].id
  }

  /** All rows a query selects, newest first. */
  function Selected(log: seq<Row>, w: Where, cursor: Option<nat>): seq<Row> {
    if log == [] then []
    else
      var n := |log| - 1;
      (if Fits(w, log[n]) && Below(cursor, log[n]) then [log[n]] else []) + Selected(log[..n], w, cursor)
  }

  function Take(rows: seq<Row>, n: nat): seq<Row> {
    if |rows| > n then rows[..n] else rows
  }

  /** The requested limit, 50 when absent, kept within 1 and 200. */
  function Limit(limit: Option<int>): nat {
    var l := if limit.Some? then limit.value else 50;
    if l < 1 then 1 else if l > 200 then 200 else l
  }

  /** Empty strings and zeros count as absent. */
  function Text(t: Option<string>): Option<string> {
    if t == Some("") then None else t
  }

  function WhereOf(caller: Caller, members: set<int>, f: Filters): Where {
    Where(if f.actorId.Some? && f.actorId.value != 0 then Actor(f.actorId.value)
          else if caller.isPlatformAdmin then Anyone else Members(members),
          Text(f.entity), Text(f.action), f.from, f.to)
  }

  function CursorOf(f: Filters): Option<nat> {
    if f.cursor == Some(0) then None else f.cursor
  }

  predicate Refused(caller: Caller, members: set<int>) {
    !caller.isPlatformAdmin && (caller.tenantId.None? || members == {})
  }

  /** `members`: the users of the caller's tenant. */
  method ListAuditLog(log: seq<Row>, caller: Caller, members: set<int>, f: Filters)
    returns (items: seq<Row>, nextCursor: Option<nat>)
    ensures (items, nextCursor) == Answer(log, caller, members, f)
  {
    var filter := Where(Anyone, None, None, None, None);
    if !caller.isPlatformAdmin {
      if caller.tenantId.None? {
        return [], None;
      }
      if members == {} {
        return [], None;
      }
      filter := filter.(users := Members(members));
    }
    if f.entity.Some? && f.entity.value != "" {
      filter := filter.(entity := f.entity);
    }
    if f.action.Some? && f.action.value != "" {
      filter := filter.(action := f.action);
    }
    if f.actorId.Some? && f.actorId.value != 0 {
      filter := filter.(users := Actor(f.actorId.value));
    }
    if f.from.Some? || f.to.Some? {
      filter := filter.(from := f.from, to := f.to);
    }
    var cursor := None;
    if f.cursor.Some? && f.cursor.value != 0 {
      cursor := f.cursor;
    }
    var limit := Limit(f.limit);
    assert filter == WhereOf(caller, members, f) && cursor == CursorOf(f);
    ghost var all := Selected(log, filter, cursor);
    var rows := Take(Selected(log, filter, cursor), limit + 1);
    assert if |all| > limit then rows[..limit] == all[..limit] else rows == all;
    var hasMore := |rows| > limit;
    var page := if hasMore then rows[..limit] else rows;
    items := page;
    nextCursor := if hasMore then Some(page[|page| - 1].id) else None;
  }

  /** The page and the cursor, in terms of everything selected. */
  function Page(log: seq<Row>, w: Where, cursor: Option<nat>, limit: nat): (seq<Row>, Option<nat>)
    requires limit > 0
  {
    var all := Selected(log, w, cursor);
    if |all| > limit then (all[..limit], Some(all[limit - 1].id)) else (all, None)
  }

  function Answer(log: seq<Row>, caller: Caller, members: set<int>, f: Filters): (seq<Row>, Option<nat>) {
    if Refused(caller, members) then ([], None) else Page(log, WhereOf(caller, members, f), CursorOf(f), Limit(f.limit))
  }

  // ─── Selection ─────────────────────────────────────────────────────────────────────

  lemma {:induction false} SelectedHolds(log: seq<Row>, w: Where, cursor: Option<nat>)
    ensures forall r :: r in Selected(log, w, cursor) <==> r in log && Fits(w, r) && Below(cursor, r)
  {
    if log != [] {
      var n := |log| - 1;
      SelectedHolds(log[..n], w, cursor);
      assert log == log[..n] + [log[n]];
    }
  }

  lemma {:induction false} SelectedFalls(log: seq<Row>, w: Where, cursor: Option<nat>, i: nat, j: nat)
    requires Increasing(log) && i < j < |Selected(log, w, cursor)|
    ensures Selected(log, w, cursor)[i].id > Selected(log, w, cursor)[j].id
  {
    var n := |log| - 1;
    var shorter, newest := log[..n], log[n];
    var all, rest := Selected(log, w, cursor), Selected(shorter, w, cursor);
    assert Increasing(shorter);
    if Fits(w, newest) && Below(cursor, newest) {
      assert all[j] == rest[j - 1];
      if i == 0 {
        SelectedBelow(shorter, w, cursor, j - 1, newest.id);
      } else {
        assert all[i] == rest[i - 1];
        SelectedFalls(shorter, w, cursor, i - 1, j - 1);
      }
    } else {
      assert all == rest;
      SelectedFalls(shorter, w, cursor, i, j);
    }
  }

  /** A selection is exactly the fitting rows below the cursor, once each, newest first. */
  lemma SelectedIs(log: seq<Row>, w: Where, cursor: Option<nat>)
    requires Increasing(log)
    ensures var all := Selected(log, w, cursor);
            && (forall r :: r in all <==> r in log && Fits(w, r) && Below(cursor, r))
            && (forall i, j :: 0 <= i < j < |all| ==> all[i].id > all[j].id)
  {
    SelectedHolds(log, w, cursor);
    var all := Selected(log, w, cursor);
    forall i, j | 0 <= i < j < |all| ensures all[i].id > all[j].id {
      SelectedFalls(log, w, cursor, i, j);
    }
  }

  lemma {:induction false} SelectedBelow(log: seq<Row>, w: Where, cursor: Option<nat>, k: nat, top: nat)
    requires k < |Selected(log, w, cursor)| && forall i :: 0 <= i < |log| ==> log[i].id < top
    ensures Selected(log, w, cursor)[k].id < top && Below(cursor, Selected(log, w, cursor)[k])
  {
    var n := |log| - 1;
    if Fits(w, log[n]) && Below(cursor, log[n]) {
      if k > 0 {
        SelectedBelow(log[..n], w, cursor, k - 1, top);
      }
    } else {
      SelectedBelow(log[..n], w, cursor, k, top);
    }
  }

  lemma ConsAt<T>(x: T, rest: seq<T>, k: nat)
    requires k <= |rest|
    ensures ([x] + rest)[k + 1..] == rest[k..]
    ensures ([x] + rest)[k] == if k == 0 then x else rest[k - 1]
  {}

  /** The newest row comes first, if it is selected at all. */
  lemma SelectedNewest(log: seq<Row>, w: Where, cursor: Option<nat>)
    requires log != []
    ensures var newest, rest := log[|log| - 1], Selected(log[..|log| - 1], w, cursor);
            Selected(log, w, cursor) == if Fits(w, newest) && Below(cursor, newest) then [newest] + rest else rest
  {}

  /** Continuing from the last id of a page selects what was left. */
  lemma {:induction false} SelectedFrom(log: seq<Row>, w: Where, cursor: Option<nat>, k: nat)
    requires Increasing(log) && k < |Selected(log, w, cursor)|
    ensures Selected(log, w, Some(Selected(log, w, cursor)[k].id)) == Selected(log, w, cursor)[k + 1..]
    decreases |log|, 1
  {
    var newest, rest := log[|log| - 1], Selected(log[..|log| - 1], w, cursor);
    SelectedNewest(log, w, cursor);
    if !(Fits(w, newest) && Below(cursor, newest)) {
      FromShorter(log, w, cursor, k);
    } else if k == 0 {
      ConsAt(newest, rest, 0);
      FromNewest(log, w, cursor);
    } else {
      ConsAt(newest, rest, k);
      FromShorter(log, w, cursor, k - 1);
    }
  }

  lemma FromNewest(log: seq<Row>, w: Where, cursor: Option<nat>)
    requires Increasing(log) && log != [] && Below(cursor, log[|log| - 1])
    ensures Selected(log, w, Some(log[|log| - 1].id)) == Selected(log[..|log| - 1], w, cursor)
  {
    SelectedAll(log[..|log| - 1], w, cursor, log[|log| - 1].id);
    SelectedSkips(log, w, log[|log| - 1].id);
  }

  lemma {:induction false} FromShorter(log: seq<Row>, w: Where, cursor: Option<nat>, k: nat)
    requires Increasing(log) && log != [] && k < |Selected(log[..|log| - 1], w, cursor)|
    ensures var rest := Selected(log[..|log| - 1], w, cursor);
            Selected(log, w, Some(rest[k].id)) == rest[k + 1..]
    decreases |log|, 0
  {
    var shorter := log[..|log| - 1];
    SelectedBelow(shorter, w, cursor, k, log[|log| - 1].id);
    SelectedSkips(log, w, Selected(shorter, w, cursor)[k].id);
    SelectedFrom(shorter, w, cursor, k);
  }

  lemma SelectedSkips(log: seq<Row>, w: Where, cursor: nat)
    requires log != [] && cursor <= log[|log| - 1].id
    ensures Selected(log, w, Some(cursor)) == Selected(log[..|log| - 1], w, Some(cursor))
  {}

  /** A cursor above every row is no cursor, given that it lies below the other one. */
  lemma {:induction false} SelectedAll(log: seq<Row>, w: Where, cursor: Option<nat>, top: nat)
    requires forall i :: 0 <= i < |log| ==> log[i].id < top
    requires cursor.Some? ==> top < cursor.value
    ensures Selected(log, w, Some(top)) == Selected(log, w, cursor)
  {
    if log != [] {
      SelectedAll(log[..|log| - 1], w, cursor, top);
    }
  }

  /** Rows that arrive later lie above the cursor and are not selected. */
  lemma {:induction false} SelectedStable(log: seq<Row>, more: seq<Row>, w: Where, cursor: nat)
    requires forall i :: 0 <= i < |more| ==> more[i].id >= cursor
    ensures Selected(log + more, w, Some(cursor)) == Selected(log, w, Some(cursor))
    decreases |more|
  {
    if more == [] {
      assert log + more == log;
    } else {
      var n := |more| - 1;
      assert (log + more)[..|log| + n] == log + more[..n];
      SelectedStable(log, more[..n], w, cursor);
    }
  }

  // ─── Following the cursor ──────────────────────────────────────────────────────────

  /**
   One call per log from the `i`-th on, each with its own limit, until a page has no next cursor or
   the calls run out.
   */
  function Walk(logs: seq<seq<Row>>, limits: seq<nat>, i: nat, w: Where, cursor: Option<nat>): (seq<Row>, bool)
    requires i <= |logs| == |limits| && forall k :: 0 <= k < |limits| ==> limits[k] > 0
    decreases |logs| - i
  {
    if i == |logs| then ([], false)
    else
      var (items, next) := Page(logs[i], w, cursor, limits[i]);
      if next.None? then (items, true)
      else
        var (more, finished) := Walk(logs, limits, i + 1, w, next);
        (items + more, finished)
  }

  /** Every call sees the log of the first one, grown by rows with larger ids. */
  ghost predicate Grown(base: seq<Row>, logs: seq<seq<Row>>) {
    forall i :: 0 <= i < |logs| ==> Increasing(logs[i]) && base <= logs[i]
  }

  lemma LaterRows(base: seq<Row>, log: seq<Row>, w: Where, cursor: nat, k: nat)
    requires Increasing(log) && base <= log && k < |base| && cursor == base[k].id
    ensures Selected(log, w, Some(cursor)) == Selected(base, w, Some(cursor))
  {
    var more := log[|base|..];
    assert log == base + more;
    assert forall i :: 0 <= i < |more| ==> more[i] == log[|base| + i];
    SelectedStable(base, more, w, cursor);
  }

  /** The cursor names a row of the base log. */
  ghost predicate Inside(base: seq<Row>, cursor: Option<nat>) {
    cursor.Some? ==> exists k :: 0 <= k < |base| && base[k].id == cursor.value
  }

  /** One page over a grown log is a page over the base log, and its cursor selects the rest. */
  lemma OnePage(base: seq<Row>, log: seq<Row>, w: Where, cursor: Option<nat>, limit: nat)
    requires limit > 0 && Increasing(base) && Increasing(log) && base <= log && Inside(base, cursor)
    requires cursor.None? ==> log == base
    ensures Selected(log, w, cursor) == Selected(base, w, cursor)
    ensures var all := Selected(base, w, cursor);
            |all| > limit ==>
              Inside(base, Some(all[limit - 1].id)) && Selected(base, w, Some(all[limit - 1].id)) == all[limit..]
  {
    if cursor.Some? {
      var k :| 0 <= k < |base| && base[k].id == cursor.value;
      LaterRows(base, log, w, cursor.value, k);
    }
    var all := Selected(base, w, cursor);
    if |all| > limit {
      SelectedIs(base, w, cursor);
      assert all[limit - 1] in base;
      SelectedFrom(base, w, cursor, limit - 1);
    }
  }

  /** All of it in order when finished, else a part of it, one row or more per call. */
  ghost predicate Covers(walked: (seq<Row>, bool), all: seq<Row>, calls: nat) {
    if walked.1 then walked.0 == all else walked.0 <= all && calls <= |walked.0|
  }

  lemma CoversMore(more: (seq<Row>, bool), all: seq<Row>, limit: nat, calls: nat)
    requires 0 < limit < |all| && Covers(more, all[limit..], calls)
    ensures Covers((all[..limit] + more.0, more.1), all, calls + 1)
  {
    assert all == all[..limit] + all[limit..];
  }

  /** From a cursor inside the base log, a walk covers what is left below it. */
  lemma {:induction false} WalkFrom(base: seq<Row>, logs: seq<seq<Row>>, limits: seq<nat>, i: nat, w: Where,
                                    cursor: Option<nat>)
    requires i <= |logs| == |limits| && forall k :: 0 <= k < |limits| ==> limits[k] > 0
    requires Increasing(base) && Grown(base, logs) && Inside(base, cursor)
    requires cursor.None? && i < |logs| ==> logs[i] == base
    ensures Covers(Walk(logs, limits, i, w, cursor), Selected(base, w, cursor), |logs| - i)
    decreases |logs| - i
  {
    if i < |logs| {
      OnePage(base, logs[i], w, cursor, limits[i]);
      var all := Selected(base, w, cursor);
      if |all| > limits[i] {
        var next := Some(all[limits[i] - 1].id);
        WalkFrom(base, logs, limits, i + 1, w, next);
        CoversMore(Walk(logs, limits, i + 1, w, next), all, limits[i], |logs| - i - 1);
      }
    }
  }

  /**
   Following the cursor to its end, with any limits, while new rows arrive between the calls,
   yields every fitting row that was there at the first call, exactly once, newest first, and no
   later row; and it ends, within one call more than there are such rows.
   */
  lemma PagingIsStable(logs: seq<seq<Row>>, limits: seq<nat>, w: Where)
    requires logs != [] && |limits| == |logs| && forall k :: 0 <= k < |limits| ==> limits[k] > 0
    requires Grown(logs[0], logs)
    ensures var (items, finished) := Walk(logs, limits, 0, w, None);
            && (finished ==> items == Selected(logs[0], w, None))
            && (forall r <- items :: r in logs[0] && Fits(w, r))
            && (|logs| > |Selected(logs[0], w, None)| ==> finished)
  {
    WalkFrom(logs[0], logs, limits, 0, w, None);
    SelectedIs(logs[0], w, None);
    var (items, finished) := Walk(logs, limits, 0, w, None);
    assert forall i :: 0 <= i < |items| ==> items[i] == Selected(logs[0], w, None)[i];
  }

  /** Who a caller's rows are by: its own members, unless an actor was asked for, who then replaces them. */
  lemma Scope(log: seq<Row>, caller: Caller, members: set<int>, f: Filters, r: Row)
    requires Increasing(log) && !caller.isPlatformAdmin
    requires r in Selected(log, WhereOf(caller, members, f), CursorOf(f))
    ensures r.userId.Some?
    ensures if f.actorId.Some? && f.actorId.value != 0 then r.userId == f.actorId else r.userId.value in members
  {
    SelectedIs(log, WhereOf(caller, members, f), CursorOf(f));
  }

  // ─── The answer, in terms of what was asked ────────────────────────────────────────

  /** Platform administrators may see anything; others need an organization that has members. */
  predicate MayLook(caller: Caller, members: set<int>) {
    caller.isPlatformAdmin || (caller.tenantId != None && |members| > 0)
  }

  /** The row is by whom the caller may see, or by the actor asked for. */
  predicate By(caller: Caller, members: set<int>, f: Filters, r: Row) {
    if f.actorId !in {None, Some(0)} then r.userId == f.actorId
    else caller.isPlatformAdmin || (r.userId != None && r.userId.value in members)
  }

  /** The row is what was asked for: filters left empty ask for nothing, and so do zeros. */
  predicate Wanted(caller: Caller, members: set<int>, f: Filters, r: Row) {
    && By(caller, members, f, r)
    && (f.entity in {None, Some("")} || Some(r.entity) == f.entity)
    && (f.action in {None, Some("")} || Some(r.action) == f.action)
    && (f.from == None || f.from.value <= r.createdAt) && (f.to == None || r.createdAt <= f.to.value)
    && (f.cursor in {None, Some(0)} || r.id < f.cursor.value)
  }

  /** The most rows a page may hold: what was asked for, from 1 to 200, or else 50. */
  predicate MostRows(limit: Option<int>, n: nat) {
    match limit
    case None => n == 50
    case Some(l) => if l < 1 then n == 1 else if l <= 200 then n == l else n == 200
  }

  lemma WantedIs(caller: Caller, members: set<int>, f: Filters, r: Row)
    ensures Wanted(caller, members, f, r) <==> Fits(WhereOf(caller, members, f), r) && Below(CursorOf(f), r)
  {}

  ghost predicate Falling(rows: seq<Row>) {
    forall i, j :: 0 <= i < j < |rows| ==> rows[i].id > rows[j].id
  }

  /** The rows of a page among all that were wanted: those with the largest ids, and whether there are more. */
  ghost predicate Newest(items: seq<Row>, next: Option<nat>, all: seq<Row>, most: nat) {
    && Falling(items) && |items| <= most && (forall r <- items :: r in all)
    && (forall r <- all :: r !in items ==> |items| == most && most > 0 && r.id < items[most - 1].id)
    && (next.Some? <==> exists r <- all :: r !in items)
    && (next.Some? ==> items != [] && next.value == items[|items| - 1].id)
  }

  lemma LeftOver(all: seq<Row>, most: nat, r: Row)
    requires Falling(all) && 0 < most <= |all| && r in all && r !in all[..most]
    ensures r.id < all[most - 1].id
  {
    assert all == all[..most] + all[most..];
    var k :| 0 <= k < |all[most..]| && all[most..][k] == r;
    assert r == all[most + k];
  }

  lemma NextLeftOver(all: seq<Row>, most: nat)
    requires Falling(all) && most < |all|
    ensures all[most] !in all[..most]
  {
    forall i | 0 <= i < most ensures all[..most][i] != all[most] {
      assert all[i].id > all[most].id;
    }
  }

  lemma PageIsNewest(all: seq<Row>, most: nat)
    requires Falling(all) && most > 0
    ensures if |all| > most then Newest(all[..most], Some(all[most - 1].id), all, most)
            else Newest(all, None, all, most)
  {
    if |all| > most {
      forall r | r in all && r !in all[..most] ensures r.id < all[most - 1].id {
        LeftOver(all, most, r);
      }
      NextLeftOver(all, most);
    }
  }

  lemma AllWanted(log: seq<Row>, caller: Caller, members: set<int>, f: Filters) returns (all: seq<Row>)
    requires Increasing(log)
    ensures all == Selected(log, WhereOf(caller, members, f), CursorOf(f)) && Falling(all)
    ensures forall r :: r in all <==> r in log && Wanted(caller, members, f, r)
  {
    all := Selected(log, WhereOf(caller, members, f), CursorOf(f));
    SelectedIs(log, WhereOf(caller, members, f), CursorOf(f));
    forall r ensures r in all <==> r in log && Wanted(caller, members, f, r) {
      WantedIs(caller, members, f, r);
    }
  }

  lemma LimitIs(limit: Option<int>, most: nat)
    requires MostRows(limit, most)
    ensures Limit(limit) == most > 0
  {}

  lemma MayLookWhen(caller: Caller, members: set<int>)
    ensures Refused(caller, members) <==> !MayLook(caller, members)
  {}

  /**
   The answer: nothing for a caller who may not look; otherwise, of all rows wanted, the newest, as
   many as a page holds, and a cursor, the last row's id, exactly when there are more.
   */
  lemma AnswerIs(log: seq<Row>, caller: Caller, members: set<int>, f: Filters, most: nat) returns (all: seq<Row>)
    requires Increasing(log) && MostRows(f.limit, most)
    ensures !MayLook(caller, members) ==> Answer(log, caller, members, f) == ([], None)
    ensures forall r :: r in all <==> r in log && Wanted(caller, members, f, r)
    ensures MayLook(caller, members) ==>
              Newest(Answer(log, caller, members, f).0, Answer(log, caller, members, f).1, all, most)
  {
    MayLookWhen(caller, members);
    LimitIs(f.limit, most);
    all := AllWanted(log, caller, members, f);
    PageIsNewest(all, most);
  }
}
