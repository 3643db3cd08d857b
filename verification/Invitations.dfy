/**
 Project invitations (`invitations.service.ts`): a code is mailed, read back and verified, and
 completing the invitation puts the invitee on the project and in its organization. Each
 operation is atomic. A code stands for its own hash; fresh ids are never reused; e-mail
 addresses are already normalised; instants are integer milliseconds.
 */
module Invitations {
  import opened Wrappers
  import opened JsText

  const INVITATION_TTL := 7 * 24 * 60 * 60 * 1000
  const MAX_OTP_ATTEMPTS := 5

  datatype Role = Contractor | Authority

  datatype Status = Pending | Accepted | Revoked

  datatype Invitation = Invitation(project: int, tenant: int, role: Role, email: string, otp: string, attempts: nat,
                                   verified: bool, status: Status, expiresAt: int, acceptedBy: Option<nat>)

  datatype Project = Project(tenant: int, contractor: Option<nat>, authority: Option<nat>, createdBy: nat,
                             deleted: bool)

  datatype User = User(email: string, deleted: bool)

  datatype Rank = OrganizationAdmin | OtherRank

  type Seat = (nat, int)  // a user in a tenant

  datatype State = State(projects: map<int, Project>, invitations: map<nat, Invitation>, nextInvitation: nat,
                         users: map<nat, User>, nextUser: nat, seats: map<Seat, Rank>)

  datatype Op =
    | Create(project: int, role: Role, email: string, otp: string, now: int)
    | Resend(id: nat, project: int, otp: string, now: int)
    | Revoke(id: nat, project: int)
    | Verify(id: nat, project: int, code: string, now: int)
    | Complete(id: nat, project: int, hasProfile: bool, now: int)
    | Remove(project: int, role: Role)

  // ─── Specification of each operation ───────────────────────────────────────────────

  function Holder(p: Project, role: Role): Option<nat> {
    if role == Contractor then p.contractor else p.authority
  }

  function WithHolder(p: Project, role: Role, user: Option<nat>): Project {
    if role == Contractor then p.(contractor := user) else p.(authority := user)
  }

  predicate LiveProject(s: State, project: int) {
    project in s.projects && !s.projects[project].deleted
  }

  predicate Belongs(s: State, id: nat, project: int) {
    id in s.invitations && s.invitations[id].project == project
  }

  /** An invitation that can still be acted on. */
  predicate Usable(s: State, id: nat, project: int, now: int) {
    && Belongs(s, id, project) && s.invitations[id].status == Pending
    && s.invitations[id].expiresAt > now && LiveProject(s, project)
  }

  predicate HoldsAlready(s: State, project: int, role: Role, email: string)
    requires project in s.projects
  {
    var holder := Holder(s.projects[project], role);
    holder.Some? && holder.value in s.users && s.users[holder.value].email == email
  }

  /** Every pending invitation of the slot, revoked. */
  function Voided(invitations: map<nat, Invitation>, project: int, role: Role): map<nat, Invitation> {
    map i | i in invitations ::
      var inv := invitations[i];
      if inv.project == project && inv.role == role && inv.status == Pending then inv.(status := Revoked) else inv
  }

  /** The account with this address, deleted or not: addresses are unique. */
  function AccountOf(s: State, email: string, n: nat): (found: Option<nat>)
    ensures found.Some? ==> found.value < n && found.value in s.users && s.users[found.value].email == email
    ensures found.None? ==> forall u: nat :: u < n && u in s.users ==> s.users[u].email != email
  {
    if n == 0 then None
    else if n - 1 in s.users && s.users[n - 1].email == email then Some(n - 1)
    else AccountOf(s, email, n - 1)
  }

  predicate Completes(s: State, op: Op) {
    && op.Complete? && Usable(s, op.id, op.project, op.now) && s.invitations[op.id].verified
    && match AccountOf(s, s.invitations[op.id].email, s.nextUser)
       case Some(u) => !s.users[u].deleted
       case None => op.hasProfile
  }

  /** The user is the contractor, the authority or the creator of a live project of the tenant. */
  predicate Engaged(projects: map<int, Project>, user: nat, tenant: int) {
    exists p <- projects ::
      projects[p].tenant == tenant && !projects[p].deleted
      && (projects[p].contractor == Some(user) || projects[p].authority == Some(user) || projects[p].createdBy == user)
  }

  function Apply(s: State, op: Op): State {
    match op
    case Create(project, role, email, otp, now) =>
      if !LiveProject(s, project) || HoldsAlready(s, project, role, email) then s
      else
        var inv :=
          Invitation(project, s.projects[project].tenant, role, email, otp, 0, false, Pending, now + INVITATION_TTL,
                     None);
        s.(invitations := Voided(s.invitations, project, role)[s.nextInvitation := inv],
           nextInvitation := s.nextInvitation + 1)
    case Resend(id, project, otp, now) =>
      if !Belongs(s, id, project) || s.invitations[id].status == Accepted then s
      else s.(invitations := s.invitations[id := s.invitations[id].(
                otp := otp, attempts := 0, verified := false, status := Pending, expiresAt := now + INVITATION_TTL)])
    case Revoke(id, project) =>
      if !Belongs(s, id, project) || s.invitations[id].status == Accepted then s
      else s.(invitations := s.invitations[id := s.invitations[id].(status := Revoked)])
    case Verify(id, project, code, now) =>
      if !Usable(s, id, project, now) || s.invitations[id].attempts >= MAX_OTP_ATTEMPTS then s
      else
        var inv := s.invitations[id];
        s.(invitations := s.invitations[id :=
             if Trim(code) == inv.otp then inv.(verified := true, attempts := 0)
               else inv.(attempts := inv.attempts + 1)])
    case Complete(id, project, _, _) =>
      if !Completes(s, op) then s
      else
        var inv := s.invitations[id];
        var account := AccountOf(s, inv.email, s.nextUser);
        var user := if account.Some? then account.value else s.nextUser;
        s.(users := if account.Some? then s.users else s.users[user := User(inv.email, false)],
           nextUser := if account.Some? then s.nextUser else s.nextUser + 1,
           invitations := s.invitations[id := inv.(status := Accepted, acceptedBy := Some(user))],
           projects := s.projects[project := WithHolder(s.projects[project], inv.role, Some(user))],
           seats := if (user, inv.tenant) in s.seats then s.seats else s.seats[(user, inv.tenant) := OtherRank])
    case Remove(project, role) =>
      if !LiveProject(s, project) || Holder(s.projects[project], role).None? then s
      else
        var p, user := s.projects[project], Holder(s.projects[project], role).value;
        var projects := s.projects[project := WithHolder(p, role, None)];
        s.(projects := projects,
           seats := if Evicts(projects, s.seats, user, p.tenant) then s.seats - {(user, p.tenant)} else s.seats)
  }

  /** Membership goes only with the last engagement, and never an administrator's. */
  predicate Evicts(projects: map<int, Project>, seats: map<Seat, Rank>, user: nat, tenant: int) {
    !Engaged(projects, user, tenant) && (user, tenant) in seats && seats[(user, tenant)] != OrganizationAdmin
  }

  function RunFrom(s: State, ops: seq<Op>): State {
    if ops == [] then s else Apply(RunFrom(s, ops[..|ops| - 1]), ops[|ops| - 1])
  }

  // ─── The service ───────────────────────────────────────────────────────────────────

  class InvitationService {
    var projects: map<int, Project>
    var invitations: map<nat, Invitation>
    var nextInvitation: nat
    var users: map<nat, User>
    var nextUser: nat
    var seats: map<Seat, Rank>

    ghost function Abstract(): State
      reads this
    {
      State(projects, invitations, nextInvitation, users, nextUser, seats)
    }

    constructor (projects: map<int, Project>, users: map<nat, User>, nextUser: nat, seats: map<Seat, Rank>)
      ensures Abstract() == State(projects, map[], 0, users, nextUser, seats)
    {
      this.projects, this.users, this.nextUser, this.seats := projects, users, nextUser, seats;
      invitations, nextInvitation := map[], 0;
    }

    method CreateInvitation(project: int, role: Role, email: string, otp: string, now: int) returns (id: Option<nat>)
      modifies this`invitations, this`nextInvitation
      ensures Abstract() == Apply(old(Abstract()), Create(project, role, email, otp, now))
      ensures id == if LiveProject(old(Abstract()), project) && !HoldsAlready(old(Abstract()), project, role, email)
                    then Some(old(nextInvitation)) else None
    {
      if project !in projects || projects[project].deleted {
        return None;
      }
      var holder := if role == Contractor then projects[project].contractor else projects[project].authority;
      if holder.Some? && holder.value in users {
        if users[holder.value].email == email {
          return None;
        }
      }
      invitations := map i | i in invitations ::
        var inv := invitations[i];
        if inv.project == project && inv.role == role && inv.status == Pending then inv.(status := Revoked) else inv;
      var created :=
        Invitation(project, projects[project].tenant, role, email, otp, 0, false, Pending, now + INVITATION_TTL, None);
      invitations := invitations[nextInvitation := created];
      id := Some(nextInvitation);
      nextInvitation := nextInvitation + 1;
    }

    method ResendInvitation(id: nat, project: int, otp: string, now: int) returns (ok: bool)
      modifies this`invitations
      ensures Abstract() == Apply(old(Abstract()), Resend(id, project, otp, now))
      ensures ok <==> Belongs(old(Abstract()), id, project) && old(invitations)[id].status != Accepted
    {
      if id !in invitations || invitations[id].project != project || invitations[id].status == Accepted {
        return false;
      }
      var inv := invitations[id].(otp := otp, attempts := 0, verified := false);
      invitations := invitations[id := inv.(status := Pending, expiresAt := now + INVITATION_TTL)];
      return true;
    }

    method RevokeInvitation(id: nat, project: int) returns (ok: bool)
      modifies this`invitations
      ensures Abstract() == Apply(old(Abstract()), Revoke(id, project))
      ensures ok <==> Belongs(old(Abstract()), id, project) && old(invitations)[id].status != Accepted
    {
      if id !in invitations || invitations[id].project != project || invitations[id].status == Accepted {
        return false;
      }
      invitations := invitations[id := invitations[id].(status := Revoked)];
      return true;
    }

    /** A wrong code burns an attempt; the right one resets them. */
    method VerifyInvitationOtp(id: nat, project: int, code: string, now: int) returns (ok: bool)
      modifies this`invitations
      ensures Abstract() == Apply(old(Abstract()), Verify(id, project, code, now))
      ensures ok <==> Usable(old(Abstract()), id, project, now)
                      && old(invitations)[id].attempts < MAX_OTP_ATTEMPTS && Trim(code) == old(invitations)[id].otp
    {
      if !Usable(State(projects, invitations, nextInvitation, users, nextUser, seats), id, project, now) {
        return false;
      }
      var inv := invitations[id];
      if inv.attempts >= MAX_OTP_ATTEMPTS {
        return false;
      }
      if Trim(code) != inv.otp {
        invitations := invitations[id := inv.(attempts := inv.attempts + 1)];
        return false;
      }
      invitations := invitations[id := inv.(verified := true, attempts := 0)];
      return true;
    }

    method CompleteInvitation(id: nat, project: int, hasProfile: bool, now: int) returns (ok: bool)
      modifies this
      ensures Abstract() == Apply(old(Abstract()), Complete(id, project, hasProfile, now))
      ensures ok <==> Completes(old(Abstract()), Complete(id, project, hasProfile, now))
    {
      var s := State(projects, invitations, nextInvitation, users, nextUser, seats);
      if !Usable(s, id, project, now) {
        return false;
      }
      var inv := invitations[id];
      if !inv.verified {
        return false;
      }
      var account := AccountOf(s, inv.email, nextUser);
      if (account.None? && !hasProfile) || (account.Some? && users[account.value].deleted) {
        return false;
      }
      var userId;
      if account.Some? {
        userId := account.value;
      } else {
        userId := nextUser;
        users := users[userId := User(inv.email, false)];
        nextUser := nextUser + 1;
      }
      invitations := invitations[id := inv.(status := Accepted, acceptedBy := Some(userId))];
      var p := projects[project];
      p := if inv.role == Contractor then p.(contractor := Some(userId)) else p.(authority := Some(userId));
      projects := projects[project := p];
      if (userId, inv.tenant) !in seats {
        seats := seats[(userId, inv.tenant) := OtherRank];
      }
      return true;
    }

    method RemoveStakeholder(project: int, role: Role) returns (removed: Option<nat>, membershipRemoved: bool)
      modifies this`projects, this`seats
      ensures Abstract() == Apply(old(Abstract()), Remove(project, role))
      ensures removed == if LiveProject(old(Abstract()), project) then Holder(old(projects)[project], role) else None
      ensures membershipRemoved
              <==> removed.Some? && Evicts(projects, old(seats), removed.value, old(projects)[project].tenant)
    {
      if project !in projects || projects[project].deleted {
        return None, false;
      }
      var p := projects[project];
      var holder := if role == Contractor then p.contractor else p.authority;
      if holder.None? {
        return None, false;
      }
      var userId := holder.value;
      projects := projects[project := if role == Contractor then p.(contractor := None) else p.(authority := None)];
      removed, membershipRemoved := Some(userId), false;
      if Engaged(projects, userId, p.tenant) {
        return;
      }
      var seat: Seat := (userId, p.tenant);
      if seat !in seats || seats[seat] == OrganizationAdmin {
        return;
      }
      seats := seats - {seat};
      membershipRemoved := true;
    }
  }

  // ─── What every operation keeps ────────────────────────────────────────────────────

  ghost predicate InvitationOk(s: State, inv: Invitation) {
    && inv.attempts <= MAX_OTP_ATTEMPTS
    && (inv.status == Accepted ==> inv.verified && inv.acceptedBy.Some?)
    && inv.project in s.projects && inv.tenant == s.projects[inv.project].tenant
  }

  /** A filled slot has an accepted invitation that names its holder. */
  ghost predicate SlotOk(s: State, project: int, role: Role)
    requires project in s.projects
  {
    Holder(s.projects[project], role).Some? ==>
      exists i <- s.invitations ::
        var inv := s.invitations[i];
        inv.status == Accepted && inv.project == project && inv.role == role
          && inv.acceptedBy == Holder(s.projects[project], role)
  }

  /** A slot holder of a live project is a member of its tenant. */
  ghost predicate Seated(s: State, project: int, role: Role)
    requires project in s.projects
  {
    !s.projects[project].deleted && Holder(s.projects[project], role).Some? ==>
      (Holder(s.projects[project], role).value, s.projects[project].tenant) in s.seats
  }

  /** Ids are handed out in order. */
  ghost predicate Numbered(s: State) {
    forall i <- s.invitations :: i < s.nextInvitation
  }

  /** Nothing is asked of slots: a project's form fills them too, without any invitation. */
  ghost predicate RowsOk(s: State) {
    Numbered(s) && forall i <- s.invitations :: InvitationOk(s, s.invitations[i])
  }

  ghost predicate OnePending(s: State) {
    forall i <- s.invitations, j <- s.invitations ::
      SameSlotPending(s.invitations[i], s.invitations[j]) ==> i == j
  }

  predicate SameSlotPending(a: Invitation, b: Invitation) {
    a.status == Pending && b.status == Pending && a.project == b.project && a.role == b.role
  }

  /** What an operation may make of an invitation that exists already. */
  ghost predicate Keeps(op: Op, i: nat, a: Invitation, b: Invitation) {
    && b.project == a.project && b.role == a.role && b.tenant == a.tenant && b.email == a.email
    && (a.status == Accepted ==> b == a)
    && (b.status == Accepted && a.status != Accepted
        ==> a.verified && b.verified && b.otp == a.otp && b.acceptedBy.Some?)
    && (b.verified && !a.verified ==> op.Verify? && op.id == i && Trim(op.code) == a.otp && b.otp == a.otp)
    && (b.otp != a.otp ==> !b.verified)
    && (b.attempts <= a.attempts || b.attempts <= MAX_OTP_ATTEMPTS)
    && (b.status == Pending && a.status != Pending ==> op.Resend? && op.id == i && a.status == Revoked)
  }

  lemma CreateKeeps(s: State, op: Op, i: nat)
    requires Numbered(s) && i in s.invitations && op.Create?
    ensures i in Apply(s, op).invitations && Keeps(op, i, s.invitations[i], Apply(s, op).invitations[i])
  {
    assert i in Voided(s.invitations, op.project, op.role) && i != s.nextInvitation;
  }

  lemma CodeKeeps(s: State, op: Op, i: nat)
    requires i in s.invitations && (op.Resend? || op.Revoke? || op.Verify?)
    ensures i in Apply(s, op).invitations && Keeps(op, i, s.invitations[i], Apply(s, op).invitations[i])
  {
    if i != op.id {
      assert Apply(s, op).invitations[i] == s.invitations[i];
    }
  }

  lemma InvitationsKeep(s: State, op: Op, i: nat)
    requires Numbered(s) && i in s.invitations
    ensures i in Apply(s, op).invitations && Keeps(op, i, s.invitations[i], Apply(s, op).invitations[i])
  {
    match op
    case Create(_, _, _, _, _) => CreateKeeps(s, op, i);
    case Complete(_, _, _, _) =>
    case Remove(_, _) =>
    case _ => CodeKeeps(s, op, i);
  }

  lemma NumberedStep(s: State, op: Op)
    requires Numbered(s)
    ensures Numbered(Apply(s, op)) && s.nextInvitation <= Apply(s, op).nextInvitation
    ensures forall i :: i in Apply(s, op).invitations && i !in s.invitations ==> op.Create? && i == s.nextInvitation
  {}

  lemma {:induction false} NumberedAlways(s: State, ops: seq<Op>)
    requires Numbered(s)
    ensures Numbered(RunFrom(s, ops))
  {
    if ops != [] {
      NumberedAlways(s, ops[..|ops| - 1]);
      NumberedStep(RunFrom(s, ops[..|ops| - 1]), ops[|ops| - 1]);
    }
  }

  lemma InvitationStep(s: State, op: Op, i: nat)
    requires RowsOk(s) && i in Apply(s, op).invitations
    ensures InvitationOk(Apply(s, op), Apply(s, op).invitations[i])
  {
    if i in s.invitations {
      assert InvitationOk(s, s.invitations[i]);
      InvitationsKeep(s, op, i);
      ProjectsChange(s, op, s.invitations[i].project);
    }
  }

  /** Only a completion fills a slot; a removal empties one; nothing else touches projects. */
  lemma ProjectsChange(s: State, op: Op, project: int)
    ensures Apply(s, op).projects.Keys == s.projects.Keys
    ensures project in s.projects ==>
              var p, p' := s.projects[project], Apply(s, op).projects[project];
              if Completes(s, op) && op.project == project then
                p' == WithHolder(p, s.invitations[op.id].role, Apply(s, op).invitations[op.id].acceptedBy)
              else if op.Remove? && op.project == project && !p.deleted then p' == WithHolder(p, op.role, None)
              else p' == p
  {
    match op
    case Create(_, _, _, _, _) =>
    case Resend(_, _, _, _) =>
    case Revoke(_, _) =>
    case Verify(_, _, _, _) =>
    case Complete(_, _, _, _) =>
    case Remove(p, role) =>
      if LiveProject(s, p) && Holder(s.projects[p], role).None? {
        assert WithHolder(s.projects[p], role, None) == s.projects[p];
      }
  }

  /** A slot that has its accepted invitation keeps having one, whatever the other slots are like. */
  lemma SlotStep(s: State, op: Op, project: int, role: Role)
    requires RowsOk(s) && project in s.projects && SlotOk(s, project, role)
    ensures project in Apply(s, op).projects && SlotOk(Apply(s, op), project, role)
  {
    ProjectsChange(s, op, project);
    var s' := Apply(s, op);
    var holder := Holder(s'.projects[project], role);
    if holder.Some? {
      if Completes(s, op) && op.project == project && s.invitations[op.id].role == role {
        CompletionFills(s, op);
      } else {
        var i :| i in s.invitations && s.invitations[i].status == Accepted && s.invitations[i].project == project
                 && s.invitations[i].role == role && s.invitations[i].acceptedBy == holder;
        InvitationsKeep(s, op, i);
      }
    }
  }

  lemma CompletionFills(s: State, op: Op)
    requires RowsOk(s) && op.Complete? && Completes(s, op)
    ensures op.id in Apply(s, op).invitations
    ensures var inv := Apply(s, op).invitations[op.id];
            inv.status == Accepted && inv.project == op.project && inv.role == s.invitations[op.id].role
              && inv.acceptedBy.Some?
            && (inv.acceptedBy.value, inv.tenant) in Apply(s, op).seats
            && inv.tenant == s.projects[op.project].tenant
  {
    assert InvitationOk(s, s.invitations[op.id]);
  }

  /** Memberships only grow, except for the one a removal may take. */
  lemma SeatsChange(s: State, op: Op, seat: Seat)
    requires seat in s.seats && seat !in Apply(s, op).seats
    ensures op.Remove? && LiveProject(s, op.project)
            && seat.1 == s.projects[op.project].tenant && !Engaged(Apply(s, op).projects, seat.0, seat.1)
  {}

  /**
   A slot holder who is a member stays one: removals for other slots, or anything else, take no
   membership that is still needed.
   */
  lemma SeatedStep(s: State, op: Op, project: int, role: Role)
    requires RowsOk(s) && project in s.projects && Seated(s, project, role)
    ensures project in Apply(s, op).projects && Seated(Apply(s, op), project, role)
  {
    ProjectsChange(s, op, project);
    var s' := Apply(s, op);
    var holder := Holder(s'.projects[project], role);
    if !s'.projects[project].deleted && holder.Some? {
      var seat: Seat := (holder.value, s'.projects[project].tenant);
      if Completes(s, op) && op.project == project && s.invitations[op.id].role == role {
        CompletionFills(s, op);
      } else if seat !in s'.seats {
        SeatsChange(s, op, seat);
        assert Engaged(s'.projects, seat.0, seat.1);
        assert false;
      }
    }
  }

  lemma RowsStep(s: State, op: Op)
    requires RowsOk(s)
    ensures RowsOk(Apply(s, op))
  {
    NumberedStep(s, op);
    forall i | i in Apply(s, op).invitations ensures InvitationOk(Apply(s, op), Apply(s, op).invitations[i]) {
      InvitationStep(s, op, i);
    }
  }

  lemma {:induction false} RowsAlways(s: State, ops: seq<Op>)
    requires RowsOk(s)
    ensures RowsOk(RunFrom(s, ops))
  {
    if ops != [] {
      RowsAlways(s, ops[..|ops| - 1]);
      RowsStep(RunFrom(s, ops[..|ops| - 1]), ops[|ops| - 1]);
    }
  }

  /** In any run, slot by slot: one that has its accepted invitation keeps having one. */
  lemma {:induction false} SlotAlways(s: State, ops: seq<Op>, project: int, role: Role)
    requires RowsOk(s) && project in s.projects && SlotOk(s, project, role)
    ensures project in RunFrom(s, ops).projects && SlotOk(RunFrom(s, ops), project, role)
  {
    if ops != [] {
      SlotAlways(s, ops[..|ops| - 1], project, role);
      RowsAlways(s, ops[..|ops| - 1]);
      SlotStep(RunFrom(s, ops[..|ops| - 1]), ops[|ops| - 1], project, role);
    }
  }

  /**
   In any run, slot by slot: a holder who is a member of the tenant, and whoever replaces him, is
   one as long as he holds it.
   */
  lemma {:induction false} SeatedAlways(s: State, ops: seq<Op>, project: int, role: Role)
    requires RowsOk(s) && project in s.projects && Seated(s, project, role)
    ensures project in RunFrom(s, ops).projects && Seated(RunFrom(s, ops), project, role)
  {
    if ops != [] {
      SeatedAlways(s, ops[..|ops| - 1], project, role);
      RowsAlways(s, ops[..|ops| - 1]);
      SeatedStep(RunFrom(s, ops[..|ops| - 1]), ops[|ops| - 1], project, role);
    }
  }

  /** In any run an accepted invitation never changes again. */
  lemma {:induction false} AcceptedIsFinal(s: State, ops: seq<Op>, i: nat)
    requires Numbered(s) && i in s.invitations && s.invitations[i].status == Accepted
    ensures i in RunFrom(s, ops).invitations && RunFrom(s, ops).invitations[i] == s.invitations[i]
  {
    if ops != [] {
      var n := |ops| - 1;
      AcceptedIsFinal(s, ops[..n], i);
      NumberedAlways(s, ops[..n]);
      InvitationsKeep(RunFrom(s, ops[..n]), ops[n], i);
    }
  }

  // ─── Codes ─────────────────────────────────────────────────────────────────────────

  /** Step `j` presented the code that invitation `i` had then. */
  ghost predicate ReadBack(s: State, ops: seq<Op>, i: nat, j: nat)
    requires j < |ops|
  {
    var before := RunFrom(s, ops[..j]);
    ops[j].Verify? && ops[j].id == i && i in before.invitations && Trim(ops[j].code) == before.invitations[i].otp
  }

  /**
   In any run that starts with no invitations, one that counts as verified (every accepted one
   does) was verified by a step that read back the very code it has now.
   */
  lemma {:induction false} VerifiedWasReadBack(s: State, ops: seq<Op>, i: nat) returns (j: nat)
    requires s.invitations == map[]
    requires i in RunFrom(s, ops).invitations && RunFrom(s, ops).invitations[i].verified
    ensures j < |ops| && ReadBack(s, ops, i, j) && Trim(ops[j].code) == RunFrom(s, ops).invitations[i].otp
  {
    var n := |ops| - 1;
    var before := RunFrom(s, ops[..n]);
    NumberedAlways(s, ops[..n]);
    if i in before.invitations {
      InvitationsKeep(before, ops[n], i);
    }
    if i in before.invitations && before.invitations[i].verified {
      j := VerifiedWasReadBack(s, ops[..n], i);
      assert ops[..n][..j] == ops[..j];
    } else {
      j := n;
    }
  }

  /** At most five wrong codes between one sending and the next, in any run; then only a new code helps. */
  lemma {:induction false} AttemptsBounded(s: State, ops: seq<Op>, i: nat, project: int, code: string, now: int)
    requires Numbered(s) && (i in s.invitations ==> s.invitations[i].attempts <= MAX_OTP_ATTEMPTS)
    requires i in RunFrom(s, ops).invitations
    ensures RunFrom(s, ops).invitations[i].attempts <= MAX_OTP_ATTEMPTS
    ensures RunFrom(s, ops).invitations[i].attempts == MAX_OTP_ATTEMPTS ==>
              Apply(RunFrom(s, ops), Verify(i, project, code, now)) == RunFrom(s, ops)
  {
    if ops != [] {
      var n := |ops| - 1;
      var before := RunFrom(s, ops[..n]);
      NumberedAlways(s, ops[..n]);
      if i in before.invitations {
        AttemptsBounded(s, ops[..n], i, project, code, now);
        InvitationsKeep(before, ops[n], i);
      }
    }
  }

  // ─── Slots ─────────────────────────────────────────────────────────────────────────

  /** A revoked invitation is resent although its slot has a pending one. */
  predicate RevivesBeside(s: State, op: Op) {
    && op.Resend? && Belongs(s, op.id, op.project) && s.invitations[op.id].status == Revoked
    && exists j <- s.invitations ::
         s.invitations[j].status == Pending && s.invitations[j].project == op.project
           && s.invitations[j].role == s.invitations[op.id].role
  }

  /**
   One live invitation per slot survives an operation exactly when it does not revive a revoked one
   beside a live one.
   */
  lemma OnePendingUnlessRevived(s: State, op: Op)
    requires Numbered(s) && OnePending(s)
    ensures OnePending(Apply(s, op)) <==> !RevivesBeside(s, op)
  {
    var s' := Apply(s, op);
    if RevivesBeside(s, op) {
      var j :| j in s.invitations && s.invitations[j].status == Pending && s.invitations[j].project == op.project
               && s.invitations[j].role == s.invitations[op.id].role;
      assert SameSlotPending(s'.invitations[j], s'.invitations[op.id]);
    } else {
      forall i, j | i in s'.invitations && j in s'.invitations && SameSlotPending(s'.invitations[i], s'.invitations[j])
        ensures i == j
      {
        PendingBefore(s, op, i);
        PendingBefore(s, op, j);
      }
    }
  }

  ghost predicate OnePendingAt(s: State, ops: seq<Op>, i: nat)
    requires i <= |ops|
  {
    OnePending(RunFrom(s, ops[..i]))
  }

  predicate RevivedAt(s: State, ops: seq<Op>, i: nat)
    requires i < |ops|
  {
    RevivesBeside(RunFrom(s, ops[..i]), ops[i])
  }

  lemma OnePendingNext(s: State, ops: seq<Op>, i: nat)
    requires Numbered(s) && i < |ops| && OnePendingAt(s, ops, i)
    ensures OnePendingAt(s, ops, i + 1) <==> !RevivedAt(s, ops, i)
  {
    assert ops[..i + 1][..i] == ops[..i];
    NumberedAlways(s, ops[..i]);
    OnePendingUnlessRevived(RunFrom(s, ops[..i]), ops[i]);
  }

  lemma {:induction false} OnePendingUpTo(s: State, ops: seq<Op>, i: nat)
    requires Numbered(s) && OnePending(s) && i <= |ops| && forall k :: 0 <= k < |ops| ==> !RevivedAt(s, ops, k)
    ensures OnePendingAt(s, ops, i)
  {
    if i > 0 {
      OnePendingUpTo(s, ops, i - 1);
      OnePendingNext(s, ops, i - 1);
    }
  }

  /** In any run: one live invitation per slot all along, if and only if no step revives one beside another. */
  lemma OnePendingAlong(s: State, ops: seq<Op>)
    requires Numbered(s) && OnePending(s)
    ensures (forall i :: 0 <= i <= |ops| ==> OnePendingAt(s, ops, i))
            <==> (forall i :: 0 <= i < |ops| ==> !RevivedAt(s, ops, i))
  {
    if forall i :: 0 <= i < |ops| ==> !RevivedAt(s, ops, i) {
      forall i | 0 <= i <= |ops| ensures OnePendingAt(s, ops, i) {
        OnePendingUpTo(s, ops, i);
      }
    } else {
      var i :| 0 <= i < |ops| && RevivedAt(s, ops, i);
      if OnePendingAt(s, ops, i) {
        OnePendingNext(s, ops, i);
      }
    }
  }

  /**
   It can be broken from any state whatever, for any slot somebody can be invited to: invite twice,
   resend the first.
   */
  lemma RevivalBreaks(s: State, project: int, role: Role, email: string, otp: string, now: int)
    requires LiveProject(s, project) && !HoldsAlready(s, project, role, email)
    ensures var first := s.nextInvitation;
            var invited :=
              Apply(Apply(s, Create(project, role, email, otp, now)), Create(project, role, email, otp, now));
            !OnePending(Apply(invited, Resend(first, project, otp, now)))
  {
    var first := s.nextInvitation;
    var once := Apply(s, Create(project, role, email, otp, now));
    assert first in once.invitations && once.nextInvitation == first + 1;
    var invited := Apply(once, Create(project, role, email, otp, now));
    assert invited.invitations[first].status == Revoked && invited.invitations[first + 1].status == Pending;
    var revived := Apply(invited, Resend(first, project, otp, now));
    assert SameSlotPending(revived.invitations[first], revived.invitations[first + 1]);
  }

  /**
   Where a pending invitation comes from: it was pending, it was created just now for an emptied
   slot, or it was revived.
   */
  lemma PendingBefore(s: State, op: Op, i: nat)
    requires Numbered(s) && i in Apply(s, op).invitations && Apply(s, op).invitations[i].status == Pending
    ensures i in s.invitations ==>
              && Keeps(op, i, s.invitations[i], Apply(s, op).invitations[i])
              && !(op.Create? && Apply(s, op) != s && s.invitations[i].project == op.project
                   && s.invitations[i].role == op.role)
    ensures i !in s.invitations ==>
              op.Create? && i == s.nextInvitation && Apply(s, op) != s
              && Apply(s, op).invitations[i].project == op.project && Apply(s, op).invitations[i].role == op.role
  {
    if i in s.invitations {
      InvitationsKeep(s, op, i);
    }
  }

  /** A live project of the tenant that the user made, or holds a slot of. */
  predicate NeededFor(p: Project, user: nat, tenant: int) {
    && !p.deleted && p.tenant == tenant
    && (user == p.createdBy || Holder(p, Contractor) == Some(user) || Holder(p, Authority) == Some(user))
  }

  ghost predicate Needed(s: State, user: nat, tenant: int) {
    exists p <- s.projects :: NeededFor(s.projects[p], user, tenant)
  }

  /**
   An invitation is refused exactly for a project that is gone and an address whose account holds
   the slot already.
   */
  lemma RefusedWhen(s: State, project: int, role: Role, email: string, otp: string, now: int)
    ensures Apply(s, Create(project, role, email, otp, now)) == s
            <==> !(project in s.projects && !s.projects[project].deleted)
                 || exists u <- s.users :: Holder(s.projects[project], role) == Some(u) && s.users[u].email == email
  {
    var op := Create(project, role, email, otp, now);
    if project in s.projects && !s.projects[project].deleted {
      assert HoldsAlready(s, project, role, email)
        <==> exists u <- s.users :: Holder(s.projects[project], role) == Some(u) && s.users[u].email == email;
      if !HoldsAlready(s, project, role, email) {
        assert Apply(s, op).nextInvitation == s.nextInvitation + 1;
      }
    }
  }

  /**
   Who loses the membership with the slot: exactly those with no other engagement in the tenant,
   save its administrator.
   */
  lemma RemovalEvicts(s: State, project: int, role: Role, user: nat)
    requires LiveProject(s, project) && Holder(s.projects[project], role) == Some(user)
    ensures var s', tenant := Apply(s, Remove(project, role)), s.projects[project].tenant;
            && Holder(s'.projects[project], role) == None
            && ((user, tenant) in s'.seats <==>
                  && (user, tenant) in s.seats
                  && (Needed(s', user, tenant) || s.seats[(user, tenant)] == OrganizationAdmin))
            && forall seat <- s.seats :: seat != (user, tenant) ==> seat in s'.seats && s'.seats[seat] == s.seats[seat]
  {}

  /**
   Completion is all or nothing: the slot, the membership and the record change together, and keep
   an existing rank.
   */
  lemma CompletionPlaces(s: State, op: Op)
    requires RowsOk(s) && op.Complete?
    ensures !Completes(s, op) ==> Apply(s, op) == s
    ensures Completes(s, op) ==>
              var s', inv := Apply(s, op), s.invitations[op.id];
              && s'.invitations[op.id].status == Accepted && s'.invitations[op.id].acceptedBy.Some?
              && var user := s'.invitations[op.id].acceptedBy.value;
                 && user in s'.users && s'.users[user].email == inv.email
                 && Holder(s'.projects[op.project], inv.role) == Some(user)
                 && (user, s'.projects[op.project].tenant) in s'.seats
                 && forall seat <- s.seats :: seat in s'.seats && s'.seats[seat] == s.seats[seat]
  {}

  // ─── From invitation to slot ───────────────────────────────────────────────────────

  /** The address has an account that is not deleted, or comes with a profile to make one from. */
  predicate CanJoin(s: State, email: string, hasProfile: bool) {
    match AccountOf(s, email, s.nextUser)
    case Some(u) => !s.users[u].deleted
    case None => hasProfile
  }

  /**
   The whole way: an invitation sent at `t0`, its code presented at `t1` and completed at `t2` goes
   through exactly if the code is right, both fall within seven days, and the address can join; then
   the account with that address holds the slot and is a member.
   */
  lemma InvitationWorks(s: State, project: int, role: Role, email: string, otp: string, t0: int,
                        code: string, t1: int, hasProfile: bool, t2: int)
    requires LiveProject(s, project) && !HoldsAlready(s, project, role, email)
    ensures var id := s.nextInvitation;
            var sent := Apply(s, Create(project, role, email, otp, t0));
            var read := Apply(sent, Verify(id, project, code, t1));
            var complete := Complete(id, project, hasProfile, t2);
            && id in sent.invitations && sent.invitations[id].attempts == 0
            && (Completes(read, complete) <==>
                  && Trim(code) == otp && t1 < t0 + 604800000 && t2 < t0 + 604800000 && CanJoin(s, email, hasProfile))
            && (Completes(read, complete) ==>
                  var done := Apply(read, complete);
                  var holder := Holder(done.projects[project], role);
                  && holder.Some? && holder.value in done.users && done.users[holder.value] == User(email, false)
                  && done.users.Keys == s.users.Keys + {holder.value}
                  && (holder.value !in s.users ==> holder.value == s.nextUser && done.nextUser == s.nextUser + 1)
                  && (holder.value, s.projects[project].tenant) in done.seats
                  && done.invitations[id].status == Accepted && done.invitations[id].acceptedBy == holder)
  {
    var id := s.nextInvitation;
    var sent := Apply(s, Create(project, role, email, otp, t0));
    assert id in sent.invitations && sent.invitations[id].otp == otp && !sent.invitations[id].verified;
    var read := Apply(sent, Verify(id, project, code, t1));
    assert read.users == s.users && read.nextUser == s.nextUser && read.projects == s.projects;
    assert id in read.invitations && read.invitations[id].verified == (Trim(code) == otp && t1 < t0 + 604800000);
    SameAccount(s, read, email, s.nextUser);
  }

  lemma {:induction false} SameAccount(s: State, t: State, email: string, n: nat)
    requires s.users == t.users
    ensures AccountOf(s, email, n) == AccountOf(t, email, n)
  {
    if n > 0 {
      SameAccount(s, t, email, n - 1);
    }
  }

  /** The codes presented one after another. */
  function Attempts(id: nat, project: int, codes: seq<string>, now: int): seq<Op> {
    seq(|codes|, i requires 0 <= i < |codes| => Verify(id, project, codes[i], now))
  }

  /** After `n` wrong codes the count stands at `n`, but never above five, and nothing else changed. */
  predicate Missed(s: State, t: State, id: nat, n: nat) {
    id in s.invitations
    && t == s.(invitations := s.invitations[id := s.invitations[id].(attempts := if n < 5 then n else 5)])
  }

  lemma WrongOne(s: State, t: State, id: nat, project: int, n: nat, code: string, now: int)
    requires Usable(s, id, project, now) && Missed(s, t, id, n) && Trim(code) != s.invitations[id].otp
    ensures Missed(s, Apply(t, Verify(id, project, code, now)), id, n + 1)
  {}

  lemma AttemptsMore(id: nat, project: int, codes: seq<string>, now: int, n: nat)
    requires |codes| == n + 1
    ensures Attempts(id, project, codes, now)
            == Attempts(id, project, codes[..n], now) + [Verify(id, project, codes[n], now)]
  {}

  lemma RunSnoc(s: State, ops: seq<Op>, op: Op)
    ensures RunFrom(s, ops + [op]) == Apply(RunFrom(s, ops), op)
  {
    assert (ops + [op])[..|ops|] == ops;
  }

  lemma {:induction false} WrongCodes(s: State, id: nat, project: int, codes: seq<string>, now: int)
    requires Usable(s, id, project, now) && s.invitations[id].attempts == 0
    requires forall code <- codes :: Trim(code) != s.invitations[id].otp
    ensures Missed(s, RunFrom(s, Attempts(id, project, codes, now)), id, |codes|)
  {
    if codes == [] {
      assert s.invitations[id := s.invitations[id].(attempts := 0)] == s.invitations;
    } else {
      var n := |codes| - 1;
      assert codes[n] in codes && forall code <- codes[..n] :: code in codes;
      WrongCodes(s, id, project, codes[..n], now);
      AttemptsMore(id, project, codes, now, n);
      RunSnoc(s, Attempts(id, project, codes[..n], now), Verify(id, project, codes[n], now));
      WrongOne(s, RunFrom(s, Attempts(id, project, codes[..n], now)), id, project, n, codes[n], now);
    }
  }

  /** The lock: after any wrong codes in a row the right one still verifies exactly if there were fewer than five. */
  lemma LockedAfterFive(s: State, id: nat, project: int, codes: seq<string>, right: string, now: int)
    requires Usable(s, id, project, now) && s.invitations[id].attempts == 0 && !s.invitations[id].verified
    requires (forall code <- codes :: Trim(code) != s.invitations[id].otp) && Trim(right) == s.invitations[id].otp
    ensures var after := Apply(RunFrom(s, Attempts(id, project, codes, now)), Verify(id, project, right, now));
            && id in after.invitations && (after.invitations[id].verified <==> |codes| < 5)
            && (after.invitations[id].verified ==> after.invitations[id].attempts == 0)
  {
    WrongCodes(s, id, project, codes, now);
  }

  /** A new code opens the way again, whatever was before: revoked, expired or locked, short of accepted. */
  lemma ResendingReopens(s: State, id: nat, project: int, otp: string, t0: int, right: string, t1: int)
    requires Belongs(s, id, project) && s.invitations[id].status != Accepted && LiveProject(s, project)
    requires Trim(right) == otp
    ensures var again := Apply(s, Resend(id, project, otp, t0));
            && id in again.invitations && !again.invitations[id].verified && again.invitations[id].attempts == 0
            && (Apply(again, Verify(id, project, right, t1)).invitations[id].verified <==> t1 < t0 + 604800000)
  {}
}
