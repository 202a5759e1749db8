/**
 Team seats and owners (apps/api/src/team): invitations, acceptances, role changes, removals and revocations
 of one workspace. All but revocation hold the workspace's advisory lock until they commit.
 */
module Team {
  import opened Wrappers

  datatype Role = OWNER | MANAGER | STAFF

  datatype Invitation = Invitation(email: nat, role: Role, expiresAt: int, accepted: bool, revoked: bool)

  /** A member is known by the e-mail address of the user. */
  datatype Team = Team(members: map<nat, Role>, invitations: seq<Invitation>, seats: nat, now: int)

  const INVITATION_TTL_MS := 7 * 24 * 60 * 60 * 1000

  datatype Refusal =
    | ForbiddenRoleChange
    | PlanLimitReached
    | AlreadyAMember
    | InvitationAlreadyPending
    | InvitationNotFound
    | InvitationRevoked
    | InvitationAlreadyAccepted
    | InvitationExpired
    | InvitationEmailMismatch
    | MemberNotFound
    | LastOwnerRequired

  /** The invitations that hold a seat. */
  function Pending(t: Team): set<nat> {
    set i | 0 <= i < |t.invitations| && !t.invitations[i].accepted && !t.invitations[i].revoked && t.invitations[i].expiresAt > t.now
  }

  function Owners(t: Team): set<nat> {
    set m | m in t.members && t.members[m] == OWNER
  }

  /** The first invitation of `email` that is neither accepted nor revoked, whether or not it has expired. */
  function PendingFor(invitations: seq<Invitation>, email: nat): (found: Option<nat>)
    ensures found.Some? ==>
              && found.value < |invitations| && invitations[found.value].email == email
              && !invitations[found.value].accepted && !invitations[found.value].revoked
    ensures found.None? ==>
              forall i | 0 <= i < |invitations| :: invitations[i].email != email || invitations[i].accepted || invitations[i].revoked
  {
    if invitations == [] then None
    else
      var before, last := PendingFor(invitations[..|invitations| - 1], email), invitations[|invitations| - 1];
      if before.Some? then before
      else if last.email == email && !last.accepted && !last.revoked then Some(|invitations| - 1)
      else None
  }

  function Unacceptable(t: Team, invitation: nat): Option<Refusal>
    requires invitation < |t.invitations|
  {
    var i := t.invitations[invitation];
    if i.revoked then Some(InvitationRevoked)
    else if i.accepted then Some(InvitationAlreadyAccepted)
    else if i.expiresAt <= t.now then Some(InvitationExpired)
    else None
  }

  // ----- What a transaction writes -----

  datatype Write =
    | AddInvitation(email: nat, role: Role, expiresAt: int, expired: Option<nat>)
    | AddMember(invitation: nat, user: nat, role: Role)
    | SetRole(user: nat, role: Role)
    | DropMember(user: nat)
    | SetRevoked(invitation: nat)

  function Revoked(invitations: seq<Invitation>, i: nat): seq<Invitation> {
    if i < |invitations| then invitations[i := invitations[i].(revoked := true)] else invitations
  }

  function Apply(t: Team, write: Write): Team {
    match write
    case AddInvitation(email, role, expiresAt, expired) =>
      var invitations := if expired.Some? then Revoked(t.invitations, expired.value) else t.invitations;
      t.(invitations := invitations + [Invitation(email, role, expiresAt, false, false)])
    case AddMember(i, user, role) =>
      t.(members := t.members[user := role],
         invitations := if i < |t.invitations| then t.invitations[i := t.invitations[i].(accepted := true)] else t.invitations)
    case SetRole(user, role) => t.(members := t.members[user := role])
    case DropMember(user) => t.(members := t.members - {user})
    case SetRevoked(i) => t.(invitations := Revoked(t.invitations, i))
  }

  // ----- The statements of a transaction -----

  datatype Operation =
    | Invite(email: nat, role: Role)
    | Accept(invitation: nat, user: nat)
    | ChangeRole(user: nat, role: Role)
    | Remove(user: nat)
    | Revoke(invitation: nat)

  /** What a transaction has seen so far. */
  datatype Progress =
    | Start
    | AtLock
    | Locked
    | Acceptable
    | Stranger
    | SawPlan(seats: nat)
    | SawMembers(seats: nat, count: nat)
    | HasRoom
    | NotMember
    | SawTarget(role: Role)
    | Ready(write: Write)
    | Finished(refusal: Option<Refusal>)

  function Rank(p: Progress): nat {
    match p
    case Start => 9
    case AtLock => 8
    case Locked => 7
    case Acceptable => 6
    case Stranger => 5
    case SawPlan(_) => 4
    case SawMembers(_, _) => 3
    case HasRoom => 2
    case NotMember => 1
    case SawTarget(_) => 1
    case Ready(_) => 0
    case Finished(_) => 0
  }

  function Refuse(refusal: Refusal): Progress {
    Finished(Some(refusal))
  }

  function InviteNext(t: Team, email: nat, role: Role, p: Progress): Progress {
    match p
    case Start => if role == OWNER then Refuse(ForbiddenRoleChange) else AtLock
    case Locked => SawPlan(t.seats)
    case SawPlan(seats) => SawMembers(seats, |t.members|)
    case SawMembers(seats, count) => if count + |Pending(t)| >= seats then Refuse(PlanLimitReached) else HasRoom
    case HasRoom => if email in t.members then Refuse(AlreadyAMember) else NotMember
    case NotMember =>
      var pending := PendingFor(t.invitations, email);
      if pending.Some? && t.invitations[pending.value].expiresAt > t.now then Refuse(InvitationAlreadyPending)
      else Ready(AddInvitation(email, role, t.now + INVITATION_TTL_MS, pending))
    case _ => p
  }

  /** The invitation is looked at twice: before the lock is taken, and again under it. */
  function AcceptNext(t: Team, invitation: nat, user: nat, p: Progress): Progress {
    match p
    case Start =>
      if invitation >= |t.invitations| then Refuse(InvitationNotFound)
      else if Unacceptable(t, invitation).Some? then Finished(Unacceptable(t, invitation))
      else if t.invitations[invitation].email != user then Refuse(InvitationEmailMismatch)
      else AtLock
    case Locked =>
      if invitation >= |t.invitations| then Refuse(InvitationNotFound)
      else if Unacceptable(t, invitation).Some? then Finished(Unacceptable(t, invitation))
      else Acceptable
    case Acceptable => if user in t.members then Refuse(AlreadyAMember) else Stranger
    case Stranger => SawPlan(t.seats)
    case SawPlan(seats) =>
      if |t.members| >= seats || invitation >= |t.invitations| then Refuse(PlanLimitReached)
      else Ready(AddMember(invitation, user, t.invitations[invitation].role))
    case _ => p
  }

  function ChangeRoleNext(t: Team, user: nat, role: Role, p: Progress): Progress {
    match p
    case Start => AtLock
    case Locked => if user in t.members then SawTarget(t.members[user]) else Refuse(MemberNotFound)
    case SawTarget(target) =>
      if target == OWNER && role != OWNER && |Owners(t)| <= 1 then Refuse(LastOwnerRequired)
      else if target == role then Finished(None)
      else Ready(SetRole(user, role))
    case _ => p
  }

  function RemoveNext(t: Team, user: nat, p: Progress): Progress {
    match p
    case Start => AtLock
    case Locked => if user in t.members then SawTarget(t.members[user]) else Refuse(MemberNotFound)
    case SawTarget(target) =>
      if target == OWNER && |Owners(t)| <= 1 then Refuse(LastOwnerRequired) else Ready(DropMember(user))
    case _ => p
  }

  /** Revocation takes no lock. */
  function RevokeNext(t: Team, invitation: nat, p: Progress): Progress {
    match p
    case Start =>
      if invitation >= |t.invitations| || t.invitations[invitation].accepted then Refuse(InvitationNotFound)
      else if t.invitations[invitation].revoked then Finished(None)
      else Ready(SetRevoked(invitation))
    case _ => p
  }

  /** The next statement of a transaction; taking the lock and committing are not among them. */
  function Next(t: Team, operation: Operation, p: Progress): Progress {
    match operation
    case Invite(email, role) => InviteNext(t, email, role, p)
    case Accept(invitation, user) => AcceptNext(t, invitation, user, p)
    case ChangeRole(user, role) => ChangeRoleNext(t, user, role, p)
    case Remove(user) => RemoveNext(t, user, p)
    case Revoke(invitation) => RevokeNext(t, invitation, p)
  }

  // ----- A transaction on its own -----

  /** Where a transaction ends up if nothing else happens meanwhile. */
  function Settled(t: Team, operation: Operation, p: Progress): Progress
    decreases Rank(p)
  {
    if p.AtLock? then Settled(t, operation, Locked)
    else
      var next := Next(t, operation, p);
      if Rank(next) < Rank(p) then Settled(t, operation, next) else p
  }

  function Executed(t: Team, operation: Operation): Team {
    var p := Settled(t, operation, Start);
    if p.Ready? then Apply(t, p.write) else t
  }

  function OutcomeOf(t: Team, operation: Operation): Result<(), Refusal> {
    var p := Settled(t, operation, Start);
    if p.Finished? && p.refusal.Some? then Failure(p.refusal.value) else Success(())
  }

  /** One statement of a transaction that runs alone. */
  lemma OneStatement(t: Team, operation: Operation, p: Progress, next: Progress)
    requires !p.AtLock? && Next(t, operation, p) == next && Rank(next) < Rank(p)
    ensures Settled(t, operation, p) == Settled(t, operation, next)
  {
  }

  lemma AtEnd(t: Team, operation: Operation, p: Progress)
    requires p.Finished? || p.Ready?
    ensures Settled(t, operation, p) == p
  {
  }

  lemma FromLock(t: Team, operation: Operation)
    requires Next(t, operation, Start) == AtLock
    ensures Settled(t, operation, Start) == Settled(t, operation, Locked)
  {
    OneStatement(t, operation, Start, AtLock);
  }

  lemma InviteSettled(t: Team, email: nat, role: Role)
    requires role != OWNER
    ensures Settled(t, Invite(email, role), Start)
            == if |t.members| + |Pending(t)| >= t.seats then Refuse(PlanLimitReached)
               else if email in t.members then Refuse(AlreadyAMember)
               else InviteNext(t, email, role, NotMember)
  {
    hide Settled;
    var o := Invite(email, role);
    FromLock(t, o);
    OneStatement(t, o, Locked, SawPlan(t.seats));
    OneStatement(t, o, SawPlan(t.seats), SawMembers(t.seats, |t.members|));
    var hasRoom := InviteNext(t, email, role, SawMembers(t.seats, |t.members|));
    OneStatement(t, o, SawMembers(t.seats, |t.members|), hasRoom);
    if hasRoom == HasRoom {
      var next := InviteNext(t, email, role, HasRoom);
      OneStatement(t, o, HasRoom, next);
      if next == NotMember {
        OneStatement(t, o, NotMember, InviteNext(t, email, role, NotMember));
        AtEnd(t, o, InviteNext(t, email, role, NotMember));
      } else {
        AtEnd(t, o, next);
      }
    } else {
      AtEnd(t, o, hasRoom);
    }
  }

  lemma AcceptSettled(t: Team, invitation: nat, user: nat)
    requires invitation in Pending(t) && t.invitations[invitation].email == user && user !in t.members
    ensures Settled(t, Accept(invitation, user), Start)
            == if |t.members| >= t.seats then Refuse(PlanLimitReached)
               else Ready(AddMember(invitation, user, t.invitations[invitation].role))
  {
    hide Settled;
    var o := Accept(invitation, user);
    FromLock(t, o);
    OneStatement(t, o, Locked, Acceptable);
    OneStatement(t, o, Acceptable, Stranger);
    OneStatement(t, o, Stranger, SawPlan(t.seats));
    var end := AcceptNext(t, invitation, user, SawPlan(t.seats));
    OneStatement(t, o, SawPlan(t.seats), end);
    AtEnd(t, o, end);
  }

  // ----- What each operation does, alone -----

  ghost predicate Open(i: Invitation, email: nat) {
    i.email == email && !i.accepted && !i.revoked
  }

  /** The first invitation of `email` that was neither accepted nor revoked. */
  ghost predicate FirstOpen(invitations: seq<Invitation>, email: nat, i: nat) {
    i < |invitations| && Open(invitations[i], email) && forall j | 0 <= j < i :: !Open(invitations[j], email)
  }

  lemma {:induction false} PendingIsFirst(invitations: seq<Invitation>, email: nat)
    ensures match PendingFor(invitations, email)
            case Some(i) => FirstOpen(invitations, email, i)
            case None => forall i | 0 <= i < |invitations| :: !Open(invitations[i], email)
  {
    if invitations != [] {
      PendingIsFirst(invitations[..|invitations| - 1], email);
    }
  }

  /** `after` is `before` with one invitation replaced. */
  ghost predicate OnlyInvitation(before: Team, after: Team, i: nat, changed: Invitation) {
    i < |before.invitations| && after.invitations == before.invitations[i := changed]
  }

  /**
   An invitation that is accepted for sending holds its role and seven days; an expired one of the same person that
   was still open is revoked, and nothing else changes. A refusal changes nothing.
   */
  lemma InviteLaw(t: Team, email: nat, role: Role)
    ensures var after, r := Executed(t, Invite(email, role)), OutcomeOf(t, Invite(email, role));
            && (role == OWNER ==> r == Failure(ForbiddenRoleChange))
            && (role != OWNER && |t.members| + |Pending(t)| >= t.seats ==> r == Failure(PlanLimitReached))
            && (role != OWNER && |t.members| + |Pending(t)| < t.seats && email in t.members ==> r == Failure(AlreadyAMember))
            && (role != OWNER && |t.members| + |Pending(t)| < t.seats && email !in t.members ==>
                  && (r.Failure? <==> exists i: nat :: FirstOpen(t.invitations, email, i) && t.invitations[i].expiresAt > t.now)
                  && (r.Failure? ==> r == Failure(InvitationAlreadyPending)))
            && (r.Failure? ==> after == t)
            && (r.Success? ==>
                  && after == t.(invitations := after.invitations) && |after.invitations| == |t.invitations| + 1
                  && after.invitations[|t.invitations|] == Invitation(email, role, t.now + 604_800_000, false, false)
                  && forall i: nat | i < |t.invitations| ::
                       after.invitations[i]
                       == if FirstOpen(t.invitations, email, i) then t.invitations[i].(revoked := true) else t.invitations[i])
  {
    hide Settled, Pending;
    PendingIsFirst(t.invitations, email);
    if role == OWNER {
      OneStatement(t, Invite(email, role), Start, Refuse(ForbiddenRoleChange));
      AtEnd(t, Invite(email, role), Refuse(ForbiddenRoleChange));
    } else {
      InviteSettled(t, email, role);
    }
  }

  /** Why an invitation cannot be accepted, in the order it is found out. */
  ghost function AcceptRefusal(t: Team, invitation: nat, user: nat): Option<Refusal> {
    if invitation >= |t.invitations| then Some(InvitationNotFound)
    else
      var i := t.invitations[invitation];
      if i.revoked then Some(InvitationRevoked)
      else if i.accepted then Some(InvitationAlreadyAccepted)
      else if i.expiresAt <= t.now then Some(InvitationExpired)
      else if i.email != user then Some(InvitationEmailMismatch)
      else if user in t.members then Some(AlreadyAMember)
      else if |t.members| >= t.seats then Some(PlanLimitReached)
      else None
  }

  /** An acceptance makes its user a member with the invitation's role and uses the invitation up. */
  lemma AcceptLaw(t: Team, invitation: nat, user: nat)
    ensures var after, r := Executed(t, Accept(invitation, user)), OutcomeOf(t, Accept(invitation, user));
            match AcceptRefusal(t, invitation, user)
            case Some(refusal) => r == Failure(refusal) && after == t
            case None =>
              && r.Success? && invitation < |t.invitations|
              && after.members == t.members[user := t.invitations[invitation].role]
              && OnlyInvitation(t, after, invitation, t.invitations[invitation].(accepted := true))
              && after.seats == t.seats && after.now == t.now
  {
    hide Settled;
    var o := Accept(invitation, user);
    var first := AcceptNext(t, invitation, user, Start);
    if first != AtLock {
      OneStatement(t, o, Start, first);
      AtEnd(t, o, first);
    } else if user in t.members {
      FromLock(t, o);
      OneStatement(t, o, Locked, Acceptable);
      OneStatement(t, o, Acceptable, Refuse(AlreadyAMember));
      AtEnd(t, o, Refuse(AlreadyAMember));
    } else {
      AcceptSettled(t, invitation, user);
    }
  }

  /** A change of role sets that member's role, a removal takes that member away: unless nobody would be left an owner. */
  lemma MemberLaw(t: Team, user: nat, role: Role)
    ensures var known, lastOwner := user in t.members, user in t.members && t.members[user] == OWNER && Owners(t) == {user};
            var changed, removed := Executed(t, ChangeRole(user, role)), Executed(t, Remove(user));
            && OutcomeOf(t, ChangeRole(user, role))
               == (if !known then Failure(MemberNotFound)
                   else if lastOwner && role != OWNER then Failure(LastOwnerRequired) else Success(()))
            && OutcomeOf(t, Remove(user))
               == (if !known then Failure(MemberNotFound) else if lastOwner then Failure(LastOwnerRequired) else Success(()))
            && changed == (if known && !(lastOwner && role != OWNER) then t.(members := t.members[user := role]) else t)
            && removed == (if known && !lastOwner then t.(members := t.members - {user}) else t)
  {
    hide Settled, Pending;
    LastOwner(t, user);
    FromLock(t, ChangeRole(user, role));
    FromLock(t, Remove(user));
    var change, remove := ChangeRoleNext(t, user, role, Locked), RemoveNext(t, user, Locked);
    OneStatement(t, ChangeRole(user, role), Locked, change);
    OneStatement(t, Remove(user), Locked, remove);
    if user in t.members {
      OneStatement(t, ChangeRole(user, role), change, ChangeRoleNext(t, user, role, change));
      OneStatement(t, Remove(user), remove, RemoveNext(t, user, remove));
      AtEnd(t, ChangeRole(user, role), ChangeRoleNext(t, user, role, change));
      AtEnd(t, Remove(user), RemoveNext(t, user, remove));
      assert t.members[user := t.members[user]] == t.members;
    } else {
      AtEnd(t, ChangeRole(user, role), change);
      AtEnd(t, Remove(user), remove);
    }
  }

  lemma LastOwner(t: Team, user: nat)
    ensures user in t.members && t.members[user] == OWNER ==> (|Owners(t)| <= 1 <==> Owners(t) == {user})
  {
    if user in t.members && t.members[user] == OWNER {
      OthersOwn(t, user);
      assert Owners(t) - {user} == {} ==> Owners(t) == {user};
    }
  }

  /** A revocation revokes an invitation that was not accepted, without waiting for anybody. */
  lemma RevokeLaw(t: Team, invitation: nat)
    ensures var after, r := Executed(t, Revoke(invitation)), OutcomeOf(t, Revoke(invitation));
            if invitation >= |t.invitations| || t.invitations[invitation].accepted then r == Failure(InvitationNotFound) && after == t
            else r.Success? && after == t.(invitations := t.invitations[invitation := t.invitations[invitation].(revoked := true)])
  {
    hide Settled;
    var next := RevokeNext(t, invitation, Start);
    OneStatement(t, Revoke(invitation), Start, next);
    AtEnd(t, Revoke(invitation), next);
  }

  class TeamTables {
    var members: map<nat, Role>
    var invitations: seq<Invitation>
    var seats: nat
    var now: int

    function State(): Team
      reads this
    {
      Team(members, invitations, seats, now)
    }

    method Invite(email: nat, role: Role) returns (r: Result<(), Refusal>)
      modifies this`invitations
      ensures State() == Executed(old(State()), Operation.Invite(email, role))
      ensures r == OutcomeOf(old(State()), Operation.Invite(email, role))
      ensures r.Success? <==>
                && role != OWNER && email !in members && |members| + |Pending(old(State()))| < seats
                && forall i | 0 <= i < |old(invitations)| && PendingFor(old(invitations), email) == Some(i) ::
                     old(invitations)[i].expiresAt <= now
    {
      if role == OWNER {
        return Failure(ForbiddenRoleChange);
      }
      InviteSettled(State(), email, role);
      if |members| + |Pending(State())| >= seats {
        return Failure(PlanLimitReached);
      }
      if email in members {
        return Failure(AlreadyAMember);
      }
      var pending := PendingFor(invitations, email);
      if pending.Some? {
        if invitations[pending.value].expiresAt > now {
          return Failure(InvitationAlreadyPending);
        }
        invitations := invitations[pending.value := invitations[pending.value].(revoked := true)];
      }
      invitations := invitations + [Invitation(email, role, now + INVITATION_TTL_MS, false, false)];
      return Success(());
    }

    method AcceptInvitation(invitation: nat, user: nat) returns (r: Result<(), Refusal>)
      modifies this`invitations, this`members
      ensures State() == Executed(old(State()), Accept(invitation, user))
      ensures r == OutcomeOf(old(State()), Accept(invitation, user))
      ensures r.Success? <==>
                && invitation in Pending(old(State())) && old(invitations)[invitation].email == user
                && user !in old(members) && |old(members)| < seats
    {
      if invitation >= |invitations| {
        return Failure(InvitationNotFound);
      }
      var current := invitations[invitation];
      if current.revoked {
        return Failure(InvitationRevoked);
      }
      if current.accepted {
        return Failure(InvitationAlreadyAccepted);
      }
      if current.expiresAt <= now {
        return Failure(InvitationExpired);
      }
      if current.email != user {
        return Failure(InvitationEmailMismatch);
      }
      if user in members {
        return Failure(AlreadyAMember);
      }
      AcceptSettled(State(), invitation, user);
      if |members| >= seats {
        return Failure(PlanLimitReached);
      }
      members := members[user := current.role];
      invitations := invitations[invitation := current.(accepted := true)];
      return Success(());
    }

    method RevokeInvitation(invitation: nat) returns (r: Result<(), Refusal>)
      modifies this`invitations
      ensures State() == Executed(old(State()), Revoke(invitation))
      ensures r == OutcomeOf(old(State()), Revoke(invitation))
      ensures r.Success? <==> invitation < |old(invitations)| && !old(invitations)[invitation].accepted
    {
      if invitation >= |invitations| || invitations[invitation].accepted {
        return Failure(InvitationNotFound);
      }
      if !invitations[invitation].revoked {
        invitations := invitations[invitation := invitations[invitation].(revoked := true)];
      }
      return Success(());
    }

    method ChangeMemberRole(user: nat, role: Role) returns (r: Result<(), Refusal>)
      modifies this`members
      ensures State() == Executed(old(State()), ChangeRole(user, role))
      ensures r == OutcomeOf(old(State()), ChangeRole(user, role))
      ensures r.Success? <==> user in old(members) && (role == OWNER || Owners(old(State())) - {user} != {} || old(members)[user] != OWNER)
    {
      OthersOwn(State(), user);
      if user !in members {
        return Failure(MemberNotFound);
      }
      var ownerCount := |Owners(State())|;
      if members[user] == OWNER && role != OWNER && ownerCount <= 1 {
        return Failure(LastOwnerRequired);
      }
      if members[user] != role {
        members := members[user := role];
      }
      return Success(());
    }

    method RemoveMember(user: nat) returns (r: Result<(), Refusal>)
      modifies this`members
      ensures State() == Executed(old(State()), Remove(user))
      ensures r == OutcomeOf(old(State()), Remove(user))
      ensures r.Success? <==> user in old(members) && (Owners(old(State())) - {user} != {} || old(members)[user] != OWNER)
    {
      OthersOwn(State(), user);
      if user !in members {
        return Failure(MemberNotFound);
      }
      var ownerCount := |Owners(State())|;
      if members[user] == OWNER && ownerCount <= 1 {
        return Failure(LastOwnerRequired);
      }
      members := members - {user};
      return Success(());
    }
  }

  /** Counting at least two owners, of whom `user` is one, means there is another. */
  lemma OthersOwn(t: Team, user: nat)
    ensures user in t.members && t.members[user] == OWNER ==> (|Owners(t)| >= 2 <==> Owners(t) - {user} != {})
  {
    if user in t.members && t.members[user] == OWNER {
      assert Owners(t) == (Owners(t) - {user}) + {user};
    }
  }

  // ----- Transactions interleaved -----

  datatype Process = Process(operation: Operation, progress: Progress)

  /** `lock` is the process that holds the workspace's advisory lock. */
  datatype System = System(team: Team, lock: Option<nat>, processes: seq<Process>)

  datatype Step =
    | Begin(operation: Operation)
    | Advance(process: nat)
    | Abort(process: nat)
    | Tick(ms: nat)
    | Upgrade(seats: nat)

  function Move(s: System, i: nat, p: Progress): seq<Process>
    requires i < |s.processes|
  {
    s.processes[i := s.processes[i].(progress := p)]
  }

  function Unlocked(s: System, i: nat): Option<nat> {
    if s.lock == Some(i) then None else s.lock
  }

  /** One process runs one statement: it waits for the lock, commits and lets the lock go, or looks at the tables. */
  function Advanced(s: System, i: nat): System
    requires i < |s.processes|
  {
    var process := s.processes[i];
    match process.progress
    case AtLock => if s.lock.None? then s.(lock := Some(i), processes := Move(s, i, Locked)) else s
    case Ready(write) => System(Apply(s.team, write), Unlocked(s, i), Move(s, i, Finished(None)))
    case Finished(_) => s.(lock := Unlocked(s, i))
    case _ => s.(processes := Move(s, i, Next(s.team, process.operation, process.progress)))
  }

  /** A step that is not possible changes nothing. A plan never shrinks and time never goes back. */
  function Do(s: System, step: Step): System {
    match step
    case Begin(operation) => s.(processes := s.processes + [Process(operation, Start)])
    case Advance(i) => if i < |s.processes| then Advanced(s, i) else s
    case Abort(i) =>
      if i < |s.processes| then s.(lock := Unlocked(s, i), processes := Move(s, i, Finished(None))) else s
    case Tick(ms) => s.(team := s.team.(now := s.team.now + ms))
    case Upgrade(seats) => if seats >= s.team.seats then s.(team := s.team.(seats := seats)) else s
  }

  function Run(s: System, steps: seq<Step>): System {
    if steps == [] then s else Do(Run(s, steps[..|steps| - 1]), steps[|steps| - 1])
  }

  /** Members and live invitations fit the plan, and somebody owns the workspace. */
  ghost predicate Safe(t: Team) {
    |t.members| + |Pending(t)| <= t.seats && Owners(t) != {}
  }

  /** There is room for one more member or invitation than those other than invitation `i`. */
  ghost predicate Room(t: Team, i: nat) {
    |t.members| + |Pending(t) - {i}| + 1 <= t.seats
  }

  ghost predicate AnotherOwner(t: Team, user: nat) {
    Owners(t) - {user} != {}
  }

  /** What holds of the tables at each point of a transaction. */
  ghost predicate Justified(t: Team, operation: Operation, p: Progress) {
    match operation
    case Invite(email, role) =>
      (match p
       case Locked => true
       case SawPlan(seats) => seats <= t.seats
       case SawMembers(seats, count) => seats <= t.seats && count == |t.members|
       case HasRoom => |t.members| + |Pending(t)| + 1 <= t.seats
       case NotMember => |t.members| + |Pending(t)| + 1 <= t.seats
       case Ready(write) => write.AddInvitation? && |t.members| + |Pending(t)| + 1 <= t.seats
       case _ => NeedsNoLock(p))
    case Accept(i, user) =>
      (match p
       case Locked => true
       case Acceptable => Room(t, i)
       case Stranger => Room(t, i) && user !in t.members
       case SawPlan(_) => Room(t, i) && user !in t.members
       case Ready(write) => write.AddMember? && write.invitation == i && write.user == user && Room(t, i) && user !in t.members
       case _ => NeedsNoLock(p))
    case ChangeRole(user, role) =>
      (match p
       case Locked => true
       case SawTarget(target) => user in t.members && t.members[user] == target
       case Ready(write) => write == SetRole(user, role) && user in t.members && (role == OWNER || AnotherOwner(t, user))
       case _ => NeedsNoLock(p))
    case Remove(user) =>
      (match p
       case Locked => true
       case SawTarget(target) => user in t.members && t.members[user] == target
       case Ready(write) => write == DropMember(user) && user in t.members && AnotherOwner(t, user)
       case _ => NeedsNoLock(p))
    case Revoke(i) => p == Start || p.Finished? || p == Ready(SetRevoked(i))
  }

  predicate NeedsNoLock(p: Progress) {
    p.Start? || p.AtLock? || p.Finished?
  }

  ghost predicate ProcessOk(t: Team, holds: bool, p: Process) {
    Justified(t, p.operation, p.progress) && (NeedsNoLock(p.progress) || p.operation.Revoke? || holds)
  }

  ghost predicate ProcessesOk(s: System) {
    forall i | 0 <= i < |s.processes| :: ProcessOk(s.team, s.lock == Some(i), s.processes[i])
  }

  // ----- What other processes may do meanwhile -----

  /** Same members, no more pending invitations, no fewer seats. */
  ghost predicate Loosened(t: Team, u: Team) {
    u.members == t.members && Pending(u) <= Pending(t) && u.seats >= t.seats
  }

  lemma Fewer(a: set<nat>, b: set<nat>)
    requires a <= b
    ensures |a| <= |b|
  {
    assert b == a + (b - a);
  }

  lemma LoosenedKeepsJustified(t: Team, u: Team, operation: Operation, p: Progress)
    requires Loosened(t, u) && Justified(t, operation, p)
    ensures Justified(u, operation, p)
  {
    Fewer(Pending(u), Pending(t));
    if operation.Accept? {
      Fewer(Pending(u) - {operation.invitation}, Pending(t) - {operation.invitation});
    }
    assert Owners(u) == Owners(t);
  }

  lemma LoosenedKeepsSafe(t: Team, u: Team)
    requires Loosened(t, u) && Safe(t)
    ensures Safe(u)
  {
    Fewer(Pending(u), Pending(t));
    assert Owners(u) == Owners(t);
  }

  lemma RevokedLoosens(t: Team, i: nat)
    ensures Loosened(t, Apply(t, SetRevoked(i)))
  {
  }

  // ----- What each statement establishes -----

  lemma InviteJustified(t: Team, email: nat, role: Role, p: Progress)
    requires Justified(t, Invite(email, role), p)
    ensures p.AtLock? || p.Ready? || Justified(t, Invite(email, role), InviteNext(t, email, role, p))
  {
  }

  lemma AcceptJustified(t: Team, i: nat, user: nat, p: Progress)
    requires Safe(t) && Justified(t, Accept(i, user), p)
    ensures p.AtLock? || p.Ready? || Justified(t, Accept(i, user), AcceptNext(t, i, user, p))
  {
    if i in Pending(t) {
      assert Pending(t) == (Pending(t) - {i}) + {i};
    }
  }

  lemma NextJustified(t: Team, operation: Operation, p: Progress)
    requires Safe(t) && Justified(t, operation, p) && !p.AtLock? && !p.Ready?
    ensures Justified(t, operation, Next(t, operation, p))
  {
    match operation
    case Invite(email, role) => InviteJustified(t, email, role, p);
    case Accept(i, user) => AcceptJustified(t, i, user, p);
    case ChangeRole(user, role) =>
      OthersOwn(t, user);
      OwnerElsewhere(t, user);
    case Remove(user) =>
      OthersOwn(t, user);
      OwnerElsewhere(t, user);
    case Revoke(_) =>
  }

  lemma OwnerElsewhere(t: Team, user: nat)
    requires Safe(t)
    ensures user in t.members && t.members[user] != OWNER ==> AnotherOwner(t, user)
  {
    var o :| o in Owners(t);
    assert o != user ==> o in Owners(t) - {user};
  }

  lemma AddInvitationKeepsSafe(t: Team, email: nat, role: Role, expiresAt: int, expired: Option<nat>)
    requires Safe(t) && |t.members| + |Pending(t)| + 1 <= t.seats
    ensures Safe(Apply(t, AddInvitation(email, role, expiresAt, expired)))
  {
    var u, more := Apply(t, AddInvitation(email, role, expiresAt, expired)), Pending(t) + {|t.invitations|};
    assert Owners(u) == Owners(t);
    assert Pending(u) <= more;
    Fewer(Pending(u), more);
  }

  lemma AddMemberKeepsSafe(t: Team, i: nat, user: nat, role: Role)
    requires Safe(t) && Room(t, i) && user !in t.members
    ensures Safe(Apply(t, AddMember(i, user, role)))
  {
    var u := Apply(t, AddMember(i, user, role));
    var o :| o in Owners(t);
    assert o in Owners(u);
    assert Pending(u) <= Pending(t) - {i};
    Fewer(Pending(u), Pending(t) - {i});
  }

  lemma SetRoleKeepsSafe(t: Team, user: nat, role: Role)
    requires Safe(t) && user in t.members && (role == OWNER || AnotherOwner(t, user))
    ensures Safe(Apply(t, SetRole(user, role)))
  {
    var u := Apply(t, SetRole(user, role));
    var o :| o in if role == OWNER then {user} else Owners(t) - {user};
    assert o in Owners(u);
    assert u.members.Keys == t.members.Keys;
    assert |u.members| == |t.members|;
    assert Pending(u) == Pending(t);
  }

  lemma DropMemberKeepsSafe(t: Team, user: nat)
    requires Safe(t) && AnotherOwner(t, user)
    ensures Safe(Apply(t, DropMember(user)))
  {
    var u := Apply(t, DropMember(user));
    var o :| o in Owners(t) - {user};
    assert o in Owners(u);
    assert u.members.Keys == t.members.Keys - {user};
    Fewer(u.members.Keys, t.members.Keys);
    assert Pending(u) == Pending(t);
  }

  /** Seats are kept for invitations: while the workspace is safe, a live invitation can always be accepted. */
  lemma LiveInvitationIsGood(t: Team, i: nat)
    requires Safe(t) && i in Pending(t) && t.invitations[i].email !in t.members
    ensures OutcomeOf(t, Accept(i, t.invitations[i].email)).Success?
    ensures Executed(t, Accept(i, t.invitations[i].email)).members == t.members[t.invitations[i].email := t.invitations[i].role]
  {
    Fewer({i}, Pending(t));
    AcceptSettled(t, i, t.invitations[i].email);
  }

  lemma CommitKeepsSafe(t: Team, operation: Operation, write: Write)
    requires Safe(t) && Justified(t, operation, Ready(write))
    ensures Safe(Apply(t, write))
  {
    match write
    case AddInvitation(email, role, expiresAt, expired) => AddInvitationKeepsSafe(t, email, role, expiresAt, expired);
    case AddMember(i, user, role) => AddMemberKeepsSafe(t, i, user, role);
    case SetRole(user, role) => SetRoleKeepsSafe(t, user, role);
    case DropMember(user) => DropMemberKeepsSafe(t, user);
    case SetRevoked(i) =>
      RevokedLoosens(t, i);
      LoosenedKeepsSafe(t, Apply(t, write));
  }

  // ----- Every step, and so every run -----

  /** What a process without the lock has seen holds of any tables. */
  lemma WithoutLock(s: System, i: nat, u: Team)
    requires ProcessesOk(s) && i < |s.processes| && s.lock != Some(i)
    ensures Justified(u, s.processes[i].operation, s.processes[i].progress)
  {
  }

  lemma OthersAfterCommit(s: System, i: nat, j: nat)
    requires ProcessesOk(s) && i < |s.processes| && j < |s.processes| && j != i && s.processes[i].progress.Ready?
    ensures Justified(Apply(s.team, s.processes[i].progress.write), s.processes[j].operation, s.processes[j].progress)
  {
    var operation, after := s.processes[i].operation, Apply(s.team, s.processes[i].progress.write);
    if operation.Revoke? {
      RevokedLoosens(s.team, operation.invitation);
      LoosenedKeepsJustified(s.team, after, s.processes[j].operation, s.processes[j].progress);
    } else {
      WithoutLock(s, j, after);
    }
  }

  /** A process that ends lets the lock go, and no other process holds it. */
  lemma EndKeepsOk(s: System, i: nat, u: Team)
    requires ProcessesOk(s) && i < |s.processes|
    requires forall j | 0 <= j < |s.processes| && j != i :: Justified(u, s.processes[j].operation, s.processes[j].progress)
    ensures ProcessesOk(System(u, Unlocked(s, i), Move(s, i, Finished(None))))
  {
    forall j | 0 <= j < |s.processes| && j != i ensures ProcessOk(u, Unlocked(s, i) == Some(j), s.processes[j]) {
      assert ProcessOk(s.team, s.lock == Some(j), s.processes[j]);
    }
  }

  lemma CommitKeepsOk(s: System, i: nat)
    requires Safe(s.team) && ProcessesOk(s) && i < |s.processes| && s.processes[i].progress.Ready?
    ensures Safe(Advanced(s, i).team) && ProcessesOk(Advanced(s, i))
  {
    var operation, write := s.processes[i].operation, s.processes[i].progress.write;
    CommitKeepsSafe(s.team, operation, write);
    forall j | 0 <= j < |s.processes| && j != i
      ensures Justified(Apply(s.team, write), s.processes[j].operation, s.processes[j].progress)
    {
      OthersAfterCommit(s, i, j);
    }
    EndKeepsOk(s, i, Apply(s.team, write));
  }

  lemma StatementKeepsOk(s: System, i: nat)
    requires Safe(s.team) && ProcessesOk(s) && i < |s.processes|
    requires !s.processes[i].progress.Ready? && !s.processes[i].progress.AtLock? && !s.processes[i].progress.Finished?
    ensures ProcessesOk(Advanced(s, i))
  {
    var process := s.processes[i];
    var next := Next(s.team, process.operation, process.progress);
    NextJustified(s.team, process.operation, process.progress);
    assert process.progress.Start? && !process.operation.Revoke? ==> NeedsNoLock(next);
  }

  lemma StepKeepsSafe(s: System, step: Step)
    requires Safe(s.team) && ProcessesOk(s)
    ensures Safe(Do(s, step).team) && ProcessesOk(Do(s, step))
  {
    match step
    case Begin(_) =>
    case Advance(i) =>
      if i < |s.processes| {
        var p := s.processes[i].progress;
        if p.Ready? {
          CommitKeepsOk(s, i);
        } else if !p.AtLock? && !p.Finished? {
          StatementKeepsOk(s, i);
        }
      }
    case Abort(_) =>
    case Tick(_) => LoosenedKeepsOk(s, Do(s, step).team);
    case Upgrade(_) => LoosenedKeepsOk(s, Do(s, step).team);
  }

  lemma LoosenedKeepsOk(s: System, u: Team)
    requires Safe(s.team) && ProcessesOk(s) && Loosened(s.team, u)
    ensures Safe(u) && ProcessesOk(s.(team := u))
  {
    LoosenedKeepsSafe(s.team, u);
    forall j | 0 <= j < |s.processes| ensures ProcessOk(u, s.lock == Some(j), s.processes[j]) {
      LoosenedKeepsJustified(s.team, u, s.processes[j].operation, s.processes[j].progress);
    }
  }

  /** Whatever transactions run, and however their statements interleave, the workspace stays safe. */
  lemma {:induction false} AlwaysSafe(t: Team, steps: seq<Step>)
    requires Safe(t)
    ensures Safe(Run(System(t, None, []), steps).team) && ProcessesOk(Run(System(t, None, []), steps))
  {
    if steps != [] {
      AlwaysSafe(t, steps[..|steps| - 1]);
      StepKeepsSafe(Run(System(t, None, []), steps[..|steps| - 1]), steps[|steps| - 1]);
    }
  }
}
