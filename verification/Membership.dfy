/**
 Organization membership (backend/routers/organizations.py): invite, accept, revoke,
 leave, transfer, role update and removal, each an atomic step on the membership and
 invite tables. The database has no unique constraint on (org, user).
 Emails are taken as already normalised; tokens and ids as never issued twice.
 */
module Membership {
  import opened Options

  const INVITE_EXPIRY_SECONDS := 7 * 24 * 3600
  const VALID_ROLES := {"owner", "admin", "viewer"}

  datatype Member = Member(org: string, user: string, role: string)

  datatype Invite = Invite(org: string, email: string, role: string, expiresAt: int, accepted: bool)

  datatype Actor = Actor(id: string, email: string, superadmin: bool)

  datatype State = State(
    orgs: set<string>, users: map<string, string>, members: seq<Member>, invites: map<string, Invite>, tokens: set<string>)

  const NOTHING := State({}, map[], [], map[], {})

  // ---- Queries ----

  predicate Matches(m: Member, org: string, user: string) {
    m.org == org && m.user == user
  }

  /** The first row of a user in an organization, from row `i` on. */
  function FirstRow(ms: seq<Member>, org: string, user: string, i: nat): (k: Option<nat>)
    requires i <= |ms|
    ensures k.Some? ==> i <= k.value < |ms| && Matches(ms[k.value], org, user)
    ensures k.None? ==> forall j :: i <= j < |ms| ==> !Matches(ms[j], org, user)
    decreases |ms| - i
  {
    if i == |ms| then None
    else if Matches(ms[i], org, user) then Some(i)
    else FirstRow(ms, org, user, i + 1)
  }

  predicate HasRole(ms: seq<Member>, org: string, user: string, roles: set<string>) {
    exists m :: m in ms && Matches(m, org, user) && m.role in roles
  }

  /** `_require_membership` with a list of roles. */
  predicate May(s: State, a: Actor, org: string, roles: set<string>) {
    a.superadmin || HasRole(s.members, org, a.id, roles)
  }

  predicate IsOwnerRow(m: Member, org: string) {
    m.org == org && m.role == "owner"
  }

  function CountOwners(ms: seq<Member>, org: string): nat {
    if ms == [] then 0
    else CountOwners(ms[..|ms| - 1], org) + (if IsOwnerRow(ms[|ms| - 1], org) then 1 else 0)
  }

  function Without(ms: seq<Member>, k: nat): seq<Member>
    requires k < |ms|
  {
    ms[..k] + ms[k + 1..]
  }

  function WithRole(ms: seq<Member>, k: nat, role: string): seq<Member>
    requires k < |ms|
  {
    ms[k := ms[k].(role := role)]
  }

  // ---- The handlers; a refused request leaves the state as it was ----

  function CreateOrg(s: State, user: string, org: string): State {
    s.(orgs := s.orgs + {org}, members := s.members + [Member(org, user, "owner")])
  }

  function SignUp(s: State, email: string, user: string, org: string): Option<State> {
    if email in s.users then None else Some(CreateOrg(s.(users := s.users[email := user]), user, org))
  }

  predicate Pending(s: State, org: string, email: string, now: int) {
    exists t :: t in s.invites && s.invites[t].org == org && s.invites[t].email == email
                && !s.invites[t].accepted && s.invites[t].expiresAt > now
  }

  function InviteMember(s: State, a: Actor, org: string, email: string, role: string, token: string, now: int): Option<State> {
    if !May(s, a, org, {"owner", "admin"}) || role !in VALID_ROLES || (role == "owner" && !May(s, a, org, {"owner"})) then None
    else if org !in s.orgs then None
    else if email in s.users then
      if FirstRow(s.members, org, s.users[email], 0).Some? then None
      else Some(s.(members := s.members + [Member(org, s.users[email], role)]))
    else if Pending(s, org, email, now) then None
    else Some(s.(invites := s.invites[token := Invite(org, email, role, now + INVITE_EXPIRY_SECONDS, false)],
                 tokens := s.tokens + {token}))
  }

  function RevokeInvite(s: State, a: Actor, org: string, token: string): Option<State> {
    if !May(s, a, org, {"owner", "admin"}) then None
    else if token !in s.invites || s.invites[token].org != org || s.invites[token].accepted then None
    else Some(s.(invites := s.invites - {token}))
  }

  /** Accepting: an invitee who is a member already uses the invite up and is told so. */
  function AcceptInvite(s: State, a: Actor, token: string, now: int): (Option<State>, bool) {
    if token !in s.invites || s.invites[token].accepted then (None, false)
    else
      var invite := s.invites[token];
      if invite.expiresAt < now || invite.email != a.email then (None, false)
      else
        var used := s.(invites := s.invites[token := invite.(accepted := true)]);
        if FirstRow(s.members, invite.org, a.id, 0).Some? then (Some(used), false)
        else (Some(used.(members := s.members + [Member(invite.org, a.id, invite.role)])), true)
  }

  function Leave(s: State, a: Actor, org: string): Option<State> {
    match FirstRow(s.members, org, a.id, 0)
    case None => None
    case Some(k) =>
      if s.members[k].role == "owner" && CountOwners(s.members, org) <= 1 then None
      else Some(s.(members := Without(s.members, k)))
  }

  /** The caller's owner row, which `_require_membership(roles=["owner"])` returns. */
  function OwnerRow(ms: seq<Member>, org: string, user: string, i: nat): (k: Option<nat>)
    requires i <= |ms|
    ensures k.Some? ==> i <= k.value < |ms| && Matches(ms[k.value], org, user) && ms[k.value].role == "owner"
    decreases |ms| - i
  {
    if i == |ms| then None
    else if Matches(ms[i], org, user) && ms[i].role == "owner" then Some(i)
    else OwnerRow(ms, org, user, i + 1)
  }

  /** A superadmin passes the check without an owner row; the code then fails on it before it commits. */
  function Transfer(s: State, a: Actor, org: string, heir: string): Option<State> {
    if heir == a.id then None
    else
      match (OwnerRow(s.members, org, a.id, 0), FirstRow(s.members, org, heir, 0))
      case (Some(mine), Some(theirs)) => Some(s.(members := WithRole(WithRole(s.members, theirs, "owner"), mine, "admin")))
      case _ => None
  }

  function UpdateRole(s: State, a: Actor, org: string, user: string, role: string): Option<State> {
    if !May(s, a, org, {"owner"}) || role !in VALID_ROLES then None
    else
      match FirstRow(s.members, org, user, 0)
      case None => None
      case Some(k) =>
        if s.members[k].role == "owner" && role != "owner" && CountOwners(s.members, org) <= 1 then None
        else Some(s.(members := WithRole(s.members, k, role)))
  }

  function RemoveMember(s: State, a: Actor, org: string, user: string): Option<State> {
    if !May(s, a, org, {"owner", "admin"}) then None
    else
      match FirstRow(s.members, org, user, 0)
      case None => None
      case Some(k) =>
        var mine := FirstRow(s.members, org, a.id, 0);
        if s.members[k].role == "owner" && CountOwners(s.members, org) <= 1 then None
        else if mine.Some? && s.members[mine.value].role == "admin" && s.members[k].role == "owner" then None
        else Some(s.(members := Without(s.members, k)))
  }

  // ---- Runs ----

  datatype Event =
    | SignUpEvent(email: string, user: string, newOrg: string)
    | CreateOrgEvent(a: Actor, newOrg: string)
    | InviteEvent(a: Actor, org: string, email: string, role: string, token: string, now: int)
    | RevokeEvent(a: Actor, org: string, token: string)
    | AcceptEvent(a: Actor, token: string, now: int)
    | LeaveEvent(a: Actor, org: string)
    | TransferEvent(a: Actor, org: string, user: string)
    | UpdateRoleEvent(a: Actor, org: string, user: string, role: string)
    | RemoveEvent(a: Actor, org: string, user: string)

  function Attempt(s: State, e: Event): Option<State> {
    match e
    case SignUpEvent(email, user, newOrg) => SignUp(s, email, user, newOrg)
    case CreateOrgEvent(a, newOrg) => Some(CreateOrg(s, a.id, newOrg))
    case InviteEvent(a, org, email, role, token, now) => InviteMember(s, a, org, email, role, token, now)
    case RevokeEvent(a, org, token) => RevokeInvite(s, a, org, token)
    case AcceptEvent(a, token, now) => AcceptInvite(s, a, token, now).0
    case LeaveEvent(a, org) => Leave(s, a, org)
    case TransferEvent(a, org, user) => Transfer(s, a, org, user)
    case UpdateRoleEvent(a, org, user, role) => UpdateRole(s, a, org, user, role)
    case RemoveEvent(a, org, user) => RemoveMember(s, a, org, user)
  }

  function Step(s: State, e: Event): State {
    if Attempt(s, e).Some? then Attempt(s, e).value else s
  }

  /** Generated ids and tokens are new. */
  predicate Legal(s: State, e: Event) {
    match e
    case SignUpEvent(_, _, newOrg) => newOrg !in s.orgs
    case CreateOrgEvent(_, newOrg) => newOrg !in s.orgs
    case InviteEvent(_, _, _, _, token, _) => token !in s.tokens
    case _ => true
  }

  function Run(s: State, events: seq<Event>): State {
    if events == [] then s else Step(Run(s, events[..|events| - 1]), events[|events| - 1])
  }

  ghost predicate LegalRun(s: State, events: seq<Event>) {
    forall i :: 0 <= i < |events| ==> Legal(Run(s, events[..i]), events[i])
  }

  // ---- The invariant ----

  ghost predicate OneRowEach(ms: seq<Member>) {
    forall i, j :: 0 <= i < j < |ms| ==> !(ms[i].org == ms[j].org && ms[i].user == ms[j].user)
  }

  ghost predicate Owned(s: State) {
    forall org :: org in s.orgs ==> CountOwners(s.members, org) >= 1
  }

  /** Rows and invites belong to organizations that exist; invites to tokens that were issued. */
  ghost predicate Anchored(s: State) {
    && (forall i :: 0 <= i < |s.members| ==> s.members[i].org in s.orgs)
    && (forall t :: t in s.invites ==> t in s.tokens && s.invites[t].org in s.orgs)
  }

  ghost predicate Inv(s: State) {
    OneRowEach(s.members) && Owned(s) && Anchored(s)
  }

  lemma {:induction false} CountConcat(a: seq<Member>, b: seq<Member>, org: string)
    ensures CountOwners(a + b, org) == CountOwners(a, org) + CountOwners(b, org)
  {
    if b == [] {
      assert a + b == a;
    } else {
      CountConcat(a, b[..|b| - 1], org);
      assert (a + b)[..|a + b| - 1] == a + b[..|b| - 1];
    }
  }

  lemma CountOne(m: Member, org: string)
    ensures CountOwners([m], org) == if IsOwnerRow(m, org) then 1 else 0
  {
    assert [m][..0] == [];
  }

  lemma CountWithout(ms: seq<Member>, k: nat, org: string)
    requires k < |ms|
    ensures CountOwners(Without(ms, k), org) == CountOwners(ms, org) - if IsOwnerRow(ms[k], org) then 1 else 0
  {
    assert ms == ms[..k] + ([ms[k]] + ms[k + 1..]);
    CountConcat(ms[..k], [ms[k]] + ms[k + 1..], org);
    CountConcat([ms[k]], ms[k + 1..], org);
    CountConcat(ms[..k], ms[k + 1..], org);
    CountOne(ms[k], org);
  }

  lemma CountWithRole(ms: seq<Member>, k: nat, role: string, org: string)
    requires k < |ms|
    ensures CountOwners(WithRole(ms, k, role), org) ==
            CountOwners(ms, org) - (if IsOwnerRow(ms[k], org) then 1 else 0)
            + (if ms[k].org == org && role == "owner" then 1 else 0)
  {
    var after := WithRole(ms, k, role);
    CountWithout(ms, k, org);
    CountWithout(after, k, org);
    assert Without(after, k) == Without(ms, k);
  }

  lemma {:induction false} OwnerRowsCount(ms: seq<Member>, k: nat, org: string)
    requires k < |ms| && IsOwnerRow(ms[k], org)
    ensures CountOwners(ms, org) >= 1
  {
    CountWithout(ms, k, org);
  }

  lemma AddingKeepsInv(s: State, m: Member)
    requires Inv(s) && m.org in s.orgs
    requires forall i :: 0 <= i < |s.members| ==> !Matches(s.members[i], m.org, m.user)
    ensures Inv(s.(members := s.members + [m]))
  {
    forall org | org in s.orgs ensures CountOwners(s.members + [m], org) >= 1 {
      CountConcat(s.members, [m], org);
    }
  }

  lemma CreatingKeepsInv(s: State, user: string, org: string)
    requires Inv(s) && org !in s.orgs
    ensures Inv(CreateOrg(s, user, org))
  {
    var m := Member(org, user, "owner");
    forall o | o in s.orgs + {org} ensures CountOwners(s.members + [m], o) >= 1 {
      CountConcat(s.members, [m], o);
      CountOne(m, o);
    }
  }

  lemma RemovingKeepsInv(s: State, k: nat)
    requires Inv(s) && k < |s.members|
    requires s.members[k].role == "owner" ==> CountOwners(s.members, s.members[k].org) >= 2
    ensures Inv(s.(members := Without(s.members, k)))
  {
    forall org | org in s.orgs ensures CountOwners(Without(s.members, k), org) >= 1 {
      CountWithout(s.members, k, org);
    }
  }

  lemma RetitlingKeepsInv(s: State, k: nat, role: string)
    requires Inv(s) && k < |s.members|
    requires s.members[k].role == "owner" && role != "owner" ==> CountOwners(s.members, s.members[k].org) >= 2
    ensures Inv(s.(members := WithRole(s.members, k, role)))
  {
    forall org | org in s.orgs ensures CountOwners(WithRole(s.members, k, role), org) >= 1 {
      CountWithRole(s.members, k, role, org);
    }
  }

  lemma TransferKeepsInv(s: State, mine: nat, theirs: nat, org: string)
    requires Inv(s) && mine < |s.members| && theirs < |s.members| && mine != theirs
    requires IsOwnerRow(s.members[mine], org) && s.members[theirs].org == org
    ensures Inv(s.(members := WithRole(WithRole(s.members, theirs, "owner"), mine, "admin")))
  {
    var t := s.(members := WithRole(s.members, theirs, "owner"));
    RetitlingKeepsInv(s, theirs, "owner");
    CountWithout(t.members, mine, org);
    OwnerRowsCount(Without(t.members, mine), if theirs < mine then theirs else theirs - 1, org);
    RetitlingKeepsInv(t, mine, "admin");
  }

  lemma StepKeepsInv(s: State, e: Event)
    requires Inv(s) && Legal(s, e)
    ensures Inv(Step(s, e))
  {
    match e
    case SignUpEvent(email, user, newOrg) =>
      CreatingKeepsInv(s.(users := s.users[email := user]), user, newOrg);
    case CreateOrgEvent(a, newOrg) => CreatingKeepsInv(s, a.id, newOrg);
    case InviteEvent(a, org, email, role, token, now) =>
      if org in s.orgs && email in s.users && FirstRow(s.members, org, s.users[email], 0).None? {
        AddingKeepsInv(s, Member(org, s.users[email], role));
      }
    case RevokeEvent(a, org, token) =>
    case AcceptEvent(a, token, now) =>
      if token in s.invites && FirstRow(s.members, s.invites[token].org, a.id, 0).None? {
        AddingKeepsInv(s, Member(s.invites[token].org, a.id, s.invites[token].role));
      }
    case LeaveEvent(a, org) => RemovalKeepsInv(s, org, a.id);
    case TransferEvent(a, org, user) =>
      var mine, theirs := OwnerRow(s.members, org, a.id, 0), FirstRow(s.members, org, user, 0);
      if user != a.id && mine.Some? && theirs.Some? {
        TransferKeepsInv(s, mine.value, theirs.value, org);
      }
    case UpdateRoleEvent(a, org, user, role) =>
      var k := FirstRow(s.members, org, user, 0);
      if k.Some? && !(s.members[k.value].role == "owner" && role != "owner" && CountOwners(s.members, org) <= 1) {
        RetitlingKeepsInv(s, k.value, role);
      }
    case RemoveEvent(a, org, user) => RemovalKeepsInv(s, org, user);
  }

  lemma RemovalKeepsInv(s: State, org: string, user: string)
    requires Inv(s)
    ensures var k := FirstRow(s.members, org, user, 0);
            k.Some? && !(s.members[k.value].role == "owner" && CountOwners(s.members, org) <= 1) ==>
              Inv(s.(members := Without(s.members, k.value)))
  {
    var k := FirstRow(s.members, org, user, 0);
    if k.Some? && !(s.members[k.value].role == "owner" && CountOwners(s.members, org) <= 1) {
      RemovingKeepsInv(s, k.value);
    }
  }

  /** Every organization keeps an owner and one row per member, over every run of requests. */
  lemma {:induction false} EveryOrganizationStaysOwned(events: seq<Event>)
    requires LegalRun(NOTHING, events)
    ensures Inv(Run(NOTHING, events))
  {
    if events != [] {
      var init := events[..|events| - 1];
      forall i | 0 <= i < |init| ensures Legal(Run(NOTHING, init[..i]), init[i]) {
        assert init[..i] == events[..i];
      }
      EveryOrganizationStaysOwned(init);
      StepKeepsInv(Run(NOTHING, init), events[|events| - 1]);
    }
  }

  // ---- One membership per invite ----

  ghost predicate Spent(s: State, token: string) {
    token in s.tokens && (token in s.invites ==> s.invites[token].accepted)
  }

  /** This step turned this invite into a membership. */
  predicate Joins(s: State, e: Event, token: string) {
    e.AcceptEvent? && e.token == token && AcceptInvite(s, e.a, token, e.now).1
  }

  lemma InvitesAreSpentOnce(s: State, e: Event, token: string)
    requires Inv(s) && Legal(s, e)
    ensures Joins(s, e, token) ==> !Spent(s, token) && Spent(Step(s, e), token)
    ensures Spent(s, token) ==> Spent(Step(s, e), token)
  {
  }

  function Joinings(s: State, events: seq<Event>, token: string): nat {
    if events == [] then 0
    else
      Joinings(s, events[..|events| - 1], token)
      + (if Joins(Run(s, events[..|events| - 1]), events[|events| - 1], token) then 1 else 0)
  }

  lemma {:induction false} AnInviteAdmitsOnce(events: seq<Event>, token: string)
    requires LegalRun(NOTHING, events)
    ensures Joinings(NOTHING, events, token) <= if Spent(Run(NOTHING, events), token) then 1 else 0
  {
    if events != [] {
      var init := events[..|events| - 1];
      forall i | 0 <= i < |init| ensures Legal(Run(NOTHING, init[..i]), init[i]) {
        assert init[..i] == events[..i];
      }
      AnInviteAdmitsOnce(init, token);
      EveryOrganizationStaysOwned(init);
      InvitesAreSpentOnce(Run(NOTHING, init), events[|events| - 1], token);
    }
  }

  // ---- Who can make an owner ----

  predicate Owns(s: State, org: string, user: string) {
    HasRole(s.members, org, user, {"owner"})
  }

  /** Who stands behind a step: an owner of the organization, or a superadmin. */
  predicate ByOwner(s: State, e: Event, org: string) {
    !e.SignUpEvent? && May(s, e.a, org, {"owner"})
  }

  predicate OffersOwnership(s: State, token: string, org: string) {
    token in s.invites && s.invites[token].org == org && s.invites[token].role == "owner" && !s.invites[token].accepted
  }

  lemma NewRow(ms: seq<Member>, m: Member, org: string, user: string)
    ensures HasRole(ms + [m], org, user, {"owner"}) <==>
            HasRole(ms, org, user, {"owner"}) || (Matches(m, org, user) && m.role == "owner")
  {
    assert m in ms + [m] && forall x :: x in ms + [m] <==> x in ms || x == m;
  }

  lemma OwnersAfterRetitling(ms: seq<Member>, k: nat, role: string, org: string, user: string)
    requires k < |ms|
    ensures HasRole(WithRole(ms, k, role), org, user, {"owner"}) ==>
            HasRole(ms, org, user, {"owner"}) || (Matches(ms[k], org, user) && role == "owner")
  {
    var after := WithRole(ms, k, role);
    if m :| m in after && Matches(m, org, user) && m.role == "owner" {
      var i :| 0 <= i < |after| && after[i] == m;
      assert i != k ==> ms[i] in ms;
    }
  }

  /**
   Ownership is conferred only by an owner or superadmin, by founding the organization, or
   by an invite that offered it.
   */
  lemma OwnershipComesFromOwners(s: State, e: Event, org: string, user: string)
    requires Inv(s) && Legal(s, e)
    ensures !Owns(s, org, user) && Owns(Step(s, e), org, user) ==>
            || ByOwner(s, e, org)
            || org !in s.orgs
            || (e.AcceptEvent? && e.a.id == user && OffersOwnership(s, e.token, org))
  {
    match e
    case SignUpEvent(email, founder, newOrg) => NewRow(s.members, Member(newOrg, founder, "owner"), org, user);
    case CreateOrgEvent(a, newOrg) => NewRow(s.members, Member(newOrg, a.id, "owner"), org, user);
    case InviteEvent(a, o, email, role, token, now) =>
      if email in s.users {
        NewRow(s.members, Member(o, s.users[email], role), org, user);
      }
    case AcceptEvent(a, token, now) =>
      if token in s.invites {
        NewRow(s.members, Member(s.invites[token].org, a.id, s.invites[token].role), org, user);
      }
    case TransferEvent(a, o, heir) =>
      if !Owns(s, org, user) && Transfer(s, a, o, heir).Some? && Owns(Step(s, e), org, user) {
        TransferMakesOneOwner(s, a, o, heir, org, user);
      }
    case UpdateRoleEvent(a, o, u, role) =>
      var k := FirstRow(s.members, o, u, 0);
      if k.Some? {
        OwnersAfterRetitling(s.members, k.value, role, org, user);
      }
    case _ =>
  }

  lemma TransferMakesOneOwner(s: State, a: Actor, o: string, heir: string, org: string, user: string)
    requires Transfer(s, a, o, heir).Some? && !Owns(s, org, user) && Owns(Transfer(s, a, o, heir).value, org, user)
    ensures org == o && user == heir && May(s, a, org, {"owner"})
  {
    var mine, theirs := OwnerRow(s.members, o, a.id, 0), FirstRow(s.members, o, heir, 0);
    OwnersAfterRetitling(WithRole(s.members, theirs.value, "owner"), mine.value, "admin", org, user);
    OwnersAfterRetitling(s.members, theirs.value, "owner", org, user);
    assert s.members[mine.value] in s.members;
  }

  /** And only an owner or superadmin issues such an invite. */
  lemma OffersComeFromOwners(s: State, e: Event, org: string, token: string)
    requires Inv(s) && Legal(s, e)
    ensures !OffersOwnership(s, token, org) && OffersOwnership(Step(s, e), token, org) ==> ByOwner(s, e, org)
  {
  }
}
