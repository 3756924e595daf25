/**
 The membership rules (backend/routers/organizations.py), from who has which role: exactly when a
 request is granted, and exactly whose role it changes.
 */
module MembershipRules {
  import opened Options
  import opened Membership

  // ---- Roles ----

  /** The user's row in the organization says this role. */
  predicate Has(s: State, org: string, user: string, role: string) {
    Member(org, user, role) in s.members
  }

  ghost predicate IsMember(s: State, org: string, user: string) {
    exists role :: Has(s, org, user, role)
  }

  ghost predicate HasOtherOwner(s: State, org: string, user: string) {
    exists other :: other != user && Has(s, org, other, "owner")
  }

  lemma RowMeans(s: State, org: string, user: string)
    requires OneRowEach(s.members)
    ensures match FirstRow(s.members, org, user, 0)
            case Some(k) => s.members[k] == Member(org, user, s.members[k].role) && IsMember(s, org, user)
                            && forall role :: Has(s, org, user, role) <==> role == s.members[k].role
            case None => !IsMember(s, org, user)
  {
    var row := FirstRow(s.members, org, user, 0);
    if row.Some? {
      forall role ensures Has(s, org, user, role) <==> role == s.members[row.value].role {
        if Has(s, org, user, role) {
          var i :| 0 <= i < |s.members| && s.members[i] == Member(org, user, role);
        }
      }
      assert Has(s, org, user, s.members[row.value].role);
    } else {
      assert forall m | m in s.members :: !Matches(m, org, user);
      assert forall role :: Matches(Member(org, user, role), org, user);
    }
  }

  lemma OwnerRowMeans(s: State, org: string, user: string)
    requires OneRowEach(s.members)
    ensures OwnerRow(s.members, org, user, 0).Some? <==> Has(s, org, user, "owner")
    ensures OwnerRow(s.members, org, user, 0).Some? ==> OwnerRow(s.members, org, user, 0) == FirstRow(s.members, org, user, 0)
  {
    RowMeans(s, org, user);
    OwnerRowIsFound(s.members, org, user, 0);
    var row, first := OwnerRow(s.members, org, user, 0), FirstRow(s.members, org, user, 0);
    if row.Some? && first.Some? {
      assert row.value == first.value;
    }
    if Has(s, org, user, "owner") {
      var i :| 0 <= i < |s.members| && s.members[i] == Member(org, user, "owner");
    }
  }

  lemma {:induction false} OwnerRowIsFound(ms: seq<Member>, org: string, user: string, i: nat)
    requires i <= |ms|
    ensures OwnerRow(ms, org, user, i).None? ==> forall j | i <= j < |ms| :: ms[j] != Member(org, user, "owner")
    decreases |ms| - i
  {
    if i < |ms| && !(Matches(ms[i], org, user) && ms[i].role == "owner") {
      OwnerRowIsFound(ms, org, user, i + 1);
    }
  }

  lemma {:induction false} OwnersCounted(ms: seq<Member>, org: string)
    ensures CountOwners(ms, org) >= 1 <==> exists m :: m in ms && m.org == org && m.role == "owner"
  {
    if ms != [] {
      OwnersCounted(ms[..|ms| - 1], org);
      assert ms == ms[..|ms| - 1] + [ms[|ms| - 1]];
      assert ms[|ms| - 1] in ms;
    }
  }

  lemma LastOwnerMeans(s: State, org: string, user: string, k: nat)
    requires OneRowEach(s.members) && k < |s.members| && s.members[k] == Member(org, user, "owner")
    ensures CountOwners(s.members, org) <= 1 <==> !HasOtherOwner(s, org, user)
  {
    var rest := Without(s.members, k);
    CountWithout(s.members, k, org);
    OwnersCounted(rest, org);
    forall m ensures m in rest <==> m in s.members && m != s.members[k] {
      WithoutMeans(s.members, k, m);
    }
    if other :| other != user && Has(s, org, other, "owner") {
      assert Member(org, other, "owner") in rest;
    }
    if m :| m in rest && m.org == org && m.role == "owner" {
      assert m == Member(org, m.user, "owner");
      assert Has(s, org, m.user, "owner");
      SameUserSameRow(s.members, m, s.members[k]);
    }
  }

  lemma SameUserSameRow(ms: seq<Member>, a: Member, b: Member)
    requires OneRowEach(ms) && a in ms && b in ms
    ensures a.org == b.org && a.user == b.user ==> a == b
  {
    var i :| 0 <= i < |ms| && ms[i] == a;
    var j :| 0 <= j < |ms| && ms[j] == b;
  }

  lemma WithoutMeans(ms: seq<Member>, k: nat, m: Member)
    requires OneRowEach(ms) && k < |ms|
    ensures m in Without(ms, k) <==> m in ms && m != ms[k]
  {
    var rest := Without(ms, k);
    if m in rest {
      var i :| 0 <= i < |rest| && rest[i] == m;
      assert m == ms[if i < k then i else i + 1];
    }
    if m in ms && m != ms[k] {
      var i :| 0 <= i < |ms| && ms[i] == m;
      assert rest[if i < k then i else i - 1] == m;
    }
  }

  lemma WithRoleMeans(ms: seq<Member>, k: nat, role: string, m: Member)
    requires OneRowEach(ms) && k < |ms|
    ensures OneRowEach(WithRole(ms, k, role))
    ensures m in WithRole(ms, k, role) <==> m == ms[k].(role := role) || (m in ms && m != ms[k])
  {
    var after := WithRole(ms, k, role);
    if m in after {
      var i :| 0 <= i < |after| && after[i] == m;
      assert i == k || ms[i] == m;
    }
    if m in ms && m != ms[k] {
      var i :| 0 <= i < |ms| && ms[i] == m;
      assert after[i] == m;
    }
    assert after[k] == ms[k].(role := role);
  }

  // ---- When a request is granted ----

  /** A superadmin, or a user with one of the two roles. */
  predicate Manages(s: State, a: Actor, org: string) {
    a.superadmin || Has(s, org, a.id, "owner") || Has(s, org, a.id, "admin")
  }

  predicate ActsAsOwner(s: State, a: Actor, org: string) {
    a.superadmin || Has(s, org, a.id, "owner")
  }

  predicate IsKnownRole(role: string) {
    role == "owner" || role == "admin" || role == "viewer"
  }

  ghost predicate IsOpenInvite(s: State, token: string) {
    token in s.invites && !s.invites[token].accepted
  }

  ghost predicate IsGranted(s: State, e: Event) {
    match e
    case SignUpEvent(email, _, _) => email !in s.users
    case CreateOrgEvent(_, _) => true
    case InviteEvent(a, org, email, role, _, now) =>
      && Manages(s, a, org) && IsKnownRole(role) && (role == "owner" ==> ActsAsOwner(s, a, org)) && org in s.orgs
      && if email in s.users then !IsMember(s, org, s.users[email])
         else forall t | IsOpenInvite(s, t) :: !(s.invites[t].org == org && s.invites[t].email == email && now < s.invites[t].expiresAt)
    case RevokeEvent(a, org, token) => Manages(s, a, org) && IsOpenInvite(s, token) && s.invites[token].org == org
    case AcceptEvent(a, token, now) =>
      IsOpenInvite(s, token) && now <= s.invites[token].expiresAt && s.invites[token].email == a.email
    case LeaveEvent(a, org) => IsMember(s, org, a.id) && (Has(s, org, a.id, "owner") ==> HasOtherOwner(s, org, a.id))
    case TransferEvent(a, org, heir) => heir != a.id && Has(s, org, a.id, "owner") && IsMember(s, org, heir)
    case UpdateRoleEvent(a, org, user, role) =>
      && ActsAsOwner(s, a, org) && IsKnownRole(role) && IsMember(s, org, user)
      && (Has(s, org, user, "owner") && role != "owner" ==> HasOtherOwner(s, org, user))
    case RemoveEvent(a, org, user) =>
      && Manages(s, a, org) && IsMember(s, org, user)
      && (Has(s, org, user, "owner") ==> HasOtherOwner(s, org, user) && !Has(s, org, a.id, "admin"))
  }

  lemma MayMeans(s: State, a: Actor, org: string)
    ensures May(s, a, org, {"owner", "admin"}) <==> Manages(s, a, org)
    ensures May(s, a, org, {"owner"}) <==> ActsAsOwner(s, a, org)
  {
    HasRoleMeans(s, org, a.id, {"owner", "admin"});
    HasRoleMeans(s, org, a.id, {"owner"});
  }

  lemma HasRoleMeans(s: State, org: string, user: string, roles: set<string>)
    ensures HasRole(s.members, org, user, roles) <==> exists role :: role in roles && Has(s, org, user, role)
  {
    if m :| m in s.members && Matches(m, org, user) && m.role in roles {
      assert m == Member(org, user, m.role);
    }
    if role :| role in roles && Has(s, org, user, role) {
      assert Matches(Member(org, user, role), org, user);
    }
  }

  lemma PendingMeans(s: State, org: string, email: string, now: int)
    ensures Pending(s, org, email, now) <==>
            !forall t | IsOpenInvite(s, t) :: !(s.invites[t].org == org && s.invites[t].email == email && now < s.invites[t].expiresAt)
  {
    if Pending(s, org, email, now) {
      var t :| t in s.invites && s.invites[t].org == org && s.invites[t].email == email && !s.invites[t].accepted && s.invites[t].expiresAt > now;
      assert IsOpenInvite(s, t);
    }
  }

  /** A request is granted exactly when the roles, the invites and the accounts say so. */
  lemma RequestsAreGrantedExactly(s: State, e: Event)
    requires OneRowEach(s.members)
    ensures Attempt(s, e).Some? <==> IsGranted(s, e)
  {
    match e
    case InviteEvent(a, org, email, role, _, now) =>
      MayMeans(s, a, org);
      PendingMeans(s, org, email, now);
      if email in s.users {
        RowMeans(s, org, s.users[email]);
      }
    case RevokeEvent(a, org, _) => MayMeans(s, a, org);
    case LeaveEvent(a, org) => LeavingMeans(s, org, a.id);
    case TransferEvent(a, org, heir) =>
      OwnerRowMeans(s, org, a.id);
      RowMeans(s, org, heir);
    case UpdateRoleEvent(a, org, user, _) =>
      MayMeans(s, a, org);
      LeavingMeans(s, org, user);
    case RemoveEvent(a, org, user) =>
      MayMeans(s, a, org);
      LeavingMeans(s, org, user);
      RowMeans(s, org, a.id);
    case _ =>
  }

  lemma LeavingMeans(s: State, org: string, user: string)
    requires OneRowEach(s.members)
    ensures var row := FirstRow(s.members, org, user, 0);
            && (row.Some? <==> IsMember(s, org, user))
            && (row.Some? ==> (s.members[row.value].role == "owner" <==> Has(s, org, user, "owner")))
            && (row.Some? && Has(s, org, user, "owner") ==> (CountOwners(s.members, org) <= 1 <==> !HasOtherOwner(s, org, user)))
  {
    RowMeans(s, org, user);
    var row := FirstRow(s.members, org, user, 0);
    if row.Some? {
      assert Has(s, org, user, s.members[row.value].role);
      if s.members[row.value].role == "owner" {
        LastOwnerMeans(s, org, user, row.value);
      }
    }
  }

  // ---- What it changes ----

  /** Who has which role after a granted request. */
  ghost predicate HasAfter(s: State, e: Event, org: string, user: string, role: string) {
    match e
    case SignUpEvent(_, founder, newOrg) => Has(s, org, user, role) || (org == newOrg && user == founder && role == "owner")
    case CreateOrgEvent(a, newOrg) => Has(s, org, user, role) || (org == newOrg && user == a.id && role == "owner")
    case InviteEvent(_, o, email, r, _, _) =>
      Has(s, org, user, role) || (email in s.users && org == o && user == s.users[email] && role == r)
    case AcceptEvent(a, token, _) =>
      || Has(s, org, user, role)
      || (token in s.invites && org == s.invites[token].org && user == a.id && role == s.invites[token].role && !IsMember(s, org, user))
    case RevokeEvent(_, _, _) => Has(s, org, user, role)
    case LeaveEvent(a, o) => Has(s, org, user, role) && !(org == o && user == a.id)
    case TransferEvent(a, o, heir) =>
      if org == o && user == heir then role == "owner" else if org == o && user == a.id then role == "admin" else Has(s, org, user, role)
    case UpdateRoleEvent(_, o, u, r) => if org == o && user == u then role == r else Has(s, org, user, role)
    case RemoveEvent(_, o, u) => Has(s, org, user, role) && !(org == o && user == u)
  }

  lemma RowGone(s: State, o: string, u: string, org: string, user: string, role: string)
    requires OneRowEach(s.members) && FirstRow(s.members, o, u, 0).Some?
    ensures Has(s.(members := Without(s.members, FirstRow(s.members, o, u, 0).value)), org, user, role)
            <==> Has(s, org, user, role) && !(org == o && user == u)
  {
    RowMeans(s, o, u);
    WithoutMeans(s.members, FirstRow(s.members, o, u, 0).value, Member(org, user, role));
  }

  lemma RoleSet(s: State, o: string, u: string, r: string, org: string, user: string, role: string)
    requires OneRowEach(s.members) && FirstRow(s.members, o, u, 0).Some?
    ensures var t := s.(members := WithRole(s.members, FirstRow(s.members, o, u, 0).value, r));
            && OneRowEach(t.members)
            && (Has(t, org, user, role) <==> if org == o && user == u then role == r else Has(s, org, user, role))
  {
    RowMeans(s, o, u);
    WithRoleMeans(s.members, FirstRow(s.members, o, u, 0).value, r, Member(org, user, role));
  }

  lemma {:induction false} RetitlingKeepsPlaces(ms: seq<Member>, k: nat, role: string, org: string, user: string, i: nat)
    requires k < |ms| && i <= |ms|
    ensures FirstRow(WithRole(ms, k, role), org, user, i) == FirstRow(ms, org, user, i)
    decreases |ms| - i
  {
    if i < |ms| {
      RetitlingKeepsPlaces(ms, k, role, org, user, i + 1);
    }
  }

  lemma TransferSetsTwo(s: State, a: Actor, o: string, heir: string, org: string, user: string, role: string)
    requires OneRowEach(s.members) && Transfer(s, a, o, heir).Some?
    ensures Has(Transfer(s, a, o, heir).value, org, user, role) <==> HasAfter(s, TransferEvent(a, o, heir), org, user, role)
  {
    var theirs := FirstRow(s.members, o, heir, 0).value;
    var t := s.(members := WithRole(s.members, theirs, "owner"));
    OwnerRowMeans(s, o, a.id);
    RoleSet(s, o, heir, "owner", org, user, role);
    RetitlingKeepsPlaces(s.members, theirs, "owner", o, a.id, 0);
    RoleSet(t, o, a.id, "admin", org, user, role);
  }

  lemma RowAdded(s: State, m: Member, org: string, user: string, role: string)
    ensures Member(org, user, role) in s.members + [m] <==> Has(s, org, user, role) || m == Member(org, user, role)
  {
  }

  /** A granted request changes exactly the roles it names. */
  lemma RolesAfterARequest(s: State, e: Event, org: string, user: string, role: string)
    requires OneRowEach(s.members) && IsGranted(s, e)
    ensures Has(Step(s, e), org, user, role) <==> HasAfter(s, e, org, user, role)
  {
    RequestsAreGrantedExactly(s, e);
    match e
    case AcceptEvent(a, token, _) => RowMeans(s, s.invites[token].org, a.id);
    case LeaveEvent(a, o) => RowGone(s, o, a.id, org, user, role);
    case TransferEvent(a, o, heir) => TransferSetsTwo(s, a, o, heir, org, user, role);
    case UpdateRoleEvent(_, o, u, r) => RoleSet(s, o, u, r, org, user, role);
    case RemoveEvent(_, o, u) => RowGone(s, o, u, org, user, role);
    case _ =>
  }

  /** What a granted request does to the other tables. */
  lemma TablesAfterARequest(s: State, e: Event)
    requires OneRowEach(s.members) && IsGranted(s, e)
    ensures var t := Step(s, e);
            && (forall org :: org in t.orgs <==> org in s.orgs || ((e.SignUpEvent? || e.CreateOrgEvent?) && org == e.newOrg))
            && (forall email :: email in t.users <==> email in s.users || (e.SignUpEvent? && email == e.email))
            && (e.SignUpEvent? ==> t.users[e.email] == e.user)
            && (forall email :: email in s.users ==> email in t.users && t.users[email] == s.users[email])
            && (forall token :: token in t.invites <==>
                  (token in s.invites && !(e.RevokeEvent? && token == e.token)) || (e.InviteEvent? && e.email !in s.users && token == e.token))
            && (e.InviteEvent? && e.email !in s.users ==>
                  t.invites[e.token] == Invite(e.org, e.email, e.role, e.now + 7 * 86_400, false))
            && (e.AcceptEvent? ==> t.invites[e.token] == s.invites[e.token].(accepted := true))
            && (forall token :: token in s.invites && token in t.invites && !((e.AcceptEvent? || e.InviteEvent?) && token == e.token) ==>
                  t.invites[token] == s.invites[token])
  {
    RequestsAreGrantedExactly(s, e);
  }
}
