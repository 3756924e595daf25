/**
 The membership handlers as they change the tables (backend/routers/organizations.py),
 each proved to be the step of the same name in `Membership`.
 */
module OrganizationHandlers {
  import opened Options
  import opened Membership

  /** Every organization keeps an owner and one row per member, whatever is asked. */
  lemma StepIsKept(s: State, e: Event)
    ensures Inv(s) && Legal(s, e) ==> Inv(Step(s, e))
  {
    if Inv(s) && Legal(s, e) {
      StepKeepsInv(s, e);
    }
  }

  class Directory {
    var orgs: set<string>
    var users: map<string, string>
    var members: seq<Member>
    var invites: map<string, Invite>
    var tokens: set<string>

    function Contents(): State
      reads this
    {
      State(orgs, users, members, invites, tokens)
    }

    constructor ()
      ensures Contents() == NOTHING
    {
      orgs, users, members, invites, tokens := {}, map[], [], map[], {};
    }

    method CountOrgOwners(org: string) returns (n: nat)
      ensures n == CountOwners(members, org)
    {
      n := 0;
      for i := 0 to |members|
        invariant n == CountOwners(members[..i], org)
      {
        assert members[..i + 1][..i] == members[..i];
        if IsOwnerRow(members[i], org) {
          n := n + 1;
        }
      }
      assert members[..|members|] == members;
    }

    /** Deleting a row is refused when it is the organization's last owner. */
    method Guarded(k: nat) returns (refused: bool)
      requires k < |members|
      ensures refused <==> members[k].role == "owner" && CountOwners(members, members[k].org) <= 1
    {
      if members[k].role != "owner" {
        return false;
      }
      var owners := CountOrgOwners(members[k].org);
      return owners <= 1;
    }

    method CreateOrganization(user: string, org: string)
      modifies this
      ensures Contents() == CreateOrg(old(Contents()), user, org)
      ensures Inv(old(Contents())) && org !in old(orgs) ==> Inv(Contents())
    {
      StepIsKept(Contents(), CreateOrgEvent(Actor(user, "", false), org));
      orgs := orgs + {org};
      members := members + [Member(org, user, "owner")];
    }

    method Register(email: string, user: string, org: string) returns (ok: bool)
      modifies this
      ensures ok == SignUp(old(Contents()), email, user, org).Some?
      ensures Contents() == if ok then SignUp(old(Contents()), email, user, org).value else old(Contents())
      ensures Inv(old(Contents())) && org !in old(orgs) ==> Inv(Contents())
    {
      StepIsKept(Contents(), SignUpEvent(email, user, org));
      if email in users {
        return false;
      }
      users := users[email := user];
      CreateOrganization(user, org);
      return true;
    }

    method AddMember(a: Actor, org: string, email: string, role: string, token: string, now: int) returns (ok: bool)
      modifies this
      ensures ok == InviteMember(old(Contents()), a, org, email, role, token, now).Some?
      ensures Contents() == if ok then InviteMember(old(Contents()), a, org, email, role, token, now).value else old(Contents())
      ensures Inv(old(Contents())) && token !in old(tokens) ==> Inv(Contents())
    {
      StepIsKept(Contents(), InviteEvent(a, org, email, role, token, now));
      if !May(Contents(), a, org, {"owner", "admin"}) || role !in VALID_ROLES || org !in orgs {
        return false;
      }
      if role == "owner" && !May(Contents(), a, org, {"owner"}) {
        return false;
      }
      if email in users {
        if FirstRow(members, org, users[email], 0).Some? {
          return false;
        }
        members := members + [Member(org, users[email], role)];
        return true;
      }
      if Pending(Contents(), org, email, now) {
        return false;
      }
      invites := invites[token := Invite(org, email, role, now + INVITE_EXPIRY_SECONDS, false)];
      tokens := tokens + {token};
      return true;
    }

    method Revoke(a: Actor, org: string, token: string) returns (ok: bool)
      modifies this`invites
      ensures ok == RevokeInvite(old(Contents()), a, org, token).Some?
      ensures Contents() == if ok then RevokeInvite(old(Contents()), a, org, token).value else old(Contents())
      ensures Inv(old(Contents())) ==> Inv(Contents())
    {
      StepIsKept(Contents(), RevokeEvent(a, org, token));
      if !May(Contents(), a, org, {"owner", "admin"}) || token !in invites {
        return false;
      }
      if invites[token].org != org || invites[token].accepted {
        return false;
      }
      invites := invites - {token};
      return true;
    }

    /** The reply is an error for a member already there, although the invite is then used up. */
    method Accept(a: Actor, token: string, now: int) returns (joined: bool)
      modifies this
      ensures var (after, joins) := AcceptInvite(old(Contents()), a, token, now);
              joined == joins && Contents() == if after.Some? then after.value else old(Contents())
      ensures Inv(old(Contents())) ==> Inv(Contents())
    {
      StepIsKept(Contents(), AcceptEvent(a, token, now));
      if token !in invites || invites[token].accepted {
        return false;
      }
      var invite := invites[token];
      if invite.expiresAt < now || invite.email != a.email {
        return false;
      }
      joined := FirstRow(members, invite.org, a.id, 0).None?;
      if joined {
        members := members + [Member(invite.org, a.id, invite.role)];
      }
      invites := invites[token := invite.(accepted := true)];
    }

    method LeaveOrganization(a: Actor, org: string) returns (ok: bool)
      modifies this`members
      ensures ok == Leave(old(Contents()), a, org).Some?
      ensures Contents() == if ok then Leave(old(Contents()), a, org).value else old(Contents())
      ensures Inv(old(Contents())) ==> Inv(Contents())
    {
      StepIsKept(Contents(), LeaveEvent(a, org));
      var row := FirstRow(members, org, a.id, 0);
      if row.None? {
        return false;
      }
      var refused := Guarded(row.value);
      if refused {
        return false;
      }
      members := members[..row.value] + members[row.value + 1..];
      return true;
    }

    method TransferOwnership(a: Actor, org: string, heir: string) returns (ok: bool)
      modifies this`members
      ensures ok == Transfer(old(Contents()), a, org, heir).Some?
      ensures Contents() == if ok then Transfer(old(Contents()), a, org, heir).value else old(Contents())
      ensures Inv(old(Contents())) ==> Inv(Contents())
    {
      StepIsKept(Contents(), TransferEvent(a, org, heir));
      var mine, theirs := OwnerRow(members, org, a.id, 0), FirstRow(members, org, heir, 0);
      if heir == a.id || theirs.None? || mine.None? {
        return false;
      }
      members := members[theirs.value := members[theirs.value].(role := "owner")];
      members := members[mine.value := members[mine.value].(role := "admin")];
      return true;
    }

    method UpdateMemberRole(a: Actor, org: string, user: string, role: string) returns (ok: bool)
      modifies this`members
      ensures ok == UpdateRole(old(Contents()), a, org, user, role).Some?
      ensures Contents() == if ok then UpdateRole(old(Contents()), a, org, user, role).value else old(Contents())
      ensures Inv(old(Contents())) ==> Inv(Contents())
    {
      StepIsKept(Contents(), UpdateRoleEvent(a, org, user, role));
      var row := FirstRow(members, org, user, 0);
      if !May(Contents(), a, org, {"owner"}) || role !in VALID_ROLES || row.None? {
        return false;
      }
      if role != "owner" {
        var refused := Guarded(row.value);
        if refused {
          return false;
        }
      }
      members := members[row.value := members[row.value].(role := role)];
      return true;
    }

    method Remove(a: Actor, org: string, user: string) returns (ok: bool)
      modifies this`members
      ensures ok == RemoveMember(old(Contents()), a, org, user).Some?
      ensures Contents() == if ok then RemoveMember(old(Contents()), a, org, user).value else old(Contents())
      ensures Inv(old(Contents())) ==> Inv(Contents())
    {
      var row, mine := FirstRow(members, org, user, 0), FirstRow(members, org, a.id, 0);
      if !May(Contents(), a, org, {"owner", "admin"}) || row.None? {
        return false;
      }
      var refused := Guarded(row.value);
      if refused || (mine.Some? && members[mine.value].role == "admin" && members[row.value].role == "owner") {
        return false;
      }
      StepIsKept(Contents(), RemoveEvent(a, org, user));
      members := members[..row.value] + members[row.value + 1..];
      return true;
    }
  }
}
