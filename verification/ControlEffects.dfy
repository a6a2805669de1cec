/** What the control plane's operations check and store, said row by row. */
module ControlEffects {
  import opened Text
  import opened ControlPlane
  import opened ControlRuns
  import Slugs

  // ---------- the owner guard ----------

  /** A user with an account who is an owner of the venture, and nobody else, passes the guard. */
  ghost predicate OwnsVenture(p: Plane, caller: nat, slug: string) {
    caller in p.users && (caller, slug) in p.memberships && p.memberships[(caller, slug)].Owner?
  }

  /** Revoking sets the time on exactly one row that was not revoked, for an owner of its venture;
      for anybody else, or any other row, nothing is written. */
  lemma RevokeExactly(p: Plane, caller: nat, slug: string, id: nat)
    ensures var q := Apply(p, RevokeWrite(p, caller, slug, id));
            if OwnsVenture(p, caller, slug) && id in p.invites && p.invites[id].slug == slug
              && p.invites[id].revokedAt == None
            then
              q == p.(invites := q.invites) && q.invites.Keys == p.invites.Keys
              && (forall other :: other in p.invites && other != id ==> q.invites[other] == p.invites[other])
              && q.invites[id].revokedAt == Some(p.now)
              && q.invites[id].(revokedAt := None) == p.invites[id]
            else q == p
  {
  }

  /** Deleting removes exactly one row that was not accepted, for an owner of its venture. */
  lemma DeleteExactly(p: Plane, caller: nat, slug: string, id: nat)
    ensures var q := Apply(p, DeleteWrite(p, caller, slug, id));
            if OwnsVenture(p, caller, slug) && id in p.invites && p.invites[id].slug == slug
              && p.invites[id].acceptedAt == None
            then q == p.(invites := p.invites - {id})
            else q == p
  {
  }

  /** A row for this venture and email. */
  predicate Addressed(p: Plane, id: nat, slug: string, email: string) {
    id in p.invites && p.invites[id].slug == slug && p.invites[id].email == email
  }

  /** An invitation: refused for a bad slug, to anybody but an owner, and where an invite is in force; otherwise it
      goes on with the revoked row there is, or with none. */
  lemma InvitingExactly(p: Plane, caller: nat, slug: string, email: string, role: Role)
    requires UniqueInvites(p)
    ensures var c := StartInviting(p, caller, slug, email, role);
            if !Slugs.MatchesSlugPattern(slug) then c == Failed(BadSlug)
            else if !OwnsVenture(p, caller, slug) then c == Failed(Forbidden)
            else
              (forall id :: Addressed(p, id, slug, email) ==>
                 c == if p.invites[id].revokedAt == None then Failed(InviteExists)
                      else Inviting(slug, email, role, caller, Some(id)))
              && ((forall id :: !Addressed(p, id, slug, email)) ==> c == Inviting(slug, email, role, caller, None))
  {
    Slugs.ValidatorsAgree(slug);
    if Slugs.IsValidSlug(slug) && MayAdminister(p, caller, slug) {
      if id :| IsInviteFor(p, id, slug, email) {
        StartInvitingFinds(p, caller, slug, email, role, Some(id));
        assert forall j :: Addressed(p, j, slug, email) ==> IsInviteFor(p, j, slug, email) && j == id;
        assert Addressed(p, id, slug, email);
      } else {
        StartInvitingFinds(p, caller, slug, email, role, None);
        assert forall j :: Addressed(p, j, slug, email) ==> IsInviteFor(p, j, slug, email);
      }
    }
  }

  /** The second query of an invitation stores a new row, pending and by this inviter, or puts the revoked
      row it found back in force under the new role and inviter; no other row changes. */
  lemma InviteStored(p: Plane, slug: string, email: string, role: Role, inviter: nat, found: Option<nat>)
    requires FreshIds(p)
    requires found.Some? ==> found.value in p.invites
    requires found.None? ==> forall id :: !Addressed(p, id, slug, email)
    ensures var n := Serve(p, Inviting(slug, email, role, inviter, found), 1);
            var q := n.plane;
            var id := if found.Some? then found.value else p.nextInvite;
            n.call == Done && q == p.(invites := q.invites, nextInvite := q.nextInvite)
            && q.invites.Keys == p.invites.Keys + {id}
            && (forall other :: other in p.invites && other != id ==> q.invites[other] == p.invites[other])
            && q.invites[id].role == role && q.invites[id].invitedBy == inviter && q.invites[id].revokedAt == None
            && q.invites[id].slug == (if found.Some? then p.invites[id].slug else slug)
            && q.invites[id].email == (if found.Some? then p.invites[id].email else email)
            && q.invites[id].acceptedAt == (if found.Some? then p.invites[id].acceptedAt else None)
  {
    var c := Inviting(slug, email, role, inviter, found);
    if found.Some? {
      ServeReactivation(p, c, found.value, 1);
    } else {
      assert forall id :: IsInviteFor(p, id, slug, email) ==> Addressed(p, id, slug, email);
      ServeCreation(p, c, 1);
    }
  }

  // ---------- sign-up and creation ----------

  /** A sign-up adds a user exactly if neither the id nor the email is taken, and changes nobody else. */
  lemma SignUpExactly(p: Plane, user: nat, email: string)
    ensures var q := Apply(p, SignUpWrite(p, user, email));
            q == if user !in p.users && (forall u :: u in p.users ==> p.users[u] != email)
                 then p.(users := p.users[user := email]) else p
  {
  }

  /** What an undisturbed creation of a new slug leaves: the venture listed under its creator, who is its
      owner, with a provisioned namespace; nothing else changes. */
  lemma CreationStores(p: Plane, user: nat, slug: string)
    requires Intact(p) && Slugs.MatchesSlugPattern(slug) && slug !in p.directory && slug !in p.provisioned
    ensures var n := Serve(p, StartCreating(p, slug, user), 3);
            n.call == Done
            && n.plane == p.(directory := p.directory[slug := user],
                             memberships := p.memberships[(user, slug) := Owner],
                             namespaces := p.namespaces + {slug}, provisioned := p.provisioned + {slug})
  {
    Slugs.ValidatorsAgree(slug);
    assert (user, slug) !in p.memberships by {
      assert (user, slug) in p.memberships ==> (user, slug).1 in p.directory;
    }
    var p1 := Apply(p, AddNamespace(slug));
    var p2 := Apply(p1, AddSettings(slug));
    var p3 := Apply(p2, ListVenture(slug, user));
    assert Serve(p, Creating(slug, user, 0), 3) == Serve(p1, Creating(slug, user, 1), 2);
    assert Serve(p1, Creating(slug, user, 1), 2) == Serve(p2, Creating(slug, user, 2), 1);
    assert Serve(p2, Creating(slug, user, 2), 1) == Serve(p3, Done, 0);
  }

  /** Why a creation is refused at once. */
  lemma CreationRefused(p: Plane, user: nat, slug: string)
    ensures StartCreating(p, slug, user)
         == if !Slugs.MatchesSlugPattern(slug) then Failed(BadSlug)
            else if slug in p.directory then Failed(TenantExists)
            else Creating(slug, user, 0)
  {
    Slugs.ValidatorsAgree(slug);
  }

  /** The status shown: revoked hides accepted, and pending is neither. */
  lemma StatusExactly(i: Invite)
    ensures InviteStatus(i) == Revoked <==> i.revokedAt != None
    ensures InviteStatus(i) == Accepted <==> i.revokedAt == None && i.acceptedAt != None
    ensures InviteStatus(i) == Pending <==> i.revokedAt == None && i.acceptedAt == None
  {
  }
}
