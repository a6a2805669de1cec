/** Who owns a venture: accepting an invite overwrites a role, so a venture does not always keep an owner. */
module Ownership {
  import opened Text
  import opened ControlPlane
  import opened ControlRuns
  import opened Acceptance
  import Slugs

  predicate OwnedBySomeoneElse(p: Plane, user: nat, slug: string) {
    exists k :: k in p.memberships && k.1 == slug && k.0 != user && p.memberships[k] == Owner
  }

  predicate Owned(p: Plane, slug: string) {
    exists k :: k in p.memberships && k.1 == slug && p.memberships[k] == Owner
  }

  /** Accepting an invite overwrites the role, so a venture does not always keep an owner. It has one
      after a whole sign-in exactly when someone else owns it, or the user's own invite to it is for an
      owner, or the user owned it and had no invite to it. */
  lemma OwnerKeptExactlyIf(p: Plane, user: nat, order: seq<nat>, slug: string)
    requires UniqueInvites(p) && user in p.users && SelectOrder(p, order, p.users[user])
    ensures Owned(Serve(p, SignInCall(p, user, order), 2 * |order|).plane, slug)
            <==> OwnedBySomeoneElse(p, user, slug)
                 || (exists id :: Grants(p, id, user, p.users[user], (user, slug)) && p.invites[id].role == Owner)
                 || (IsOwner(p, user, slug) && !exists id :: Grants(p, id, user, p.users[user], (user, slug)))
  {
    var email := p.users[user];
    var q := Serve(p, SignInCall(p, user, order), 2 * |order|).plane;
    SignInReachesOutcome(p, user, order, 2 * |order|);
    OwnRole(p, q, user, email, slug);
    OthersKeepRoles(p, q, user, email, slug);
    if Owned(q, slug) {
      var k :| k in q.memberships && k.1 == slug && q.memberships[k] == Owner;
      if k.0 == user {
        assert k == (user, slug);
      }
    }
    if IsOwner(q, user, slug) {
      assert (user, slug) in q.memberships && (user, slug).1 == slug;
    }
  }

  lemma OthersKeepRoles(p: Plane, q: Plane, user: nat, email: string, slug: string)
    requires Outcome(p, q, user, email)
    ensures OwnedBySomeoneElse(q, user, slug) <==> OwnedBySomeoneElse(p, user, slug)
  {
    forall k | k in q.memberships && k.0 != user ensures k in p.memberships && p.memberships[k] == q.memberships[k] {
      assert MembershipTowards(p, q, user, email, k);
    }
    forall k | k in p.memberships && k.0 != user ensures k in q.memberships && p.memberships[k] == q.memberships[k] {
      assert MembershipTowards(p, q, user, email, k);
    }
  }

  lemma OwnRole(p: Plane, q: Plane, user: nat, email: string, slug: string)
    requires UniqueInvites(p) && Outcome(p, q, user, email)
    ensures IsOwner(q, user, slug)
            <==> (exists id :: Grants(p, id, user, email, (user, slug)) && p.invites[id].role == Owner)
                 || (IsOwner(p, user, slug) && !exists id :: Grants(p, id, user, email, (user, slug)))
  {
    var k := (user, slug);
    if id :| Grants(p, id, user, email, k) {
      assert Settled(q, id, user);
      SameToProcess(p, q, user, email, id);
      forall j | Grants(p, j, user, email, k) ensures j == id {
      }
    } else {
      if k in q.memberships {
        assert MembershipTowards(p, q, user, email, k);
      }
    }
  }

  // ---------- one event, and runs ----------

  /** The event is the first query of a sign-in for an invite that is not for an owner,
      sent by a user besides whom nobody owns the venture. */
  ghost predicate DemotesLastOwner(s: System, e: Event, slug: string) {
    e.Proceed? && e.call < |s.calls| && s.calls[e.call].Accepting? && !s.calls[e.call].upserted
    && s.calls[e.call].todo != []
    && var c := s.calls[e.call];
       c.todo[0].invite.slug == slug && c.todo[0].invite.role != Owner && !OwnedBySomeoneElse(s.plane, c.user, slug)
  }

  lemma MembershipWriteAndOwner(p: Plane, user: nat, slug: string, role: Role, venture: string)
    requires Owned(p, venture)
    ensures !Owned(Apply(p, PutMembership(user, slug, role)), venture)
            <==> slug == venture && role != Owner && !OwnedBySomeoneElse(p, user, venture)
  {
    var q := Apply(p, PutMembership(user, slug, role));
    var k :| k in p.memberships && k.1 == venture && p.memberships[k] == Owner;
    if slug != venture || role == Owner || k.0 != user {
      var j := if slug == venture && role == Owner then (user, slug) else k;
      assert j in q.memberships && j.1 == venture && q.memberships[j] == Owner;
    } else if OwnedBySomeoneElse(p, user, venture) {
      var j :| j in p.memberships && j.1 == venture && j.0 != user && p.memberships[j] == Owner;
      assert j in q.memberships && q.memberships[j] == Owner;
    }
  }

  lemma OtherWritesKeepOwners(p: Plane, w: Write, slug: string)
    requires !w.PutMembership? && Owned(p, slug)
    ensures Owned(Apply(p, w), slug)
  {
    var k :| k in p.memberships && k.1 == slug && p.memberships[k] == Owner;
    assert k in Apply(p, w).memberships && Apply(p, w).memberships[k] == Owner;
  }

  lemma MembershipWrites(s: System, e: Event)
    requires Sound(s)
    ensures WriteOf(s, e).PutMembership?
            <==> e.Proceed? && e.call < |s.calls| && s.calls[e.call].Accepting? && !s.calls[e.call].upserted
                 && s.calls[e.call].todo != []
    ensures WriteOf(s, e).PutMembership? ==>
              var c := s.calls[e.call];
              WriteOf(s, e) == PutMembership(c.user, c.todo[0].invite.slug, c.todo[0].invite.role)
  {
    if e.Proceed? && e.call < |s.calls| {
      OnlySignInsPutMemberships(s.plane, s.calls[e.call]);
    }
  }

  lemma OnlySignInsPutMemberships(p: Plane, c: Call)
    ensures Advance(p, c).write.PutMembership? <==> c.Accepting? && !c.upserted && c.todo != []
    ensures Advance(p, c).write.PutMembership? ==>
              Advance(p, c).write == PutMembership(c.user, c.todo[0].invite.slug, c.todo[0].invite.role)
  {
  }

  /** Whatever calls are in flight, a venture loses its last owner by exactly this kind of event. */
  lemma OwnerLostExactlyBy(s: System, e: Event, slug: string)
    requires Sound(s) && Owned(s.plane, slug)
    ensures !Owned(Step(s, e).plane, slug) <==> DemotesLastOwner(s, e, slug)
  {
    var w := WriteOf(s, e);
    MembershipWrites(s, e);
    if w.PutMembership? {
      MembershipWriteAndOwner(s.plane, w.user, w.slug, w.role, slug);
    } else {
      OtherWritesKeepOwners(s.plane, w, slug);
    }
  }

  ghost predicate OwnedThroughout(s: System, events: seq<Event>, slug: string)
    decreases |events|
  {
    Owned(s.plane, slug) && (events != [] ==> OwnedThroughout(Step(s, events[0]), events[1..], slug))
  }

  ghost predicate NeverDemotesLastOwner(s: System, events: seq<Event>, slug: string)
    decreases |events|
  {
    events != [] ==>
      !DemotesLastOwner(s, events[0], slug) && NeverDemotesLastOwner(Step(s, events[0]), events[1..], slug)
  }

  /** Over any run an owned venture keeps an owner throughout exactly if no such event occurs. */
  lemma {:induction false} OwnedThroughoutIff(s: System, events: seq<Event>, slug: string)
    requires Sound(s) && Owned(s.plane, slug)
    ensures OwnedThroughout(s, events, slug) <==> NeverDemotesLastOwner(s, events, slug)
    decreases |events|
  {
    if events != [] {
      OwnerLostExactlyBy(s, events[0], slug);
      StepKeepsSound(s, events[0]);
      if !DemotesLastOwner(s, events[0], slug) {
        OwnedThroughoutIff(Step(s, events[0]), events[1..], slug);
      }
    }
  }

  // ---------- an owner who invites himself ----------

  /** The state after the only owner invited his own email as a member. */
  ghost function SelfInvited(p: Plane, user: nat, slug: string): Plane
    requires user in p.users
  {
    Serve(p, StartInviting(p, user, slug, p.users[user], Member), 1).plane
  }

  ghost predicate OnlyOwner(p: Plane, user: nat, slug: string) {
    MayAdminister(p, user, slug) && !OwnedBySomeoneElse(p, user, slug)
  }

  ghost predicate Uninvited(p: Plane, slug: string, email: string) {
    forall id :: !IsInviteFor(p, id, slug, email)
  }

  lemma SelfInviteStored(p: Plane, user: nat, slug: string)
    requires Intact(p) && OnlyOwner(p, user, slug) && Uninvited(p, slug, p.users[user])
    ensures StartInviting(p, user, slug, p.users[user], Member) == Inviting(slug, p.users[user], Member, user, None)
    ensures SelfInvited(p, user, slug)
         == Apply(p, PutInvite(p.nextInvite, Invite(slug, p.users[user], Member, user, None, None)))
  {
    assert (user, slug) in p.memberships && (user, slug).1 in p.directory;
    Slugs.ValidatorsAgree(slug);
    StartInvitingFinds(p, user, slug, p.users[user], Member, None);
    ServeCreation(p, Inviting(slug, p.users[user], Member, user, None), 1);
  }

  /** `create_invite` lets an owner invite himself. If he is the only one, his next whole sign-in
      leaves the venture without an owner. */
  lemma SelfInviteLosesOwner(p: Plane, user: nat, slug: string, order: seq<nat>)
    requires Intact(p) && OnlyOwner(p, user, slug) && Uninvited(p, slug, p.users[user])
    requires SelectOrder(SelfInvited(p, user, slug), order, p.users[user])
    ensures var q := SelfInvited(p, user, slug);
            user in q.users && !Owned(Serve(q, SignInCall(q, user, order), 2 * |order|).plane, slug)
  {
    var q := SelfInvited(p, user, slug);
    var email := p.users[user];
    SelfInviteStored(p, user, slug);
    var i := Invite(slug, email, Member, user, None, None);
    WriteKeepsUnique(p, PutInvite(p.nextInvite, i));
    OwnerKeptExactlyIf(q, user, order, slug);
    assert q.invites[p.nextInvite] == i;
    assert Grants(q, p.nextInvite, user, email, (user, slug));
    forall id | Grants(q, id, user, email, (user, slug)) ensures id == p.nextInvite {
      assert id != p.nextInvite ==> IsInviteFor(p, id, slug, email);
    }
    SameOwners(p, q, user, slug);
  }

  lemma SameOwners(p: Plane, q: Plane, user: nat, slug: string)
    requires q.memberships == p.memberships
    ensures OwnedBySomeoneElse(q, user, slug) <==> OwnedBySomeoneElse(p, user, slug)
  {
  }

  // ---------- a run that gets there ----------

  /** Serving a call undisturbed is a run of the system: its queries, one event each. */
  function Queries(call: nat, count: nat): seq<Event> {
    seq(count, _ => Proceed(call))
  }

  lemma {:induction false} ServeIsRun(s: System, call: nat, budget: nat)
    requires call < |s.calls|
    ensures var t, n := Run(s, Queries(call, budget)), Serve(s.plane, s.calls[call], budget);
            t == System(n.plane, s.calls[call := n.call])
    decreases budget
  {
    if budget > 0 {
      var t := Step(s, Proceed(call));
      assert Queries(call, budget)[1..] == Queries(call, budget - 1);
      ServeIsRun(t, call, budget - 1);
      if s.calls[call].Live() {
        assert t.calls[call := Serve(t.plane, t.calls[call], budget - 1).call]
            == s.calls[call := Serve(t.plane, t.calls[call], budget - 1).call];
      } else {
        assert t == s;
        ServeEnded(s.plane, s.calls[call], budget - 1);
      }
    } else {
      assert s.calls[call := s.calls[call]] == s.calls;
    }
  }

  /** Some order in which a SELECT may list the rows. */
  lemma OrderExists(p: Plane, email: string) returns (order: seq<nat>)
    ensures SelectOrder(p, order, email)
  {
    var left := set id | id in p.invites && ToProcess(p, id, email);
    order := [];
    while left != {}
      invariant forall id :: id in left ==> ToProcess(p, id, email)
      invariant forall id :: ToProcess(p, id, email) <==> id in left || id in order
      invariant forall id :: id in order ==> id !in left
      invariant forall i, j :: 0 <= i < j < |order| ==> order[i] != order[j]
      decreases |left|
    {
      var id :| id in left;
      order, left := order + [id], left - {id};
    }
  }

  /** From any sound state with an only owner not yet invited some run leaves the venture without one. */
  lemma OnlyOwnerCanBeLost(s: System, user: nat, slug: string)
    requires Sound(s) && OnlyOwner(s.plane, user, slug) && Uninvited(s.plane, slug, s.plane.users[user])
    ensures exists events :: slug in Run(s, events).plane.directory && !Owned(Run(s, events).plane, slug)
  {
    var p, n := s.plane, |s.calls|;
    var email := p.users[user];
    var invite := [BeginInvite(user, slug, email, Member)] + [Proceed(n)];
    SelfInviteRun(s, user, slug);
    var t := Run(s, invite);
    var q := t.plane;
    var order := OrderExists(q, email);
    var c := SignInCall(q, user, order);
    var m := |t.calls|;
    RunSnoc(s, invite, BeginSignIn(user, order));
    var u := Run(s, invite + [BeginSignIn(user, order)]);
    assert u == System(q, t.calls + [c]);
    ServeIsRun(u, m, 2 * |order|);
    var events := invite + [BeginSignIn(user, order)] + Queries(m, 2 * |order|);
    RunAppend(s, invite + [BeginSignIn(user, order)], Queries(m, 2 * |order|));
    SelfInviteLosesOwner(p, user, slug, order);
    RunKeepsListed(s, events, slug);
    assert !Owned(Run(s, events).plane, slug);
  }

  lemma SelfInviteRun(s: System, user: nat, slug: string)
    requires Sound(s) && OnlyOwner(s.plane, user, slug) && Uninvited(s.plane, slug, s.plane.users[user])
    ensures var t := Run(s, [BeginInvite(user, slug, s.plane.users[user], Member)] + [Proceed(|s.calls|)]);
            t.plane == SelfInvited(s.plane, user, slug) && t.plane.users == s.plane.users && slug in s.plane.directory
  {
    var n := |s.calls|;
    var e := BeginInvite(user, slug, s.plane.users[user], Member);
    SelfInviteStored(s.plane, user, slug);
    assert (user, slug) in s.plane.memberships && (user, slug).1 in s.plane.directory;
    RunOne(s, e);
    RunSnoc(s, [e], Proceed(n));
    OneQueryServed(Step(s, e), n);
  }

  lemma OneQueryServed(s: System, call: nat)
    requires call < |s.calls|
    ensures Step(s, Proceed(call)).plane == Serve(s.plane, s.calls[call], 1).plane
  {
    ServeIsRun(s, call, 1);
    assert Queries(call, 1) == [Proceed(call)];
    RunOne(s, Proceed(call));
  }

  lemma {:induction false} RunKeepsListed(s: System, events: seq<Event>, slug: string)
    requires Sound(s) && slug in s.plane.directory
    ensures slug in Run(s, events).plane.directory
    decreases |events|
  {
    if events != [] {
      StepKeepsSound(s, events[0]);
      RunKeepsListed(Step(s, events[0]), events[1..], slug);
    }
  }

  /** A venture just created by the first user to sign up. */
  function JustCreated(slug: string, email: string): seq<Event> {
    [SignUp(0, email)] + ([BeginCreate(0, slug), Proceed(0)] + [Proceed(0)] + [Proceed(0)])
  }

  lemma CreatorIsOnlyOwner(slug: string, email: string)
    requires Slugs.IsValidSlug(slug)
    ensures var p := Run(INITIAL, JustCreated(slug, email)).plane;
            OnlyOwner(p, 0, slug) && p.users == map[0 := email] && p.invites == map[]
  {
    var s := Step(INITIAL, SignUp(0, email));
    assert s == System(EMPTY_PLANE.(users := map[0 := email]), []);
    RunOne(INITIAL, SignUp(0, email));
    var rest := [BeginCreate(0, slug), Proceed(0)] + [Proceed(0)];
    RunAppend(INITIAL, [SignUp(0, email)], rest + [Proceed(0)]);
    CreationProvisions(s, 0, slug);
    RunSnoc(s, rest, Proceed(0));
    var p := Step(Run(s, rest), Proceed(0)).plane;
    assert p.memberships == map[(0, slug) := Owner];
  }

  /** Every valid slug has a reachable state in which its venture is listed and nobody owns it. */
  lemma ReachableWithoutOwner(slug: string, email: string)
    requires Slugs.IsValidSlug(slug)
    ensures exists events :: slug in Run(INITIAL, events).plane.directory && !Owned(Run(INITIAL, events).plane, slug)
  {
    var created := JustCreated(slug, email);
    var s := Run(INITIAL, created);
    RunKeepsSound(INITIAL, created);
    CreatorIsOnlyOwner(slug, email);
    OnlyOwnerCanBeLost(s, 0, slug);
    var events :| slug in Run(s, events).plane.directory && !Owned(Run(s, events).plane, slug);
    RunAppend(INITIAL, created, events);
    assert !Owned(Run(INITIAL, created + events).plane, slug);
  }
}
