/** Sign-in turns pending invites into memberships with two queries an invite. These are the
    promises of `accept_pending_invites` when it may be cut off anywhere and run again. */
module Acceptance {
  import opened Text
  import opened ControlPlane
  import opened ControlRuns

  /** The sign-in of `user` on `p`, the SELECT having listed the rows as `order`. */
  function SignInCall(p: Plane, user: nat, order: seq<nat>): Call
    requires user in p.users && forall id :: id in order ==> id in p.invites
  {
    SigningIn(p.users[user], user, Snapshots(p, order), [])
  }

  /** `q` is `p` after some of the user's invites were worked on: nothing but their acceptance and
      the user's memberships under them changed, and those only as the invites say. */
  ghost predicate Towards(p: Plane, q: Plane, user: nat, email: string) {
    q.users == p.users && q.directory == p.directory && q.namespaces == p.namespaces
    && q.provisioned == p.provisioned && q.nextInvite == p.nextInvite
    && q.invites.Keys == p.invites.Keys
    && (forall id :: id in p.invites ==> InviteTowards(p, q, id, email))
    && (forall k :: k in p.memberships ==> k in q.memberships)
    && (forall k :: k in q.memberships ==> MembershipTowards(p, q, user, email, k))
  }

  predicate InviteTowards(p: Plane, q: Plane, id: nat, email: string)
    requires id in p.invites && id in q.invites
  {
    q.invites[id] == p.invites[id]
    || (ToProcess(p, id, email) && p.invites[id].acceptedAt.None? && q.invites[id].acceptedAt.Some?
        && q.invites[id] == p.invites[id].(acceptedAt := q.invites[id].acceptedAt))
  }

  /** The invite `id` asks for membership `k`. */
  predicate Grants(p: Plane, id: nat, user: nat, email: string, k: (nat, string)) {
    ToProcess(p, id, email) && k == (user, p.invites[id].slug)
  }

  ghost predicate MembershipTowards(p: Plane, q: Plane, user: nat, email: string, k: (nat, string))
    requires k in q.memberships
  {
    (k in p.memberships && q.memberships[k] == p.memberships[k])
    || exists id :: Grants(p, id, user, email, k) && q.memberships[k] == p.invites[id].role
  }

  /** Invite `id` is dealt with: accepted, and its membership in place with its role. */
  predicate Settled(q: Plane, id: nat, user: nat) {
    id in q.invites && q.invites[id].acceptedAt.Some?
    && (user, q.invites[id].slug) in q.memberships && q.memberships[(user, q.invites[id].slug)] == q.invites[id].role
  }

  /** `q` is what a sign-in that was not cut off leaves behind. */
  ghost predicate Outcome(p: Plane, q: Plane, user: nat, email: string) {
    Towards(p, q, user, email) && forall id :: ToProcess(p, id, email) ==> Settled(q, id, user)
  }

  lemma SameToProcess(p: Plane, q: Plane, user: nat, email: string, id: nat)
    requires Towards(p, q, user, email)
    ensures ToProcess(q, id, email) <==> ToProcess(p, id, email)
    ensures ToProcess(p, id, email) ==>
        SameTarget(p.invites[id], q.invites[id]) && q.invites[id].role == p.invites[id].role
  {
    if id in p.invites {
      assert InviteTowards(p, q, id, email);
    }
  }

  lemma TowardsTransitive(p: Plane, q: Plane, r: Plane, user: nat, email: string)
    requires Towards(p, q, user, email) && Towards(q, r, user, email)
    ensures Towards(p, r, user, email)
  {
    forall id | id in p.invites ensures InviteTowards(p, r, id, email) {
      assert InviteTowards(p, q, id, email) && InviteTowards(q, r, id, email);
    }
    forall k | k in r.memberships ensures MembershipTowards(p, r, user, email, k) {
      assert MembershipTowards(q, r, user, email, k);
      if k in q.memberships && r.memberships[k] == q.memberships[k] {
        assert MembershipTowards(p, q, user, email, k);
      } else {
        var id :| Grants(q, id, user, email, k) && r.memberships[k] == q.invites[id].role;
        SameToProcess(p, q, user, email, id);
        assert Grants(p, id, user, email, k);
      }
    }
  }

  // ---------- one query of a sign-in ----------

  /** The snapshots are `p`'s rows, each once. */
  ghost predicate TodoFits(p: Plane, email: string, todo: seq<Snapshot>) {
    (forall i :: 0 <= i < |todo| ==> ToProcess(p, todo[i].id, email) && todo[i].invite == p.invites[todo[i].id])
    && (forall i, j :: 0 <= i < j < |todo| ==> todo[i].id != todo[j].id)
  }

  predicate Listed(todo: seq<Snapshot>, id: nat) {
    exists i :: 0 <= i < |todo| && todo[i].id == id
  }

  /** Every row not among the snapshots is settled. */
  ghost predicate Covered(p: Plane, q: Plane, user: nat, email: string, todo: seq<Snapshot>) {
    forall id :: ToProcess(p, id, email) ==> Settled(q, id, user) || Listed(todo, id)
  }

  /** A sign-in on its way from `p`: the plane moved towards its outcome, and the snapshots left
      are exactly the work left. */
  ghost predicate OnTheWay(p: Plane, q: Plane, c: Call, user: nat, email: string) {
    UniqueInvites(p) && Towards(p, q, user, email)
    && match c
       case Accepting(e, u, todo, upserted, _) =>
         e == email && u == user && todo != [] && TodoFits(p, email, todo) && Covered(p, q, user, email, todo)
         && (upserted ==> todo[0].invite.acceptedAt.None? && Joined(q, user, todo[0].invite))
       case SignedIn(_) => Covered(p, q, user, email, [])
       case _ => false
  }

  predicate Joined(q: Plane, user: nat, i: Invite) {
    (user, i.slug) in q.memberships && q.memberships[(user, i.slug)] == i.role
  }

  lemma UpsertTowards(p: Plane, q: Plane, user: nat, email: string, id: nat)
    requires Towards(p, q, user, email) && ToProcess(p, id, email)
    ensures Towards(p, Apply(q, PutMembership(user, p.invites[id].slug, p.invites[id].role)), user, email)
  {
    var r := Apply(q, PutMembership(user, p.invites[id].slug, p.invites[id].role));
    forall i | i in p.invites ensures InviteTowards(p, r, i, email) {
      assert InviteTowards(p, q, i, email);
    }
    forall k | k in r.memberships ensures MembershipTowards(p, r, user, email, k) {
      if k == (user, p.invites[id].slug) {
        assert Grants(p, id, user, email, k);
      } else {
        assert MembershipTowards(p, q, user, email, k);
      }
    }
  }

  lemma MarkTowards(p: Plane, q: Plane, user: nat, email: string, id: nat)
    requires Towards(p, q, user, email) && ToProcess(p, id, email) && p.invites[id].acceptedAt.None?
    ensures id in q.invites
    ensures Towards(p, Apply(q, PutInvite(id, q.invites[id].(acceptedAt := Some(q.now)))), user, email)
  {
    var r := Apply(q, PutInvite(id, q.invites[id].(acceptedAt := Some(q.now))));
    assert InviteTowards(p, q, id, email);
    forall i | i in p.invites ensures InviteTowards(p, r, i, email) {
      assert InviteTowards(p, q, i, email);
    }
    forall k | k in r.memberships ensures MembershipTowards(p, r, user, email, k) {
      assert MembershipTowards(p, q, user, email, k);
    }
  }

  /** Working on one invite leaves the settled ones settled: their slugs differ. */
  lemma SettledStays(p: Plane, q: Plane, user: nat, email: string, id: nat, other: nat)
    requires UniqueInvites(p) && Towards(p, q, user, email)
    requires ToProcess(p, id, email) && ToProcess(p, other, email) && Settled(q, other, user)
    requires id != other
    ensures Settled(Apply(q, PutMembership(user, p.invites[id].slug, p.invites[id].role)), other, user)
    ensures id in q.invites && Settled(Apply(q, PutInvite(id, q.invites[id].(acceptedAt := Some(q.now)))), other, user)
  {
    assert InviteTowards(p, q, other, email);
  }

  lemma RestFits(p: Plane, email: string, todo: seq<Snapshot>)
    requires TodoFits(p, email, todo) && todo != []
    ensures TodoFits(p, email, todo[1..]) && !Listed(todo[1..], todo[0].id)
  {
  }

  lemma ListedRest(todo: seq<Snapshot>, id: nat)
    requires todo != []
    ensures Listed(todo, id) <==> id == todo[0].id || Listed(todo[1..], id)
  {
    if i :| 0 <= i < |todo| && todo[i].id == id {
      if i > 0 {
        assert todo[1..][i - 1].id == id;
      }
    }
    if Listed(todo[1..], id) {
      var i :| 0 <= i < |todo[1..]| && todo[1..][i].id == id;
      assert todo[i + 1].id == id;
    }
    assert todo[0].id == id ==> Listed(todo, id);
  }

  lemma CoveredStays(p: Plane, q: Plane, user: nat, email: string, todo: seq<Snapshot>, w: Write)
    requires UniqueInvites(p) && Towards(p, q, user, email) && TodoFits(p, email, todo) && todo != []
    requires Covered(p, q, user, email, todo)
    requires todo[0].id in q.invites
    requires w == PutMembership(user, todo[0].invite.slug, todo[0].invite.role)
             || w == PutInvite(todo[0].id, q.invites[todo[0].id].(acceptedAt := Some(q.now)))
    ensures Covered(p, Apply(q, w), user, email, todo)
    ensures Settled(Apply(q, w), todo[0].id, user) ==> Covered(p, Apply(q, w), user, email, todo[1..])
  {
    var head := todo[0];
    forall id | ToProcess(p, id, email)
      ensures Settled(Apply(q, w), id, user) || Listed(todo, id)
      ensures Settled(Apply(q, w), head.id, user) ==> Settled(Apply(q, w), id, user) || Listed(todo[1..], id)
    {
      ListedRest(todo, id);
      if id != head.id && Settled(q, id, user) {
        SettledStays(p, q, user, email, head.id, id);
      }
    }
  }

  lemma UpsertOnTheWay(p: Plane, q: Plane, c: Call, user: nat, email: string)
    requires OnTheWay(p, q, c, user, email) && c.Accepting? && !c.upserted
    ensures var n := AdvanceAccepting(q, c); OnTheWay(p, Apply(q, n.write), n.call, user, email)
  {
    var head := c.todo[0];
    var w := PutMembership(user, head.invite.slug, head.invite.role);
    var r := Apply(q, w);
    assert ToProcess(p, head.id, email);
    assert InviteTowards(p, q, head.id, email);
    UpsertTowards(p, q, user, email, head.id);
    CoveredStays(p, q, user, email, c.todo, w);
    RestFits(p, email, c.todo);
    assert Joined(r, user, head.invite);
    if head.invite.acceptedAt.Some? {
      assert Settled(r, head.id, user);
    }
  }

  lemma RestOnTheWay(p: Plane, r: Plane, user: nat, email: string, todo: seq<Snapshot>, accepted: seq<string>)
    requires UniqueInvites(p) && Towards(p, r, user, email)
    requires TodoFits(p, email, todo) && Covered(p, r, user, email, todo)
    ensures OnTheWay(p, r, SigningIn(email, user, todo, accepted), user, email)
  {
  }

  /** What is known of the invite a sign-in is about to mark. */
  lemma AboutToMark(p: Plane, q: Plane, c: Call, user: nat, email: string)
    requires OnTheWay(p, q, c, user, email) && c.Accepting? && c.upserted
    ensures c.email == email && c.user == user && c.todo != []
    ensures ToProcess(p, c.todo[0].id, email) && p.invites[c.todo[0].id].acceptedAt.None?
    ensures c.todo[0].id in q.invites && Joined(q, user, q.invites[c.todo[0].id])
  {
    assert ToProcess(p, c.todo[0].id, email);
    assert InviteTowards(p, q, c.todo[0].id, email);
  }

  lemma MarkSettles(q: Plane, user: nat, id: nat)
    requires id in q.invites && Joined(q, user, q.invites[id])
    ensures Settled(Apply(q, PutInvite(id, q.invites[id].(acceptedAt := Some(q.now)))), id, user)
  {
  }

  lemma MarkOnTheWay(p: Plane, q: Plane, c: Call, user: nat, email: string)
    requires OnTheWay(p, q, c, user, email) && c.Accepting? && c.upserted
    ensures var n := AdvanceAccepting(q, c); OnTheWay(p, Apply(q, n.write), n.call, user, email)
  {
    AboutToMark(p, q, c, user, email);
    var id := c.todo[0].id;
    var w := PutInvite(id, q.invites[id].(acceptedAt := Some(q.now)));
    MarkTowards(p, q, user, email, id);
    MarkSettles(q, user, id);
    CoveredStays(p, q, user, email, c.todo, w);
    RestFits(p, email, c.todo);
    RestOnTheWay(p, Apply(q, w), user, email, c.todo[1..], c.accepted + [c.todo[0].invite.slug]);
  }

  /** The queries a sign-in still has to send. */
  function QueriesLeft(c: Call): nat {
    if c.Accepting? then 2 * |c.todo| - (if c.upserted && c.todo != [] then 1 else 0) else 0
  }

  lemma AdvanceSpends(q: Plane, c: Call)
    requires c.Accepting? && c.todo != []
    ensures var n := Advance(q, c);
            QueriesLeft(n.call) < QueriesLeft(c)
            && (n.call.Accepting? ==> n.call.todo != [])
            && (n.call.Accepting? || n.call.SignedIn? || n.call.Failed?)
  {
  }

  lemma OnTheWayCall(p: Plane, q: Plane, c: Call, user: nat, email: string)
    requires OnTheWay(p, q, c, user, email)
    ensures c.SignedIn? || (c.Accepting? && c.todo != [])
  {
  }

  lemma AdvanceOnTheWay(p: Plane, q: Plane, c: Call, user: nat, email: string)
    requires OnTheWay(p, q, c, user, email) && c.Accepting?
    ensures OnTheWay(p, Apply(q, Advance(q, c).write), Advance(q, c).call, user, email)
  {
    OnTheWayCall(p, q, c, user, email);
    if c.upserted {
      MarkOnTheWay(p, q, c, user, email);
    } else {
      UpsertOnTheWay(p, q, c, user, email);
    }
  }

  /** What every query keeps, a whole call keeps. */
  lemma {:induction false} ServeInvariant(inv: (Plane, Call) -> bool, q: Plane, c: Call, budget: nat)
    requires inv(q, c)
    requires forall r, d :: inv(r, d) && d.Live() ==> inv(Apply(r, Advance(r, d).write), Advance(r, d).call)
    ensures inv(Serve(q, c, budget).plane, Serve(q, c, budget).call)
    decreases budget
  {
    if budget > 0 && c.Live() {
      var n := Advance(q, c);
      ServeInvariant(inv, Apply(q, n.write), n.call, budget - 1);
    }
  }

  lemma ServeStaysOnTheWay(p: Plane, q: Plane, c: Call, user: nat, email: string, budget: nat)
    requires OnTheWay(p, q, c, user, email)
    ensures OnTheWay(p, Serve(q, c, budget).plane, Serve(q, c, budget).call, user, email)
  {
    var inv := (r, d) => OnTheWay(p, r, d, user, email);
    forall r, d | inv(r, d) && d.Live() ensures inv(Apply(r, Advance(r, d).write), Advance(r, d).call) {
      OnTheWayCall(p, r, d, user, email);
      AdvanceOnTheWay(p, r, d, user, email);
    }
    ServeInvariant(inv, q, c, budget);
  }

  /** Two queries an invite are enough for a sign-in to end. */
  lemma {:induction false} ServeEnds(q: Plane, c: Call, budget: nat)
    requires c.Accepting? ==> c.todo != []
    requires c.Accepting? || c.SignedIn? || c.Failed?
    requires budget >= QueriesLeft(c)
    ensures !Serve(q, c, budget).call.Accepting?
    decreases budget
  {
    if c.Accepting? {
      AdvanceSpends(q, c);
      ServeEnds(Apply(q, Advance(q, c).write), Advance(q, c).call, budget - 1);
    }
  }

  lemma ServeOnTheWay(p: Plane, q: Plane, c: Call, user: nat, email: string, budget: nat)
    requires OnTheWay(p, q, c, user, email)
    ensures OnTheWay(p, Serve(q, c, budget).plane, Serve(q, c, budget).call, user, email)
    ensures budget >= QueriesLeft(c) ==> Serve(q, c, budget).call.SignedIn?
  {
    ServeStaysOnTheWay(p, q, c, user, email, budget);
    OnTheWayCall(p, q, c, user, email);
    OnTheWayCall(p, Serve(q, c, budget).plane, Serve(q, c, budget).call, user, email);
    if budget >= QueriesLeft(c) {
      ServeEnds(q, c, budget);
    }
  }

  lemma StartOnTheWay(p: Plane, user: nat, order: seq<nat>)
    requires UniqueInvites(p) && user in p.users && SelectOrder(p, order, p.users[user])
    ensures OnTheWay(p, p, SignInCall(p, user, order), user, p.users[user])
  {
    var email := p.users[user];
    var todo := Snapshots(p, order);
    forall i | 0 <= i < |todo| ensures ToProcess(p, todo[i].id, email) {
      assert order[i] in order;
    }
    forall id | ToProcess(p, id, email) ensures Listed(todo, id) {
      assert id in order;
      var i :| 0 <= i < |order| && order[i] == id;
      assert todo[i].id == id;
    }
  }

  /** However a sign-in is cut off it only moves towards its outcome; given two queries an invite it reaches it. */
  lemma SignInReachesOutcome(p: Plane, user: nat, order: seq<nat>, budget: nat)
    requires UniqueInvites(p) && user in p.users && SelectOrder(p, order, p.users[user])
    ensures var n := Serve(p, SignInCall(p, user, order), budget);
            Towards(p, n.plane, user, p.users[user])
            && (budget >= 2 * |order| ==> n.call.SignedIn? && Outcome(p, n.plane, user, p.users[user]))
  {
    StartOnTheWay(p, user, order);
    ServeOnTheWay(p, p, SignInCall(p, user, order), user, p.users[user], budget);
  }

  /** The slugs of the snapshots that were not accepted yet, in the order listed. */
  function NewSlugs(todo: seq<Snapshot>): seq<string> {
    if todo == [] then []
    else (if todo[0].invite.acceptedAt.None? then [todo[0].invite.slug] else []) + NewSlugs(todo[1..])
  }

  /** A whole sign-in reports exactly the ventures it newly accepted, each time it accepts one. */
  lemma {:induction false} SignInReports(q: Plane, email: string, user: nat, todo: seq<Snapshot>,
                                         accepted: seq<string>, budget: nat)
    requires forall i :: 0 <= i < |todo| ==> todo[i].id in q.invites
    requires budget >= 2 * |todo|
    ensures Serve(q, SigningIn(email, user, todo, accepted), budget).call == SignedIn(accepted + NewSlugs(todo))
    decreases |todo|
  {
    if todo == [] {
      ServeEnded(q, SignedIn(accepted), budget);
      assert accepted + [] == accepted;
    } else {
      var i, rest := todo[0].invite, todo[1..];
      ServeUpsert(q, email, user, todo, accepted, budget);
      var r := Apply(q, PutMembership(user, i.slug, i.role));
      if i.acceptedAt.Some? {
        SignInReports(r, email, user, rest, accepted, budget - 1);
        assert accepted + NewSlugs(todo) == accepted + NewSlugs(rest);
      } else {
        ServeMark(r, email, user, todo, accepted, budget - 1);
        var id := todo[0].id;
        var t := Apply(r, PutInvite(id, r.invites[id].(acceptedAt := Some(r.now))));
        SignInReports(t, email, user, rest, accepted + [i.slug], budget - 2);
        assert accepted + NewSlugs(todo) == accepted + [i.slug] + NewSlugs(rest);
      }
    }
  }

  // ---------- cut off and run again ----------

  /** The same tables, up to the times at which invites were stamped. */
  ghost predicate SameUpToStamps(q: Plane, r: Plane) {
    q.users == r.users && q.directory == r.directory && q.namespaces == r.namespaces
    && q.provisioned == r.provisioned && q.nextInvite == r.nextInvite
    && q.memberships == r.memberships && q.invites.Keys == r.invites.Keys
    && forall id :: id in q.invites ==>
         (q.invites[id].acceptedAt.Some? <==> r.invites[id].acceptedAt.Some?)
         && q.invites[id].(acceptedAt := None) == r.invites[id].(acceptedAt := None)
  }

  lemma OutcomeMembership(p: Plane, q: Plane, r: Plane, user: nat, email: string, k: (nat, string))
    requires UniqueInvites(p) && Outcome(p, q, user, email) && Outcome(p, r, user, email) && k in q.memberships
    ensures k in r.memberships && r.memberships[k] == q.memberships[k]
  {
    if id :| Grants(p, id, user, email, k) {
      GrantedRole(p, q, user, email, id);
      GrantedRole(p, r, user, email, id);
    } else {
      assert MembershipTowards(p, q, user, email, k);
      assert k in r.memberships && MembershipTowards(p, r, user, email, k);
    }
  }

  /** An outcome holds the membership an invite grants, with the invite's role. */
  lemma GrantedRole(p: Plane, q: Plane, user: nat, email: string, id: nat)
    requires Outcome(p, q, user, email) && ToProcess(p, id, email)
    ensures var k := (user, p.invites[id].slug); k in q.memberships && q.memberships[k] == p.invites[id].role
  {
    assert Settled(q, id, user);
    assert InviteTowards(p, q, id, email);
  }

  lemma OutcomeInvite(p: Plane, q: Plane, r: Plane, user: nat, email: string, id: nat)
    requires Outcome(p, q, user, email) && Outcome(p, r, user, email) && id in p.invites
    ensures q.invites[id].acceptedAt.Some? <==> r.invites[id].acceptedAt.Some?
    ensures q.invites[id].(acceptedAt := None) == r.invites[id].(acceptedAt := None)
  {
    assert InviteTowards(p, q, id, email) && InviteTowards(p, r, id, email);
    if ToProcess(p, id, email) {
      assert Settled(q, id, user) && Settled(r, id, user);
    }
  }

  /** The outcome of a sign-in is determined by the state it starts from. */
  lemma OutcomeUnique(p: Plane, q: Plane, r: Plane, user: nat, email: string)
    requires UniqueInvites(p) && Outcome(p, q, user, email) && Outcome(p, r, user, email)
    ensures SameUpToStamps(q, r)
  {
    forall k | k in q.memberships ensures k in r.memberships && r.memberships[k] == q.memberships[k] {
      OutcomeMembership(p, q, r, user, email, k);
    }
    forall k | k in r.memberships ensures k in q.memberships {
      OutcomeMembership(p, r, q, user, email, k);
    }
    assert q.memberships == r.memberships;
    forall id | id in q.invites
      ensures q.invites[id].acceptedAt.Some? <==> r.invites[id].acceptedAt.Some?
      ensures q.invites[id].(acceptedAt := None) == r.invites[id].(acceptedAt := None)
    {
      OutcomeInvite(p, q, r, user, email, id);
    }
  }

  lemma OutcomeAfterDetour(p: Plane, q: Plane, r: Plane, user: nat, email: string)
    requires Towards(p, q, user, email) && Outcome(q, r, user, email)
    ensures Outcome(p, r, user, email)
  {
    TowardsTransitive(p, q, r, user, email);
    forall id | ToProcess(p, id, email) ensures Settled(r, id, user) {
      SameToProcess(p, q, user, email, id);
    }
  }

  lemma TowardsUnique(p: Plane, q: Plane, user: nat, email: string)
    requires UniqueInvites(p) && Towards(p, q, user, email)
    ensures UniqueInvites(q)
  {
    forall i, j | i in q.invites && j in q.invites && i != j
      ensures q.invites[i].slug != q.invites[j].slug || q.invites[i].email != q.invites[j].email
    {
      assert InviteTowards(p, q, i, email) && InviteTowards(p, q, j, email);
    }
  }

  lemma DetourReachesOutcome(p: Plane, q: Plane, user: nat, order: seq<nat>)
    requires UniqueInvites(p) && user in p.users && Towards(p, q, user, p.users[user])
    requires user in q.users && SelectOrder(q, order, q.users[user])
    ensures Outcome(p, Serve(q, SignInCall(q, user, order), 2 * |order|).plane, user, p.users[user])
  {
    TowardsUnique(p, q, user, p.users[user]);
    SignInReachesOutcome(q, user, order, 2 * |order|);
    OutcomeAfterDetour(p, q, Serve(q, SignInCall(q, user, order), 2 * |order|).plane, user, p.users[user]);
  }

  /** The state a sign-in cut off after `cut` queries leaves, looked at later. */
  ghost function CutOff(p: Plane, user: nat, order: seq<nat>, cut: nat, later: int): Plane
    requires user in p.users && forall id :: id in order ==> id in p.invites
  {
    Serve(p, SignInCall(p, user, order), cut).plane.(now := later)
  }

  ghost function WholeSignIn(p: Plane, user: nat, order: seq<nat>): Plane
    requires user in p.users && forall id :: id in order ==> id in p.invites
  {
    Serve(p, SignInCall(p, user, order), 2 * |order|).plane
  }

  /** Cut off after any number of queries and run again later, a sign-in reaches the same memberships,
      roles and accepted invites as one uninterrupted run, whatever orders the three SELECTs list. */
  lemma RetryReachesSameOutcome(p: Plane, user: nat, first: seq<nat>, cut: nat, later: int, second: seq<nat>,
                                whole: seq<nat>)
    requires UniqueInvites(p) && user in p.users
    requires SelectOrder(p, first, p.users[user]) && SelectOrder(p, whole, p.users[user])
    requires var q := CutOff(p, user, first, cut, later);
             user in q.users && SelectOrder(q, second, q.users[user])
    ensures SameUpToStamps(WholeSignIn(CutOff(p, user, first, cut, later), user, second), WholeSignIn(p, user, whole))
  {
    var email := p.users[user];
    var q := CutOff(p, user, first, cut, later);
    SignInReachesOutcome(p, user, first, cut);
    SignInReachesOutcome(p, user, whole, 2 * |whole|);
    ClockIrrelevant(p, Serve(p, SignInCall(p, user, first), cut).plane, user, email, later);
    DetourReachesOutcome(p, q, user, second);
    OutcomeUnique(p, WholeSignIn(q, user, second), WholeSignIn(p, user, whole), user, email);
  }

  lemma ClockIrrelevant(p: Plane, q: Plane, user: nat, email: string, later: int)
    requires Towards(p, q, user, email)
    ensures Towards(p, q.(now := later), user, email)
  {
    var r := q.(now := later);
    forall id | id in p.invites ensures InviteTowards(p, r, id, email) {
      assert InviteTowards(p, q, id, email);
    }
    forall k | k in r.memberships ensures MembershipTowards(p, r, user, email, k) {
      assert MembershipTowards(p, q, user, email, k);
    }
  }

  /** A sign-in with nothing pending changes nothing and reports nothing, wherever it is cut off. */
  lemma {:induction false} SettledSignInIdle(q: Plane, user: nat, email: string, todo: seq<Snapshot>, budget: nat)
    requires forall i :: 0 <= i < |todo| ==> Settled(q, todo[i].id, user) && todo[i].invite == q.invites[todo[i].id]
    ensures var n := Serve(q, SigningIn(email, user, todo, []), budget);
            n.plane == q && (budget >= |todo| ==> n.call == SignedIn([]))
    decreases |todo|
  {
    if todo != [] && budget > 0 {
      ServeUpsert(q, email, user, todo, [], budget);
      var i := todo[0].invite;
      assert Settled(q, todo[0].id, user);
      assert Apply(q, PutMembership(user, i.slug, i.role)) == q;
      SettledSignInIdle(q, user, email, todo[1..], budget - 1);
    }
  }

  /** After a whole sign-in, signing in again changes nothing and accepts nothing. */
  lemma SecondSignInIdle(p: Plane, user: nat, order: seq<nat>, again: seq<nat>, budget: nat)
    requires UniqueInvites(p) && user in p.users && SelectOrder(p, order, p.users[user])
    requires var q := Serve(p, SignInCall(p, user, order), 2 * |order|).plane;
             user in q.users && SelectOrder(q, again, q.users[user])
    ensures var q := Serve(p, SignInCall(p, user, order), 2 * |order|).plane;
            var n := Serve(q, SignInCall(q, user, again), budget);
            n.plane == q && (budget >= |again| ==> n.call == SignedIn([]))
  {
    var email := p.users[user];
    var q := Serve(p, SignInCall(p, user, order), 2 * |order|).plane;
    SignInReachesOutcome(p, user, order, 2 * |order|);
    var todo := Snapshots(q, again);
    forall i | 0 <= i < |todo| ensures Settled(q, todo[i].id, user) && todo[i].invite == q.invites[todo[i].id] {
      assert again[i] in again;
      SameToProcess(p, q, user, email, again[i]);
    }
    SettledSignInIdle(q, user, email, todo, budget);
  }

  /** Signing in, cut off anywhere, keeps the whole control plane intact; in particular every accepted
      invite has its membership after each single query. */
  lemma ServeKeepsIntact(p: Plane, c: Call, budget: nat)
    requires Intact(p) && CallSound(p, c)
    ensures Intact(Serve(p, c, budget).plane)
  {
    var inv := (r, d) => Intact(r) && CallSound(r, d);
    forall r, d | inv(r, d) && d.Live() ensures inv(Apply(r, Advance(r, d).write), Advance(r, d).call) {
      AdvanceSound(r, d);
      WriteKeepsIntact(r, Advance(r, d).write);
    }
    ServeInvariant(inv, p, c, budget);
  }

  // ---------- which invites, said row by row ----------

  /** A whole sign-in accepts every invite to the user's email that is in force, for whatever role, and leaves
      the user with just that role in its venture. */
  lemma SignInGrantsEveryInvite(p: Plane, user: nat, order: seq<nat>, id: nat)
    requires UniqueInvites(p) && user in p.users && SelectOrder(p, order, p.users[user])
    requires id in p.invites && p.invites[id].email == p.users[user] && p.invites[id].revokedAt == None
    ensures var q := WholeSignIn(p, user, order);
            id in q.invites && q.invites[id].acceptedAt.Some?
            && (user, p.invites[id].slug) in q.memberships
            && q.memberships[(user, p.invites[id].slug)] == p.invites[id].role
  {
    SignInReachesOutcome(p, user, order, 2 * |order|);
    var q := WholeSignIn(p, user, order);
    assert ToProcess(p, id, p.users[user]);
    assert Settled(q, id, user) && InviteTowards(p, q, id, p.users[user]);
  }

  /** Cut off anywhere or not, it leaves everybody else's invites, the revoked and the accepted ones as they are,
      and of its own changes nothing but the acceptance. */
  lemma SignInLeavesOtherInvites(p: Plane, user: nat, order: seq<nat>, cut: nat, id: nat)
    requires UniqueInvites(p) && user in p.users && SelectOrder(p, order, p.users[user])
    ensures var q := Serve(p, SignInCall(p, user, order), cut).plane;
            q.invites.Keys == p.invites.Keys
            && (id in p.invites ==>
                  q.invites[id] == p.invites[id].(acceptedAt := q.invites[id].acceptedAt)
                  && (p.invites[id].email != p.users[user] || p.invites[id].revokedAt.Some?
                      || p.invites[id].acceptedAt.Some?
                      ==> q.invites[id] == p.invites[id]))
  {
    SignInReachesOutcome(p, user, order, cut);
    if id in p.invites {
      assert InviteTowards(p, Serve(p, SignInCall(p, user, order), cut).plane, id, p.users[user]);
    }
  }

  /** It touches no membership but the user's own, each under an invite of his in force and in its role. */
  lemma SignInLeavesOtherMemberships(p: Plane, user: nat, order: seq<nat>, cut: nat, k: (nat, string))
    requires UniqueInvites(p) && user in p.users && SelectOrder(p, order, p.users[user])
    ensures var q := Serve(p, SignInCall(p, user, order), cut).plane;
            (k in p.memberships ==> k in q.memberships)
            && (k in q.memberships ==>
                  (k in p.memberships && q.memberships[k] == p.memberships[k])
                  || exists id :: id in p.invites && p.invites[id].email == p.users[user]
                                  && p.invites[id].revokedAt == None && k == (user, p.invites[id].slug)
                                  && q.memberships[k] == p.invites[id].role)
  {
    SignInReachesOutcome(p, user, order, cut);
    var q := Serve(p, SignInCall(p, user, order), cut).plane;
    if k in q.memberships && !(k in p.memberships && q.memberships[k] == p.memberships[k]) {
      assert MembershipTowards(p, q, user, p.users[user], k);
      var id :| Grants(p, id, user, p.users[user], k) && q.memberships[k] == p.invites[id].role;
      assert id in p.invites;
    }
  }

  /** The order in which the rows are listed holds exactly the invites to the user's email in force, each once. */
  lemma SelectsExactly(p: Plane, order: seq<nat>, email: string, id: nat)
    requires SelectOrder(p, order, email)
    ensures id in order <==> id in p.invites && p.invites[id].email == email && p.invites[id].revokedAt == None
  {
  }
}
