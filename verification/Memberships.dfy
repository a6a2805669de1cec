/** Where memberships come from: a venture's creation or an invite its owner issued, and how long an
    invite once listed by a sign-in can still turn into one. */
module Memberships {
  import opened Text
  import opened ControlPlane
  import opened ControlRuns
  import Ownership

  // ---------- every membership was granted ----------

  /** What an invite offers whom. */
  datatype Grant = Grant(slug: string, email: string, role: Role)

  function Offer(i: Invite): Grant {
    Grant(i.slug, i.email, i.role)
  }

  /** What an owner, at that moment, offers with this event. */
  ghost function IssuedBy(s: System, e: Event): set<Grant> {
    if e.BeginInvite? && (e.caller, e.slug) in s.plane.memberships && s.plane.memberships[(e.caller, e.slug)] == Owner
    then {Grant(e.slug, e.email, e.role)} else {}
  }

  ghost function Issued(s: System, events: seq<Event>): set<Grant>
    decreases |events|
  {
    if events == [] then {} else IssuedBy(s, events[0]) + Issued(Step(s, events[0]), events[1..])
  }

  /** The membership is its venture's creator's, as owner, or one of the offers in just that role. */
  ghost predicate MembershipTraced(p: Plane, known: set<Grant>, k: (nat, string))
    requires k in p.memberships
  {
    k.0 in p.users
    && ((k.1 in p.directory && p.directory[k.1] == k.0 && p.memberships[k] == Owner)
        || Grant(k.1, p.users[k.0], p.memberships[k]) in known)
  }

  ghost predicate CallTraced(c: Call, known: set<Grant>) {
    match c
    case Accepting(_, _, todo, _, _) => forall j :: 0 <= j < |todo| ==> Offer(todo[j].invite) in known
    case Inviting(slug, email, role, _, _) => Grant(slug, email, role) in known
    case _ => true
  }

  ghost predicate PlaneTraced(p: Plane, known: set<Grant>) {
    (forall k :: k in p.memberships ==> MembershipTraced(p, known, k))
    && forall id :: id in p.invites ==> Offer(p.invites[id]) in known
  }

  ghost predicate Traced(s: System, known: set<Grant>) {
    PlaneTraced(s.plane, known) && forall i :: 0 <= i < |s.calls| ==> CallTraced(s.calls[i], known)
  }

  ghost predicate WriteTraced(p: Plane, w: Write, known: set<Grant>) {
    match w
    case PutMembership(user, slug, role) => user in p.users && Grant(slug, p.users[user], role) in known
    case PutInvite(_, i) => Offer(i) in known
    case _ => true
  }

  lemma AdvanceTraced(p: Plane, c: Call, known: set<Grant>)
    requires Intact(p) && CallSound(p, c) && PlaneTraced(p, known) && CallTraced(c, known)
    ensures WriteTraced(p, Advance(p, c).write, known) && CallTraced(Advance(p, c).call, known)
  {
    if c.Accepting? {
      assert SnapshotSound(p, c.email, c.todo[0]);
    }
  }

  lemma WriteOfTraced(s: System, e: Event, known: set<Grant>)
    requires Sound(s) && Traced(s, known)
    ensures WriteTraced(s.plane, WriteOf(s, e), known)
  {
    if e.Proceed? && e.call < |s.calls| {
      AdvanceTraced(s.plane, s.calls[e.call], known);
    }
  }

  lemma WriteKeepsTraced(p: Plane, w: Write, known: set<Grant>)
    requires WriteSound(p, w) && PlaneTraced(p, known) && WriteTraced(p, w, known)
    ensures PlaneTraced(Apply(p, w), known)
  {
    var q := Apply(p, w);
    forall k | k in q.memberships ensures MembershipTraced(q, known, k) {
      WriteKeepsMembershipTraced(p, w, known, k);
    }
    forall id | id in q.invites ensures Offer(q.invites[id]) in known {
      InvitesAfterWrite(p, w, id);
    }
  }

  lemma WriteKeepsMembershipTraced(p: Plane, w: Write, known: set<Grant>, k: (nat, string))
    requires WriteSound(p, w) && WriteTraced(p, w, known)
    requires k in p.memberships ==> MembershipTraced(p, known, k)
    requires k in Apply(p, w).memberships
    ensures MembershipTraced(Apply(p, w), known, k)
  {
  }

  lemma StartedTraced(s: System, e: Event, known: set<Grant>)
    requires PlaneTraced(s.plane, known) && Started(s.plane, e).Some?
    ensures CallTraced(Started(s.plane, e).value, known + IssuedBy(s, e))
  {
    if e.BeginSignIn? {
      forall j | 0 <= j < |e.order| ensures Offer(Snapshots(s.plane, e.order)[j].invite) in known {
        assert e.order[j] in e.order;
      }
    }
  }

  lemma CallsTraced(s: System, e: Event, known: set<Grant>, i: nat)
    requires Sound(s) && Traced(s, known) && i < |CallsAfter(s, e)|
    ensures CallTraced(CallsAfter(s, e)[i], known + IssuedBy(s, e))
  {
    if e.Proceed? && i == e.call {
      AdvanceTraced(s.plane, s.calls[i], known);
    } else if i < |s.calls| {
      assert CallTraced(s.calls[i], known);
    } else {
      StartedTraced(s, e, known);
    }
  }

  lemma MoreKnown(p: Plane, known: set<Grant>, more: set<Grant>)
    requires PlaneTraced(p, known)
    ensures PlaneTraced(p, known + more)
  {
    forall k | k in p.memberships ensures MembershipTraced(p, known + more, k) {
      assert MembershipTraced(p, known, k);
    }
  }

  lemma StepTraced(s: System, e: Event, known: set<Grant>)
    requires Sound(s) && Traced(s, known)
    ensures Traced(Step(s, e), known + IssuedBy(s, e))
  {
    WriteOfSound(s, e);
    WriteOfTraced(s, e, known);
    WriteKeepsTraced(s.plane, WriteOf(s, e), known);
    MoreKnown(Step(s, e).plane, known, IssuedBy(s, e));
    forall i | 0 <= i < |CallsAfter(s, e)| ensures CallTraced(CallsAfter(s, e)[i], known + IssuedBy(s, e)) {
      CallsTraced(s, e, known, i);
    }
  }

  lemma {:induction false} RunTraced(s: System, events: seq<Event>, known: set<Grant>)
    requires Sound(s) && Traced(s, known)
    ensures Traced(Run(s, events), known + Issued(s, events))
    decreases |events|
  {
    if events == [] {
      assert known + {} == known;
    } else {
      var more := IssuedBy(s, events[0]);
      StepTraced(s, events[0], known);
      StepKeepsSound(s, events[0]);
      RunTraced(Step(s, events[0]), events[1..], known + more);
      assert known + more + Issued(Step(s, events[0]), events[1..]) == known + Issued(s, events);
    }
  }

  /** Over any run, with calls interleaved and cut off at will, every membership is its venture's creator's, as
      owner, or in the role of an invite that an owner of the venture issued to the member's email. */
  lemma EveryMembershipGranted(events: seq<Event>, user: nat, slug: string)
    requires (user, slug) in Run(INITIAL, events).plane.memberships
    ensures var p := Run(INITIAL, events).plane;
            user in p.users && slug in p.directory
            && ((p.directory[slug] == user && p.memberships[(user, slug)] == Owner)
                || Grant(slug, p.users[user], p.memberships[(user, slug)]) in Issued(INITIAL, events))
  {
    RunTraced(INITIAL, events, {});
    ReachableIntact(events);
    var p := Run(INITIAL, events).plane;
    assert {} + Issued(INITIAL, events) == Issued(INITIAL, events);
    assert MembershipTraced(p, Issued(INITIAL, events), (user, slug));
    assert (user, slug).1 in p.directory;
  }

  // ---------- an invite withdrawn under a sign-in ----------

  /** The sign-in still has to process a snapshot that grants `user` the venture `slug`. */
  predicate Remembers(c: Call, user: nat, slug: string, j: int) {
    c.Accepting? && c.user == user && 0 <= j < |c.todo| && c.todo[j].invite.slug == slug
  }

  /** The sign-in will get past its snapshot `k`: the row to mark is still there, or none is to be marked. */
  predicate Passes(p: Plane, c: Call, k: int)
    requires c.Accepting? && 0 <= k < |c.todo|
  {
    c.todo[k].id in p.invites || (c.todo[k].invite.acceptedAt.Some? && !(k == 0 && c.upserted))
  }

  predicate Reaches(p: Plane, c: Call, j: int)
    requires c.Accepting? && 0 <= j < |c.todo|
  {
    forall k :: 0 <= k < j ==> Passes(p, c, k)
  }

  /** Some sign-in in flight holds such a snapshot and can still get to it. */
  ghost predicate StillGranted(s: System, user: nat, slug: string) {
    exists i, j :: 0 <= i < |s.calls| && Remembers(s.calls[i], user, slug, j) && Reaches(s.plane, s.calls[i], j)
  }

  /** No invite of `slug` for `email` is in force and none is on its way: each one was revoked or deleted. */
  ghost predicate Withdrawn(s: System, slug: string, email: string) {
    (forall id :: IsInviteFor(s.plane, id, slug, email) ==> s.plane.invites[id].revokedAt.Some?)
    && forall i :: 0 <= i < |s.calls| && s.calls[i].Inviting? ==> s.calls[i].slug != slug || s.calls[i].email != email
  }

  predicate Reissues(e: Event, slug: string, email: string) {
    e.BeginInvite? && e.slug == slug && e.email == email
  }

  predicate NeverReissued(events: seq<Event>, slug: string, email: string) {
    forall i :: 0 <= i < |events| ==> !Reissues(events[i], slug, email)
  }

  /** A listed venture, a user without a membership of it, and no invite that could still give him one. */
  ghost predicate Outside(s: System, user: nat, slug: string) {
    slug in s.plane.directory && user in s.plane.users && (user, slug) !in s.plane.memberships
    && Withdrawn(s, slug, s.plane.users[user])
  }

  // what a step leaves as it is

  lemma StaysWithdrawn(s: System, e: Event, slug: string, email: string)
    requires Sound(s) && Withdrawn(s, slug, email) && !Reissues(e, slug, email)
    ensures Withdrawn(Step(s, e), slug, email)
  {
    var t := Step(s, e);
    forall id | IsInviteFor(t.plane, id, slug, email) ensures t.plane.invites[id].revokedAt.Some? {
      RowStaysWithdrawn(s, e, slug, email, id);
    }
    forall i | 0 <= i < |t.calls| && t.calls[i].Inviting?
      ensures t.calls[i].slug != slug || t.calls[i].email != email
    {
      if i < |s.calls| {
        InvitingStays(s, e, i);
      }
    }
  }

  lemma InvitingStays(s: System, e: Event, i: nat)
    requires i < |s.calls| && Step(s, e).calls[i].Inviting?
    ensures s.calls[i] == Step(s, e).calls[i]
  {
    if e.Proceed? && e.call == i {
      NeverInvitingAgain(s.plane, s.calls[i]);
    }
  }

  lemma NeverInvitingAgain(p: Plane, c: Call)
    ensures !Advance(p, c).call.Inviting?
  {
  }

  lemma RowStaysWithdrawn(s: System, e: Event, slug: string, email: string, id: nat)
    requires Sound(s) && Withdrawn(s, slug, email) && IsInviteFor(Step(s, e).plane, id, slug, email)
    ensures Step(s, e).plane.invites[id].revokedAt.Some?
  {
    StepKeepsSound(s, e);
    InvitesAfterWrite(s.plane, WriteOf(s, e), id);
    if id in s.plane.invites {
      RevocationAfter(s, e, id);
      assert IsInviteFor(s.plane, id, slug, email);
      if Reinvites(s, e, id) {
        assert CallSound(s.plane, s.calls[e.call]);
      }
    } else {
      OnlyInvitationsAdd(s, e, id);
    }
  }

  /** A new row is the work of an invitation in flight, for the venture and email it names. */
  lemma OnlyInvitationsAdd(s: System, e: Event, id: nat)
    requires id !in s.plane.invites && WriteOf(s, e).PutInvite? && WriteOf(s, e).id == id
    ensures e.Proceed? && e.call < |s.calls| && s.calls[e.call].Inviting?
            && WriteOf(s, e).invite.slug == s.calls[e.call].slug && WriteOf(s, e).invite.email == s.calls[e.call].email
  {
  }

  /** A snapshot that blocks its sign-in goes on blocking it. */
  lemma StaysBlocked(s: System, e: Event, i: nat, j: nat, user: nat, slug: string)
    requires Sound(s) && i < |s.calls| && Remembers(Step(s, e).calls[i], user, slug, j)
    requires !StillGranted(s, user, slug)
    ensures !Reaches(Step(s, e).plane, Step(s, e).calls[i], j)
  {
    var t := Step(s, e);
    var c, d := s.calls[i], t.calls[i];
    StepKeepsSound(s, e);
    AcceptingAfter(s, e, i);
    SameUser(s, e, i);
    assert CallSound(s.plane, c);
    var j' := if d.todo == c.todo then j else j + 1;
    assert c.todo[j'] == d.todo[j];
    assert Remembers(c, user, slug, j');
    var k :| 0 <= k < j' && !Passes(s.plane, c, k);
    assert SnapshotSound(s.plane, c.email, c.todo[k]);
    assert c.todo[k].id !in t.plane.invites;
    if d.todo == c.todo {
      assert !Passes(t.plane, d, k);
    } else {
      PassedHead(s, i);
      assert d.todo[k - 1] == c.todo[k];
      assert !Passes(t.plane, d, k - 1);
    }
  }

  lemma SameUser(s: System, e: Event, i: nat)
    requires i < |s.calls| && Step(s, e).calls[i].Accepting?
    ensures s.calls[i].Accepting? && s.calls[i].user == Step(s, e).calls[i].user
  {
    if e.Proceed? && e.call == i {
      UserKept(s.plane, s.calls[i]);
    }
  }

  lemma UserKept(p: Plane, c: Call)
    requires Advance(p, c).call.Accepting?
    ensures c.Accepting? && c.user == Advance(p, c).call.user
  {
  }

  lemma PassedHead(s: System, i: nat)
    requires i < |s.calls| && s.calls[i].Accepting? && s.calls[i].todo != []
    requires Step(s, Proceed(i)).calls[i].Accepting? && Step(s, Proceed(i)).calls[i].todo != s.calls[i].todo
    ensures Passes(s.plane, s.calls[i], 0)
  {
  }

  lemma StaysOutside(s: System, e: Event, user: nat, slug: string)
    requires Sound(s) && Outside(s, user, slug) && !StillGranted(s, user, slug)
    requires !Reissues(e, slug, s.plane.users[user])
    ensures Outside(Step(s, e), user, slug) && Step(s, e).plane.users[user] == s.plane.users[user]
  {
    StepKeepsSound(s, e);
    StaysWithdrawn(s, e, slug, s.plane.users[user]);
    WriteOfSound(s, e);
    Ownership.MembershipWrites(s, e);
    var w := WriteOf(s, e);
    if w.PutMembership? && w.user == user && w.slug == slug {
      assert Remembers(s.calls[e.call], user, slug, 0) && Reaches(s.plane, s.calls[e.call], 0);
      assert false;
    }
  }

  lemma StaysUngranted(s: System, e: Event, user: nat, slug: string)
    requires Sound(s) && Outside(s, user, slug) && !StillGranted(s, user, slug)
    ensures !StillGranted(Step(s, e), user, slug)
  {
    var t := Step(s, e);
    forall i, j | 0 <= i < |t.calls| && Remembers(t.calls[i], user, slug, j)
      ensures !Reaches(t.plane, t.calls[i], j)
    {
      if i < |s.calls| {
        StaysBlocked(s, e, i, j, user, slug);
      } else {
        NewSignInSeesNone(s, e, user, slug, i, j);
      }
    }
  }

  lemma NewSignInSeesNone(s: System, e: Event, user: nat, slug: string, i: nat, j: nat)
    requires Sound(s) && user in s.plane.users && Withdrawn(s, slug, s.plane.users[user])
    requires |s.calls| <= i < |CallsAfter(s, e)|
    ensures !Remembers(CallsAfter(s, e)[i], user, slug, j)
  {
    if Remembers(CallsAfter(s, e)[i], user, slug, j) {
      AcceptingAfter(s, e, i);
      assert e.order[j] in e.order;
      assert ToProcess(s.plane, e.order[j], s.plane.users[user]);
      assert IsInviteFor(s.plane, e.order[j], slug, s.plane.users[user]);
      assert false;
    }
  }

  lemma RestNeverReissued(events: seq<Event>, slug: string, email: string)
    requires events != [] && NeverReissued(events, slug, email)
    ensures !Reissues(events[0], slug, email) && NeverReissued(events[1..], slug, email)
  {
    forall i | 0 <= i < |events| - 1 ensures !Reissues(events[1..][i], slug, email) {
      assert events[1..][i] == events[i + 1];
    }
  }

  lemma {:induction false} NeverLetIn(s: System, events: seq<Event>, user: nat, slug: string)
    requires Sound(s) && Outside(s, user, slug) && !StillGranted(s, user, slug)
    requires NeverReissued(events, slug, s.plane.users[user])
    ensures (user, slug) !in Run(s, events).plane.memberships
    decreases |events|
  {
    if events != [] {
      assert !Reissues(events[0], slug, s.plane.users[user]);
      StaysOutside(s, events[0], user, slug);
      StaysUngranted(s, events[0], user, slug);
      StepKeepsSound(s, events[0]);
      RestNeverReissued(events, slug, s.plane.users[user]);
      NeverLetIn(Step(s, events[0]), events[1..], user, slug);
    }
  }

  // the sign-in that gets there

  /** One query of a sign-in that passes its head: it is upserted, or done with. */
  lemma HeadQuery(p: Plane, c: Call)
    requires c.Accepting? && |c.todo| > 1 && Passes(p, c, 0)
    ensures Apply(p, Advance(p, c).write).invites.Keys == p.invites.Keys
    ensures var d := Advance(p, c).call;
            if !c.upserted && c.todo[0].invite.acceptedAt.None? then d == c.(upserted := true)
            else d == Accepting(c.email, c.user, c.todo[1..], false, d.accepted)
  {
  }

  lemma ReachesOn(p: Plane, q: Plane, c: Call, j: nat)
    requires c.Accepting? && 0 < j < |c.todo| && Reaches(p, c, j) && p.invites.Keys == q.invites.Keys
    ensures c.todo[0].invite.acceptedAt.None? ==> Reaches(q, c.(upserted := true), j)
    ensures forall accepted :: Reaches(q, Accepting(c.email, c.user, c.todo[1..], false, accepted), j - 1)
  {
    var up := c.(upserted := true);
    if c.todo[0].invite.acceptedAt.None? {
      forall k | 0 <= k < j ensures Passes(q, up, k) {
        assert Passes(p, c, k);
      }
    }
    forall accepted ensures Reaches(q, Accepting(c.email, c.user, c.todo[1..], false, accepted), j - 1) {
      forall k | 0 <= k < j - 1 ensures Passes(q, Accepting(c.email, c.user, c.todo[1..], false, accepted), k) {
        assert Passes(p, c, k + 1);
      }
    }
  }

  /** One query on the way to snapshot `j`. */
  lemma StepTowards(s: System, i: nat, user: nat, slug: string, j: nat) returns (next: nat)
    requires i < |s.calls| && Remembers(s.calls[i], user, slug, j) && Reaches(s.plane, s.calls[i], j)
    requires j > 0
    ensures var t := Step(s, Proceed(i));
            |t.calls| == |s.calls| && Remembers(t.calls[i], user, slug, next) && Reaches(t.plane, t.calls[i], next)
            && (next < j || (next == j && !s.calls[i].upserted && t.calls[i].upserted))
  {
    var c := s.calls[i];
    assert Passes(s.plane, c, 0);
    HeadQuery(s.plane, c);
    ReachesOn(s.plane, Step(s, Proceed(i)).plane, c, j);
    next := if !c.upserted && c.todo[0].invite.acceptedAt.None? then j else j - 1;
  }

  lemma FirstQuery(s: System, i: nat, rest: nat)
    ensures Run(s, Ownership.Queries(i, rest + 1)) == Run(Step(s, Proceed(i)), Ownership.Queries(i, rest))
  {
    assert Ownership.Queries(i, rest + 1)[1..] == Ownership.Queries(i, rest);
  }

  lemma HeadGranted(s: System, i: nat, user: nat, slug: string)
    requires i < |s.calls| && Remembers(s.calls[i], user, slug, 0) && CallSound(s.plane, s.calls[i])
    ensures s.calls[i].upserted ==> (user, slug) in s.plane.memberships
    ensures !s.calls[i].upserted ==> (user, slug) in Step(s, Proceed(i)).plane.memberships
  {
  }

  lemma {:induction false} GetsThere(s: System, i: nat, user: nat, slug: string, j: nat) returns (count: nat)
    requires Sound(s) && i < |s.calls| && Remembers(s.calls[i], user, slug, j) && Reaches(s.plane, s.calls[i], j)
    ensures (user, slug) in Run(s, Ownership.Queries(i, count)).plane.memberships
    decreases j, if s.calls[i].upserted then 0 else 1
  {
    assert CallSound(s.plane, s.calls[i]);
    if j == 0 {
      HeadGranted(s, i, user, slug);
      count := if s.calls[i].upserted then 0 else 1;
      FirstQuery(s, i, 0);
    } else {
      var next := StepTowards(s, i, user, slug, j);
      StepKeepsSound(s, Proceed(i));
      var rest := GetsThere(Step(s, Proceed(i)), i, user, slug, next);
      count := rest + 1;
      FirstQuery(s, i, rest);
    }
  }

  /** A withdrawn invite that is not issued again can still become a membership exactly if a sign-in in flight
      listed it before and is not held up by a deleted invite it has to mark first. */
  lemma WithdrawnInviteStillGrantsIff(s: System, user: nat, slug: string)
    requires Sound(s) && Outside(s, user, slug)
    ensures (exists events :: NeverReissued(events, slug, s.plane.users[user])
                              && (user, slug) in Run(s, events).plane.memberships)
            <==> StillGranted(s, user, slug)
  {
    if StillGranted(s, user, slug) {
      var i, j :| 0 <= i < |s.calls| && Remembers(s.calls[i], user, slug, j) && Reaches(s.plane, s.calls[i], j);
      var count := GetsThere(s, i, user, slug, j);
      assert NeverReissued(Ownership.Queries(i, count), slug, s.plane.users[user]);
    } else {
      forall events | NeverReissued(events, slug, s.plane.users[user])
        ensures (user, slug) !in Run(s, events).plane.memberships
      {
        NeverLetIn(s, events, user, slug);
      }
    }
  }
}
