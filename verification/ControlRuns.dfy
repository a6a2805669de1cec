/** What the control plane promises in every reachable state, under any interleaving of the queries
    of concurrent calls and with calls abandoned between any two queries. */
module ControlRuns {
  import opened Text
  import opened ControlPlane
  import Slugs

  // ---------- integrity ----------

  /** Every listed venture has a provisioned namespace and a membership for its creator. */
  ghost predicate VenturesComplete(p: Plane) {
    forall s :: s in p.directory ==>
      Slugs.MatchesSlugPattern(s) && s in p.namespaces && s in p.provisioned && (p.directory[s], s) in p.memberships
  }

  ghost predicate InvitesListed(p: Plane) {
    forall id :: id in p.invites ==> p.invites[id].slug in p.directory
  }

  ghost predicate MembershipsListed(p: Plane) {
    forall k :: k in p.memberships ==> k.1 in p.directory && k.0 in p.users
  }

  predicate Backs(p: Plane, user: nat, i: Invite) {
    user in p.users && p.users[user] == i.email && (user, i.slug) in p.memberships
  }

  /** An accepted invite has a membership behind it. */
  ghost predicate AcceptedBacked(p: Plane) {
    forall id :: id in p.invites && p.invites[id].acceptedAt.Some? ==> exists u :: Backs(p, u, p.invites[id])
  }

  /** `user_email_uniq` */
  ghost predicate UniqueEmails(p: Plane) {
    forall u, v :: u in p.users && v in p.users && u != v ==> p.users[u] != p.users[v]
  }

  ghost predicate Intact(p: Plane) {
    VenturesComplete(p) && InvitesListed(p) && MembershipsListed(p)
    && AcceptedBacked(p) && UniqueEmails(p) && UniqueInvites(p) && FreshIds(p)
  }

  /** What a call in flight may rely on, whatever other calls do meanwhile. */
  ghost predicate CallSound(p: Plane, c: Call) {
    match c
    case Creating(slug, user, stage) =>
      Slugs.MatchesSlugPattern(slug) && user in p.users && stage <= 2
      && (stage >= 1 ==> slug in p.namespaces) && (stage == 2 ==> slug in p.provisioned)
    case Accepting(email, user, todo, upserted, _) =>
      user in p.users && p.users[user] == email && todo != []
      && (forall i :: 0 <= i < |todo| ==> SnapshotSound(p, email, todo[i]))
      && (upserted ==> (user, todo[0].invite.slug) in p.memberships)
    case Inviting(slug, email, _, inviter, found) =>
      slug in p.directory && inviter in p.users
      && (found.Some? && found.value in p.invites ==>
            p.invites[found.value].slug == slug && p.invites[found.value].email == email)
      && (found.Some? ==> found.value < p.nextInvite)
    case _ => true
  }

  ghost predicate SnapshotSound(p: Plane, email: string, s: Snapshot) {
    s.invite.email == email && s.invite.slug in p.directory && s.id < p.nextInvite
    && (s.id in p.invites ==> p.invites[s.id].slug == s.invite.slug && p.invites[s.id].email == email)
  }

  /** Nothing but invites ever disappears, and an invite id keeps its slug and email for good. */
  ghost predicate Grows(p: Plane, q: Plane) {
    (forall u :: u in p.users ==> u in q.users && q.users[u] == p.users[u])
    && (forall s :: s in p.directory ==> s in q.directory && q.directory[s] == p.directory[s])
    && p.memberships.Keys <= q.memberships.Keys
    && p.namespaces <= q.namespaces && p.provisioned <= q.provisioned
    && p.nextInvite <= q.nextInvite
    && (forall id :: id in q.invites && id < p.nextInvite ==>
          id in p.invites && q.invites[id].slug == p.invites[id].slug && q.invites[id].email == p.invites[id].email)
  }

  lemma CallStaysSound(p: Plane, q: Plane, c: Call)
    requires CallSound(p, c) && Grows(p, q)
    ensures CallSound(q, c)
  {
  }

  // ---------- one write ----------

  /** What every query makes sure of before it writes. */
  ghost predicate WriteSound(p: Plane, w: Write) {
    match w
    case AddUser(user, email) => user !in p.users && email !in p.users.Values
    case ListVenture(slug, user) =>
      Slugs.MatchesSlugPattern(slug) && slug !in p.directory && user in p.users
      && slug in p.namespaces && slug in p.provisioned
    case PutMembership(user, slug, _) => user in p.users && slug in p.directory
    case PutInvite(id, i) =>
      i.slug in p.directory
      && (if id in p.invites
          then SameTarget(p.invites[id], i) && (p.invites[id].acceptedAt.Some? ==> i.acceptedAt.Some?)
          else id == p.nextInvite && i.acceptedAt.None? && forall j :: !IsInviteFor(p, j, i.slug, i.email))
      && (i.acceptedAt.Some? ==> exists u :: Backs(p, u, i))
    case DropInvite(id) => id in p.invites && p.invites[id].acceptedAt.None?
    case _ => true
  }

  predicate SameTarget(i: Invite, j: Invite) {
    i.slug == j.slug && i.email == j.email
  }

  lemma WriteGrows(p: Plane, w: Write)
    requires WriteSound(p, w) && FreshIds(p)
    ensures Grows(p, Apply(p, w)) && FreshIds(Apply(p, w))
  {
  }

  lemma WriteKeepsVentures(p: Plane, w: Write)
    requires WriteSound(p, w) && VenturesComplete(p)
    ensures VenturesComplete(Apply(p, w))
  {
  }

  lemma WriteKeepsListed(p: Plane, w: Write)
    requires WriteSound(p, w) && InvitesListed(p) && MembershipsListed(p)
    ensures InvitesListed(Apply(p, w)) && MembershipsListed(Apply(p, w))
  {
  }

  lemma WriteKeepsBacked(p: Plane, w: Write)
    requires WriteSound(p, w) && AcceptedBacked(p) && FreshIds(p)
    ensures AcceptedBacked(Apply(p, w))
  {
    WriteGrows(p, w);
    var q := Apply(p, w);
    forall id | id in q.invites && q.invites[id].acceptedAt.Some?
      ensures exists u :: Backs(q, u, q.invites[id])
    {
      if w.PutInvite? && id == w.id {
        var u :| Backs(p, u, w.invite);
        assert Backs(q, u, q.invites[id]);
      } else {
        var u :| Backs(p, u, p.invites[id]);
        assert Backs(q, u, q.invites[id]);
      }
    }
  }

  lemma WriteKeepsUnique(p: Plane, w: Write)
    requires WriteSound(p, w) && UniqueEmails(p) && UniqueInvites(p)
    ensures UniqueEmails(Apply(p, w)) && UniqueInvites(Apply(p, w))
  {
    var q := Apply(p, w);
    forall i, j | i in q.invites && j in q.invites && i != j
      ensures q.invites[i].slug != q.invites[j].slug || q.invites[i].email != q.invites[j].email
    {
      if w.PutInvite? && w.id !in p.invites && (i == w.id || j == w.id) {
        assert !IsInviteFor(p, if i == w.id then j else i, w.invite.slug, w.invite.email);
      }
    }
  }

  lemma WriteKeepsIntact(p: Plane, w: Write)
    requires Intact(p) && WriteSound(p, w)
    ensures Intact(Apply(p, w)) && Grows(p, Apply(p, w))
  {
    WriteGrows(p, w);
    WriteKeepsVentures(p, w);
    WriteKeepsListed(p, w);
    WriteKeepsBacked(p, w);
    WriteKeepsUnique(p, w);
  }

  // ---------- one query ----------

  lemma CreatingSound(p: Plane, c: Call)
    requires CallSound(p, c) && c.Creating?
    ensures var n := AdvanceCreating(p, c); WriteSound(p, n.write) && CallSound(Apply(p, n.write), n.call)
  {
  }

  lemma RestSound(p: Plane, q: Plane, email: string, todo: seq<Snapshot>)
    requires todo != [] && forall i :: 0 <= i < |todo| ==> SnapshotSound(p, email, todo[i])
    requires Grows(p, q)
    ensures forall i :: 0 <= i < |todo[1..]| ==> SnapshotSound(q, email, todo[1..][i])
    ensures forall i :: 0 <= i < |todo| ==> SnapshotSound(q, email, todo[i])
  {
    forall i | 0 <= i < |todo| ensures SnapshotSound(q, email, todo[i]) {
      assert SnapshotSound(p, email, todo[i]);
    }
  }

  lemma AcceptingSound(p: Plane, c: Call)
    requires FreshIds(p) && CallSound(p, c) && c.Accepting?
    ensures var n := AdvanceAccepting(p, c); WriteSound(p, n.write) && CallSound(Apply(p, n.write), n.call)
  {
    var n := AdvanceAccepting(p, c);
    var head := c.todo[0];
    assert SnapshotSound(p, c.email, head);
    if c.upserted && head.id in p.invites {
      assert Backs(p, c.user, n.write.invite);
    }
    WriteGrows(p, n.write);
    RestSound(p, Apply(p, n.write), c.email, c.todo);
  }

  lemma InvitingSound(p: Plane, c: Call)
    requires AcceptedBacked(p) && FreshIds(p) && CallSound(p, c) && c.Inviting?
    ensures var n := AdvanceInviting(p, c); WriteSound(p, n.write) && CallSound(Apply(p, n.write), n.call)
  {
    if c.found.Some? && c.found.value in p.invites && p.invites[c.found.value].acceptedAt.Some? {
      var u :| Backs(p, u, p.invites[c.found.value]);
      assert Backs(p, u, AdvanceInviting(p, c).write.invite);
    }
  }

  lemma AdvanceSound(p: Plane, c: Call)
    requires Intact(p) && CallSound(p, c)
    ensures var n := Advance(p, c); WriteSound(p, n.write) && CallSound(Apply(p, n.write), n.call)
  {
    match c
    case Creating(_, _, _) => CreatingSound(p, c);
    case Accepting(_, _, _, _, _) => AcceptingSound(p, c);
    case Inviting(_, _, _, _, _) => InvitingSound(p, c);
    case _ =>
  }

  lemma RevokeSound(p: Plane, caller: nat, slug: string, id: nat)
    requires Intact(p)
    ensures WriteSound(p, RevokeWrite(p, caller, slug, id))
  {
    var w := RevokeWrite(p, caller, slug, id);
    if w.PutInvite? && w.invite.acceptedAt.Some? {
      var u :| Backs(p, u, p.invites[id]);
      assert Backs(p, u, w.invite);
    }
  }

  // ---------- the system ----------

  ghost predicate CallsSound(s: System) {
    forall i :: 0 <= i < |s.calls| ==> CallSound(s.plane, s.calls[i])
  }

  ghost predicate Sound(s: System) {
    Intact(s.plane) && CallsSound(s)
  }

  lemma WriteOfSound(s: System, e: Event)
    requires Sound(s)
    ensures WriteSound(s.plane, WriteOf(s, e))
  {
    match e
    case Proceed(i) => if i < |s.calls| { AdvanceSound(s.plane, s.calls[i]); }
    case Revoke(caller, slug, id) => RevokeSound(s.plane, caller, slug, id);
    case Delete(caller, slug, id) => DeleteSound(s.plane, caller, slug, id);
    case _ =>
  }

  lemma DeleteSound(p: Plane, caller: nat, slug: string, id: nat)
    ensures WriteSound(p, DeleteWrite(p, caller, slug, id))
  {
  }

  lemma StartedSound(p: Plane, e: Event)
    requires InvitesListed(p) && VenturesComplete(p) && MembershipsListed(p) && FreshIds(p)
    requires Started(p, e).Some?
    ensures CallSound(p, Started(p, e).value)
  {
    match e
    case BeginCreate(_, slug) =>
      Slugs.ValidatorsAgree(slug);
    case BeginSignIn(user, order) =>
      forall i | 0 <= i < |order| ensures SnapshotSound(p, p.users[user], Snapshots(p, order)[i]) {
        assert order[i] in order;
        assert ToProcess(p, order[i], p.users[user]);
      }
    case BeginInvite(_, _, _, _) =>
  }

  lemma CallsAfterSound(s: System, e: Event, i: nat)
    requires Sound(s) && i < |CallsAfter(s, e)| && Grows(s.plane, Step(s, e).plane)
    ensures CallSound(Step(s, e).plane, CallsAfter(s, e)[i])
  {
    var q := Step(s, e).plane;
    if e.Proceed? && e.call < |s.calls| && i == e.call {
      AdvanceSound(s.plane, s.calls[i]);
    } else if i < |s.calls| {
      CallStaysSound(s.plane, q, s.calls[i]);
    } else {
      StartedSound(s.plane, e);
      CallStaysSound(s.plane, q, CallsAfter(s, e)[i]);
    }
  }

  /** Every event, of whatever call, keeps the control plane intact and only lets it grow. */
  lemma StepKeepsSound(s: System, e: Event)
    requires Sound(s)
    ensures Sound(Step(s, e)) && Grows(s.plane, Step(s, e).plane)
  {
    WriteOfSound(s, e);
    WriteKeepsIntact(s.plane, WriteOf(s, e));
    forall i | 0 <= i < |CallsAfter(s, e)| ensures CallSound(Step(s, e).plane, CallsAfter(s, e)[i]) {
      CallsAfterSound(s, e, i);
    }
  }

  lemma {:induction false} RunKeepsSound(s: System, events: seq<Event>)
    requires Sound(s)
    ensures Sound(Run(s, events))
    decreases |events|
  {
    if events != [] {
      StepKeepsSound(s, events[0]);
      RunKeepsSound(Step(s, events[0]), events[1..]);
    }
  }

  /** In every reachable state each listed venture is complete, each invite and membership names a
      listed venture, each accepted invite is backed by a membership, and the keys are unique. */
  lemma ReachableIntact(events: seq<Event>)
    ensures Intact(Run(INITIAL, events).plane)
  {
    RunKeepsSound(INITIAL, events);
  }

  /** A call that has ended keeps its outcome, whatever happens later; only calls in flight can be abandoned. */
  lemma EndedCallsStay(s: System, e: Event, i: nat)
    requires i < |s.calls| && !(s.calls[i].Creating? || s.calls[i].Accepting? || s.calls[i].Inviting?)
    ensures i < |Step(s, e).calls| && Step(s, e).calls[i] == s.calls[i]
  {
  }

  /** Abandoning a call in flight ends it there and writes nothing. */
  lemma AbandonedWhereItIs(s: System, i: nat)
    requires i < |s.calls| && (s.calls[i].Creating? || s.calls[i].Accepting? || s.calls[i].Inviting?)
    ensures Step(s, Abandon(i)) == System(s.plane, s.calls[i := Failed(Failure.Abandoned)])
  {
  }

  // ---------- a slug that can never be registered ----------

  /** Provisioned, unlisted, and no call left that could still list it. */
  ghost predicate Stranded(s: System, slug: string) {
    slug in s.plane.provisioned && slug !in s.plane.directory
    && forall i :: 0 <= i < |s.calls| && s.calls[i].Creating? && s.calls[i].slug == slug ==> s.calls[i].stage < 2
  }

  lemma StrandedWrite(s: System, e: Event, slug: string)
    requires Stranded(s, slug)
    ensures slug in Step(s, e).plane.provisioned && slug !in Step(s, e).plane.directory
  {
    if e.Proceed? && e.call < |s.calls| {
      OnlyLastQueryLists(s.plane, s.calls[e.call], slug);
    }
  }

  lemma OnlyLastQueryLists(p: Plane, c: Call, slug: string)
    requires slug !in p.directory && (c.Creating? && c.slug == slug ==> c.stage < 2)
    ensures slug !in Apply(p, Advance(p, c).write).directory
  {
  }

  lemma StrandedCall(s: System, e: Event, slug: string, i: nat)
    requires Stranded(s, slug) && i < |CallsAfter(s, e)|
    ensures var c := CallsAfter(s, e)[i]; c.Creating? && c.slug == slug ==> c.stage < 2
  {
    if i < |s.calls| && e.Proceed? && e.call == i {
      assert s.calls[i].Creating? && s.calls[i].slug == slug ==> s.calls[i].stage < 2;
    }
  }

  lemma StrandedStep(s: System, e: Event, slug: string)
    requires Stranded(s, slug)
    ensures Stranded(Step(s, e), slug)
  {
    StrandedWrite(s, e, slug);
    forall i | 0 <= i < |CallsAfter(s, e)| && CallsAfter(s, e)[i].Creating? && CallsAfter(s, e)[i].slug == slug
      ensures CallsAfter(s, e)[i].stage < 2
    {
      StrandedCall(s, e, slug, i);
    }
  }

  /** Abandoning `create_tenant` between writing the settings and listing the venture loses the slug
      for good: whatever happens later, and however often creation is tried again, it is never listed. */
  lemma {:induction false} StrandedForever(s: System, events: seq<Event>, slug: string)
    requires Stranded(s, slug)
    ensures slug !in Run(s, events).plane.directory
    decreases |events|
  {
    if events != [] {
      StrandedStep(s, events[0], slug);
      StrandedForever(Step(s, events[0]), events[1..], slug);
    }
  }

  lemma {:induction false} RunAppend(s: System, before: seq<Event>, after: seq<Event>)
    ensures Run(s, before + after) == Run(Run(s, before), after)
    decreases |before|
  {
    if before == [] {
      assert before + after == after;
    } else {
      assert (before + after)[1..] == before[1..] + after;
      RunAppend(Step(s, before[0]), before[1..], after);
    }
  }

  lemma RunOne(s: System, e: Event)
    ensures Run(s, [e]) == Step(s, e)
  {
  }

  /** One more event at the end of a run. */
  lemma RunSnoc(s: System, events: seq<Event>, e: Event)
    ensures Run(s, events + [e]) == Step(Run(s, events), e)
  {
    RunAppend(s, events, [e]);
    RunOne(Run(s, events), e);
  }

  /** A creation of an unlisted slug that nobody provisioned, after its first query. */
  lemma CreationBegins(s: System, user: nat, slug: string)
    requires user in s.plane.users && Slugs.IsValidSlug(slug) && slug !in s.plane.directory
    ensures var n := |s.calls|;
            Run(s, [BeginCreate(user, slug), Proceed(n)])
            == System(Apply(s.plane, AddNamespace(slug)), s.calls + [Creating(slug, user, 1)])
  {
    var n := |s.calls|;
    var begun := System(s.plane, s.calls + [Creating(slug, user, 0)]);
    assert Step(s, BeginCreate(user, slug)) == begun;
    RunOne(s, BeginCreate(user, slug));
    RunSnoc(s, [BeginCreate(user, slug)], Proceed(n));
    assert begun.calls[n := Creating(slug, user, 1)] == s.calls + [Creating(slug, user, 1)];
  }

  /** The state of that creation after it wrote the settings. */
  lemma CreationProvisions(s: System, user: nat, slug: string)
    requires user in s.plane.users && Slugs.IsValidSlug(slug)
    requires slug !in s.plane.directory && slug !in s.plane.provisioned
    ensures var n := |s.calls|;
            Run(s, [BeginCreate(user, slug), Proceed(n)] + [Proceed(n)])
            == System(Apply(Apply(s.plane, AddNamespace(slug)), AddSettings(slug)), s.calls + [Creating(slug, user, 2)])
  {
    var n := |s.calls|;
    CreationBegins(s, user, slug);
    RunSnoc(s, [BeginCreate(user, slug), Proceed(n)], Proceed(n));
    assert (s.calls + [Creating(slug, user, 1)])[n := Creating(slug, user, 2)] == s.calls + [Creating(slug, user, 2)];
  }

  /** Cut off there, it strands the slug. */
  lemma CutOffStrands(s: System, user: nat, slug: string)
    requires Sound(s) && user in s.plane.users && Slugs.IsValidSlug(slug)
    requires slug !in s.plane.directory && slug !in s.plane.provisioned
    ensures var n := |s.calls|;
            Stranded(Run(s, [BeginCreate(user, slug), Proceed(n)] + [Proceed(n)] + [Abandon(n)]), slug)
  {
    var n := |s.calls|;
    var events := [BeginCreate(user, slug), Proceed(n)] + [Proceed(n)];
    CreationProvisions(s, user, slug);
    RunSnoc(s, events, Abandon(n));
    var t := Run(s, events + [Abandon(n)]);
    forall i | 0 <= i < |t.calls| && t.calls[i].Creating? && t.calls[i].slug == slug ensures t.calls[i].stage < 2 {
      assert i < n && t.calls[i] == s.calls[i];
      assert CallSound(s.plane, s.calls[i]);
    }
  }

  /** The last query of a creation lists its slug. */
  lemma LastQueryLists(s: System, i: nat, slug: string)
    requires Sound(s) && slug !in s.plane.directory
    requires i < |s.calls| && s.calls[i].Creating? && s.calls[i].slug == slug && s.calls[i].stage == 2
    ensures slug in Step(s, Proceed(i)).plane.directory
  {
    assert (s.calls[i].user, slug) !in s.plane.memberships;
  }

  lemma CreationLists(s: System, user: nat, slug: string)
    requires Sound(s) && user in s.plane.users && Slugs.IsValidSlug(slug)
    requires slug !in s.plane.directory && slug !in s.plane.provisioned
    ensures exists events :: slug in Run(s, events).plane.directory
  {
    var n := |s.calls|;
    var events := [BeginCreate(user, slug), Proceed(n)] + [Proceed(n)];
    CreationProvisions(s, user, slug);
    RunKeepsSound(s, events);
    LastQueryLists(Run(s, events), n, slug);
    RunSnoc(s, events, Proceed(n));
    assert slug in Run(s, events + [Proceed(n)]).plane.directory;
  }

  /** A listed slug needs no event, one with its last query outstanding needs that query, and an
      unprovisioned one needs a creation, by somebody who signs up for it if there is no user yet. */
  lemma ListedUnlessStranded(s: System, slug: string)
    requires Sound(s) && Slugs.IsValidSlug(slug) && !Stranded(s, slug)
    ensures exists events :: slug in Run(s, events).plane.directory
  {
    if slug in s.plane.directory {
      assert slug in Run(s, []).plane.directory;
    } else if slug in s.plane.provisioned {
      var i :| 0 <= i < |s.calls| && s.calls[i].Creating? && s.calls[i].slug == slug && s.calls[i].stage >= 2;
      assert CallSound(s.plane, s.calls[i]);
      LastQueryLists(s, i, slug);
      RunOne(s, Proceed(i));
      assert slug in Run(s, [Proceed(i)]).plane.directory;
    } else if user :| user in s.plane.users {
      CreationLists(s, user, slug);
    } else {
      var t := Step(s, SignUp(0, ""));
      StepKeepsSound(s, SignUp(0, ""));
      CreationLists(t, 0, slug);
      var events :| slug in Run(t, events).plane.directory;
      RunOne(s, SignUp(0, ""));
      RunAppend(s, [SignUp(0, "")], events);
      assert slug in Run(s, [SignUp(0, "")] + events).plane.directory;
    }
  }

  /** A valid slug is listed by some later run exactly when it is not stranded. */
  lemma ListableIffNotStranded(s: System, slug: string)
    requires Sound(s) && Slugs.IsValidSlug(slug)
    ensures (exists events :: slug in Run(s, events).plane.directory) <==> !Stranded(s, slug)
  {
    if Stranded(s, slug) {
      forall events ensures slug !in Run(s, events).plane.directory {
        StrandedForever(s, events, slug);
      }
    } else {
      ListedUnlessStranded(s, slug);
    }
  }

  lemma ThreeQueries(p: Plane, user: nat, slug: string)
    requires Intact(p) && slug !in p.directory
    ensures var n := Serve(p, Creating(slug, user, 0), 3);
            if slug in p.provisioned then slug !in n.plane.directory && n.call == Failed(AlreadyExists)
            else slug in n.plane.directory && n.call == Done
  {
    assert (user, slug) !in p.memberships;
    var p1 := Apply(p, AddNamespace(slug));
    assert Serve(p, Creating(slug, user, 0), 3) == Serve(p1, Creating(slug, user, 1), 2);
    if slug in p.provisioned {
      assert Serve(p1, Creating(slug, user, 1), 2) == Serve(p1, Failed(AlreadyExists), 1);
    } else {
      var p2 := Apply(p1, AddSettings(slug));
      assert Serve(p1, Creating(slug, user, 1), 2) == Serve(p2, Creating(slug, user, 2), 1);
      assert Serve(p2, Creating(slug, user, 2), 1) == Serve(Apply(p2, ListVenture(slug, user)), Done, 0);
    }
  }

  /** A whole, undisturbed `create_tenant` for a valid slug leaves it listed exactly when it was listed
      already or its namespace had no settings yet; it reports success only in the second case. */
  lemma CreationListsExactlyIf(p: Plane, user: nat, slug: string)
    requires Intact(p) && user in p.users && Slugs.IsValidSlug(slug)
    ensures var n := Serve(p, StartCreating(p, slug, user), 3);
            (slug in n.plane.directory <==> slug in p.directory || slug !in p.provisioned)
            && (n.call == Done <==> slug !in p.directory && slug !in p.provisioned)
  {
    if slug in p.directory {
      assert Serve(p, Failed(TenantExists), 3) == Progress(p, Failed(TenantExists));
    } else {
      ThreeQueries(p, user, slug);
    }
  }

  // ---------- the life cycle of an invite ----------

  lemma AcceptedForeverStep(s: System, e: Event, id: nat)
    requires Sound(s) && id in s.plane.invites && s.plane.invites[id].acceptedAt.Some?
    ensures id in Step(s, e).plane.invites && Step(s, e).plane.invites[id].acceptedAt.Some?
  {
    WriteOfSound(s, e);
  }

  /** Over any run an accepted invite is never deleted and never becomes unaccepted. */
  lemma {:induction false} AcceptedForever(s: System, events: seq<Event>, id: nat)
    requires Sound(s) && id in s.plane.invites && s.plane.invites[id].acceptedAt.Some?
    ensures var p := Run(s, events).plane;
            id in p.invites && p.invites[id].acceptedAt.Some?
            && p.invites[id].slug == s.plane.invites[id].slug && p.invites[id].email == s.plane.invites[id].email
    decreases |events|
  {
    if events != [] {
      AcceptedForeverStep(s, events[0], id);
      StepKeepsSound(s, events[0]);
      AcceptedForever(Step(s, events[0]), events[1..], id);
    }
  }

  /** The event is the marking query of a sign-in, aimed at invite `id`. */
  predicate MarksInvite(s: System, e: Event, id: nat) {
    e.Proceed? && e.call < |s.calls| && s.calls[e.call].Accepting? && s.calls[e.call].upserted
    && s.calls[e.call].todo != [] && s.calls[e.call].todo[0].id == id
  }

  lemma AdvanceStamps(p: Plane, c: Call, id: nat)
    requires CallSound(p, c) && FreshIds(p)
    ensures var w := Advance(p, c).write;
            if c.Accepting? && c.upserted && c.todo[0].id == id then
              (id in p.invites ==> w == PutInvite(id, p.invites[id].(acceptedAt := Some(p.now))))
              && (id !in p.invites ==> w == Nothing)
            else
              w.PutInvite? && w.id == id ==>
                w.invite.acceptedAt == if id in p.invites then p.invites[id].acceptedAt else None
  {
  }

  /** Only a marking query sets `accepted_at`, and it sets the current time. */
  lemma WriteStamps(s: System, e: Event, id: nat)
    requires Sound(s)
    ensures id in s.plane.invites && MarksInvite(s, e, id) ==>
        WriteOf(s, e) == PutInvite(id, s.plane.invites[id].(acceptedAt := Some(s.plane.now)))
    ensures WriteOf(s, e).PutInvite? && WriteOf(s, e).id == id && !MarksInvite(s, e, id) ==>
              WriteOf(s, e).invite.acceptedAt == if id in s.plane.invites then s.plane.invites[id].acceptedAt else None
  {
    if e.Proceed? {
      if e.call < |s.calls| {
        AdvanceStamps(s.plane, s.calls[e.call], id);
      }
    } else {
      OtherEventsStampNothing(s, e, id);
    }
  }

  lemma OtherEventsStampNothing(s: System, e: Event, id: nat)
    requires !e.Proceed?
    ensures WriteOf(s, e).PutInvite? && WriteOf(s, e).id == id ==>
              id in s.plane.invites && WriteOf(s, e).invite.acceptedAt == s.plane.invites[id].acceptedAt
  {
  }

  lemma StampAfter(s: System, e: Event, id: nat)
    requires Sound(s) && id in Step(s, e).plane.invites
    ensures Step(s, e).plane.invites[id].acceptedAt
         == if MarksInvite(s, e, id) && id in s.plane.invites then Some(s.plane.now)
            else if id in s.plane.invites then s.plane.invites[id].acceptedAt
            else None
  {
    WriteStamps(s, e, id);
    InvitesAfterWrite(s.plane, WriteOf(s, e), id);
  }

  lemma InvitesAfterWrite(p: Plane, w: Write, id: nat)
    ensures id in Apply(p, w).invites ==>
              Apply(p, w).invites[id]
              == if w.PutInvite? && w.id == id then w.invite
                 else if id in p.invites then p.invites[id]
                 else Apply(p, w).invites[id]
    ensures id in Apply(p, w).invites && id !in p.invites ==> w.PutInvite? && w.id == id
  {
  }

  /** The one step that changes the stamp of an accepted invite: the second query of a sign-in that
      took its snapshot before the invite was accepted. */
  lemma StampChangesExactlyByMark(s: System, e: Event, id: nat)
    requires Sound(s) && id in s.plane.invites && s.plane.invites[id].acceptedAt.Some?
    ensures id in Step(s, e).plane.invites
    ensures Step(s, e).plane.invites[id].acceptedAt != s.plane.invites[id].acceptedAt
            <==> MarksInvite(s, e, id) && s.plane.invites[id].acceptedAt != Some(s.plane.now)
  {
    AcceptedForeverStep(s, e, id);
    StampAfter(s, e, id);
  }

  /** A sign-in of `user` begins, the SELECT having listed the rows as `order`, a pending one first. */
  ghost predicate BeginsPending(s: System, user: nat, order: seq<nat>) {
    user in s.plane.users && SelectOrder(s.plane, order, s.plane.users[user])
    && order != [] && order[0] in s.plane.invites && s.plane.invites[order[0]].acceptedAt.None?
  }

  /** What a sign-in does first: it takes its snapshots, then upserts the membership of the first one. */
  lemma PendingSignIn(s: System, user: nat, order: seq<nat>)
    requires BeginsPending(s, user, order)
    ensures var email, todo := s.plane.users[user], Snapshots(s.plane, order);
            Step(s, BeginSignIn(user, order)) == System(s.plane, s.calls + [Accepting(email, user, todo, false, [])])
  {
  }

  /** A sign-in about to upsert the membership of an invite it saw pending, or about to mark one. */
  ghost predicate AtInvite(s: System, n: nat, id: nat, upserted: bool) {
    n < |s.calls| && s.calls[n].Accepting? && s.calls[n].upserted == upserted
    && s.calls[n].todo != [] && s.calls[n].todo[0].id == id && s.calls[n].todo[0].invite.acceptedAt.None?
  }

  lemma UpsertStep(s: System, n: nat, id: nat)
    requires AtInvite(s, n, id, false)
    ensures var t := Step(s, Proceed(n));
            AtInvite(t, n, id, true) && t.plane.invites == s.plane.invites && t.plane.now == s.plane.now
            && |t.calls| == |s.calls| && forall m :: 0 <= m < |s.calls| && m != n ==> t.calls[m] == s.calls[m]
  {
  }

  lemma MarkStep(s: System, n: nat, id: nat)
    requires AtInvite(s, n, id, true) && id in s.plane.invites
    ensures var t := Step(s, Proceed(n));
            id in t.plane.invites && t.plane.invites[id].acceptedAt == Some(s.plane.now) && t.plane.now == s.plane.now
            && |t.calls| == |s.calls| && forall m :: 0 <= m < |s.calls| && m != n ==> t.calls[m] == s.calls[m]
  {
  }

  /** The events of two sign-ins that both get as far as the membership of their first invite. */
  function BothUpsert(n: nat, user: nat, order: seq<nat>, other: seq<nat>): seq<Event> {
    [BeginSignIn(user, order)] + [BeginSignIn(user, other)] + [Proceed(n)] + [Proceed(n + 1)]
  }

  lemma BothBegun(s: System, user: nat, order: seq<nat>, other: seq<nat>)
    requires BeginsPending(s, user, order) && BeginsPending(s, user, other) && other[0] == order[0]
    ensures var n := |s.calls|;
            var t := Run(s, [BeginSignIn(user, order)] + [BeginSignIn(user, other)]);
            AtInvite(t, n, order[0], false) && AtInvite(t, n + 1, order[0], false) && t.plane == s.plane
  {
    PendingSignIn(s, user, order);
    RunOne(s, BeginSignIn(user, order));
    PendingSignIn(Run(s, [BeginSignIn(user, order)]), user, other);
    RunSnoc(s, [BeginSignIn(user, order)], BeginSignIn(user, other));
  }

  lemma TwoUpserts(s: System, n: nat, id: nat)
    requires AtInvite(s, n, id, false) && AtInvite(s, n + 1, id, false)
    ensures var t := Step(Step(s, Proceed(n)), Proceed(n + 1));
            AtInvite(t, n, id, true) && AtInvite(t, n + 1, id, true)
            && t.plane.invites == s.plane.invites && t.plane.now == s.plane.now
  {
    UpsertStep(s, n, id);
    UpsertStep(Step(s, Proceed(n)), n + 1, id);
  }

  lemma BothUpserted(s: System, user: nat, order: seq<nat>, other: seq<nat>)
    requires BeginsPending(s, user, order) && BeginsPending(s, user, other) && other[0] == order[0]
    ensures var n := |s.calls|;
            var t := Run(s, BothUpsert(n, user, order, other));
            AtInvite(t, n, order[0], true) && AtInvite(t, n + 1, order[0], true)
            && t.plane.invites == s.plane.invites && t.plane.now == s.plane.now
  {
    var n := |s.calls|;
    var begun := [BeginSignIn(user, order)] + [BeginSignIn(user, other)];
    BothBegun(s, user, order, other);
    RunSnoc(s, begun, Proceed(n));
    RunSnoc(s, begun + [Proceed(n)], Proceed(n + 1));
    TwoUpserts(Run(s, begun), n, order[0]);
  }

  /** Such steps occur: from any state with an invite pending, two overlapping sign-ins of its addressee
      that list it first both stamp it, and the later stamp wins. */
  lemma OverlappingSignInsRestamp(s: System, user: nat, order: seq<nat>, other: seq<nat>, seconds: nat)
    requires BeginsPending(s, user, order) && BeginsPending(s, user, other) && other[0] == order[0]
    ensures var n, id := |s.calls|, order[0];
            var marked := BothUpsert(n, user, order, other) + [Proceed(n)];
            var stamped := Run(s, marked).plane;
            var restamped := Run(s, marked + [Tick(seconds)] + [Proceed(n + 1)]).plane;
            id in stamped.invites && stamped.invites[id].acceptedAt == Some(s.plane.now)
            && id in restamped.invites && restamped.invites[id].acceptedAt == Some(s.plane.now + seconds)
  {
    var n, id := |s.calls|, order[0];
    var events := BothUpsert(n, user, order, other);
    BothUpserted(s, user, order, other);
    RunSnoc(s, events, Proceed(n));
    RunSnoc(s, events + [Proceed(n)], Tick(seconds));
    RunSnoc(s, events + [Proceed(n)] + [Tick(seconds)], Proceed(n + 1));
    BothMark(Run(s, events), n, id, seconds);
  }

  lemma BothMark(s: System, n: nat, id: nat, seconds: nat)
    requires AtInvite(s, n, id, true) && AtInvite(s, n + 1, id, true) && id in s.plane.invites
    ensures var stamped := Step(s, Proceed(n));
            var restamped := Step(Step(stamped, Tick(seconds)), Proceed(n + 1));
            id in stamped.plane.invites && stamped.plane.invites[id].acceptedAt == Some(s.plane.now)
            && id in restamped.plane.invites && restamped.plane.invites[id].acceptedAt == Some(s.plane.now + seconds)
  {
    MarkStep(s, n, id);
    var stamped := Step(s, Proceed(n));
    var ticked := Step(stamped, Tick(seconds));
    assert ticked.calls == stamped.calls && ticked.plane.invites == stamped.plane.invites;
    MarkStep(ticked, n + 1, id);
  }

  /** How the displayed status of a surviving invite can move: it becomes revoked only by a revocation,
      leaves that state only by a new invitation (back to accepted at once, without a sign-in, if it had
      been accepted before), and goes from pending to accepted only by a marking query. */
  lemma StatusMoves(s: System, e: Event, id: nat)
    requires Sound(s) && id in s.plane.invites && id in Step(s, e).plane.invites
    ensures var i, j := s.plane.invites[id], Step(s, e).plane.invites[id];
            match (InviteStatus(i), InviteStatus(j))
            case (Pending, Accepted) => MarksInvite(s, e, id)
            case (Accepted, Pending) => false
            case (Revoked, Pending) => i.acceptedAt.None? && Reinvites(s, e, id)
            case (Revoked, Accepted) => i.acceptedAt.Some? && Reinvites(s, e, id)
            case (Pending, Revoked) => RevokedByOwner(s.plane, e, id)
            case (Accepted, Revoked) => RevokedByOwner(s.plane, e, id)
            case _ => true
  {
    StampAfter(s, e, id);
    RevocationAfter(s, e, id);
  }

  /** The event is a revocation of invite `id` by an owner of its venture. */
  predicate RevokedByOwner(p: Plane, e: Event, id: nat)
    requires id in p.invites
  {
    e.Revoke? && e.id == id && (e.caller, p.invites[id].slug) in p.memberships
    && p.memberships[(e.caller, p.invites[id].slug)] == Owner
  }

  /** The event is the second query of an invitation that found the row `id` revoked. */
  predicate Reinvites(s: System, e: Event, id: nat) {
    e.Proceed? && e.call < |s.calls| && s.calls[e.call].Inviting? && s.calls[e.call].found == Some(id)
  }

  /** Only a revocation sets `revoked_at` and only a new invitation clears it; neither stamps acceptance. */
  lemma RevocationAfter(s: System, e: Event, id: nat)
    requires Sound(s) && id in s.plane.invites && id in Step(s, e).plane.invites
    ensures var before, after := s.plane.invites[id].revokedAt, Step(s, e).plane.invites[id].revokedAt;
            if Reinvites(s, e, id) then after == None
            else after == before || (RevokedByOwner(s.plane, e, id) && before.None? && after == Some(s.plane.now))
  {
    InvitesAfterWrite(s.plane, WriteOf(s, e), id);
    if e.Proceed? && e.call < |s.calls| {
      AdvanceRevocation(s.plane, s.calls[e.call], id);
    }
  }

  lemma AdvanceRevocation(p: Plane, c: Call, id: nat)
    requires CallSound(p, c) && FreshIds(p) && id in p.invites
    ensures var w := Advance(p, c).write;
            if c.Inviting? && c.found == Some(id) then w.PutInvite? && w.id == id && w.invite.revokedAt.None?
            else w.PutInvite? && w.id == id ==> w.invite.revokedAt == p.invites[id].revokedAt
  {
  }

  ghost predicate OnePerEmail(calls: seq<Call>) {
    forall i, j :: 0 <= i < j < |calls| && calls[i].Accepting? && calls[j].Accepting? ==>
      calls[i].email != calls[j].email
  }

  /** A sign-in lists each invite once and stands before a mark only for one it saw unaccepted. */
  ghost predicate Orderly(c: Call)
    requires c.Accepting?
  {
    (forall k, l :: 0 <= k < l < |c.todo| ==> c.todo[k].id != c.todo[l].id)
    && (c.upserted ==> c.todo != [] && c.todo[0].invite.acceptedAt.None?)
  }

  /** No two sign-ins of one user are in flight together, and what a sign-in in flight remembers
      as unaccepted still is. */
  ghost predicate SignInsApart(s: System) {
    OnePerEmail(s.calls)
    && (forall i :: 0 <= i < |s.calls| && s.calls[i].Accepting? ==> Orderly(s.calls[i]))
    && (forall i, k :: 0 <= i < |s.calls| && s.calls[i].Accepting? && 0 <= k < |s.calls[i].todo| ==>
          StillUnaccepted(s.plane, s.calls[i].todo[k]))
  }

  predicate StillUnaccepted(p: Plane, t: Snapshot) {
    t.invite.acceptedAt.None? && t.id in p.invites ==> p.invites[t.id].acceptedAt.None?
  }

  /** A sign-in begins only when none of the same user is in flight. */
  ghost predicate BeginsApart(s: System, e: Event) {
    e.BeginSignIn? && e.user in s.plane.users ==>
      forall i :: 0 <= i < |s.calls| && s.calls[i].Accepting? ==> s.calls[i].email != s.plane.users[e.user]
  }

  ghost predicate RunBeginsApart(s: System, events: seq<Event>)
    decreases |events|
  {
    events != [] ==> BeginsApart(s, events[0]) && RunBeginsApart(Step(s, events[0]), events[1..])
  }

  lemma OnlyMarksAccept(s: System, e: Event, id: nat)
    requires Sound(s) && id in Step(s, e).plane.invites && Step(s, e).plane.invites[id].acceptedAt.Some?
    requires id in s.plane.invites ==> s.plane.invites[id].acceptedAt.None?
    ensures MarksInvite(s, e, id) && id in s.plane.invites && s.calls[e.call].email == s.plane.invites[id].email
  {
    StampAfter(s, e, id);
    if MarksInvite(s, e, id) {
      assert CallSound(s.plane, s.calls[e.call]);
      assert SnapshotSound(s.plane, s.calls[e.call].email, s.calls[e.call].todo[0]);
    }
  }

  /** What is left of a sign-in after one of its queries. */
  lemma AcceptingAdvanced(p: Plane, c: Call)
    requires c.Accepting? && c.todo != [] && Advance(p, c).call.Accepting?
    ensures var d := Advance(p, c).call;
            d.email == c.email
            && (if c.upserted || c.todo[0].invite.acceptedAt.Some? then d.todo == c.todo[1..] && !d.upserted
                else d.todo == c.todo && d.upserted)
  {
  }

  /** A sign-in after a step: the same, what is left of it, or a fresh one. */
  lemma AcceptingAfter(s: System, e: Event, i: nat)
    requires Sound(s) && i < |CallsAfter(s, e)| && CallsAfter(s, e)[i].Accepting?
    ensures var c := CallsAfter(s, e)[i];
            if i < |s.calls| then
              s.calls[i].Accepting? && s.calls[i].email == c.email
              && (if e.Proceed? && e.call == i then
                    if s.calls[i].upserted || s.calls[i].todo[0].invite.acceptedAt.Some?
                    then c.todo == s.calls[i].todo[1..] && !c.upserted
                    else c.todo == s.calls[i].todo && c.upserted
                  else c == s.calls[i])
            else
              e.BeginSignIn? && e.user in s.plane.users && SelectOrder(s.plane, e.order, s.plane.users[e.user])
              && i == |s.calls| && c == Accepting(s.plane.users[e.user], e.user, Snapshots(s.plane, e.order), false, [])
  {
    if i < |s.calls| && e.Proceed? && e.call == i {
      assert CallSound(s.plane, s.calls[i]);
      AdvanceKeepsKind(s.plane, s.calls[i]);
      AcceptingAdvanced(s.plane, s.calls[i]);
    }
  }

  lemma AdvanceKeepsKind(p: Plane, c: Call)
    requires CallSound(p, c) && Advance(p, c).call.Accepting?
    ensures c.Accepting? && c.todo != []
  {
  }

  lemma OneSignInEach(s: System, e: Event)
    requires Sound(s) && SignInsApart(s) && BeginsApart(s, e)
    ensures OnePerEmail(CallsAfter(s, e))
  {
    var after := CallsAfter(s, e);
    forall i, j | 0 <= i < j < |after| && after[i].Accepting? && after[j].Accepting?
      ensures after[i].email != after[j].email
    {
      AcceptingAfter(s, e, i);
      AcceptingAfter(s, e, j);
    }
  }

  lemma SignInStaysOrderly(s: System, e: Event, i: nat)
    requires Sound(s) && SignInsApart(s) && BeginsApart(s, e)
    requires i < |CallsAfter(s, e)| && CallsAfter(s, e)[i].Accepting?
    ensures Orderly(CallsAfter(s, e)[i])
  {
    AcceptingAfter(s, e, i);
    if i < |s.calls| {
      assert Orderly(s.calls[i]);
    }
  }

  lemma StillUnacceptedAfter(s: System, e: Event, i: nat, k: nat)
    requires Sound(s) && SignInsApart(s) && BeginsApart(s, e)
    requires i < |CallsAfter(s, e)| && CallsAfter(s, e)[i].Accepting? && k < |CallsAfter(s, e)[i].todo|
    ensures StillUnaccepted(Step(s, e).plane, CallsAfter(s, e)[i].todo[k])
  {
    AcceptingAfter(s, e, i);
    var c := CallsAfter(s, e)[i];
    var snap := c.todo[k];
    var q := Step(s, e).plane;
    if i < |s.calls| {
      var before := s.calls[i];
      assert Orderly(before);
      var j := if c.todo == before.todo then k else k + 1;
      assert before.todo[j] == snap;
      assert StillUnaccepted(s.plane, before.todo[j]);
      if snap.invite.acceptedAt.None? && snap.id in q.invites && q.invites[snap.id].acceptedAt.Some? {
        SnapshotMarkedByOwnCall(s, e, i, j);
      }
    } else {
      assert WriteOf(s, e) == Nothing;
    }
  }

  /** The only query that can accept an invite a sign-in still has to process is that sign-in's own mark. */
  lemma SnapshotMarkedByOwnCall(s: System, e: Event, i: nat, j: nat)
    requires Sound(s) && SignInsApart(s)
    requires i < |s.calls| && s.calls[i].Accepting? && j < |s.calls[i].todo|
    requires var snap := s.calls[i].todo[j];
             snap.invite.acceptedAt.None? && snap.id in Step(s, e).plane.invites
             && Step(s, e).plane.invites[snap.id].acceptedAt.Some?
    ensures e == Proceed(i) && s.calls[i].upserted && j == 0
  {
    var snap := s.calls[i].todo[j];
    assert CallSound(s.plane, s.calls[i]);
    assert SnapshotSound(s.plane, s.calls[i].email, snap);
    assert StillUnaccepted(s.plane, snap);
    OnlyMarksAccept(s, e, snap.id);
    assert s.calls[e.call].email == s.calls[i].email;
    assert Orderly(s.calls[i]);
  }

  lemma StepKeepsApart(s: System, e: Event)
    requires Sound(s) && SignInsApart(s) && BeginsApart(s, e)
    ensures SignInsApart(Step(s, e))
  {
    var after := CallsAfter(s, e);
    OneSignInEach(s, e);
    forall i | 0 <= i < |after| && after[i].Accepting? ensures Orderly(after[i]) {
      SignInStaysOrderly(s, e, i);
    }
    forall i, k | 0 <= i < |after| && after[i].Accepting? && 0 <= k < |after[i].todo|
      ensures StillUnaccepted(Step(s, e).plane, after[i].todo[k])
    {
      StillUnacceptedAfter(s, e, i, k);
    }
  }

  lemma StampKeptStep(s: System, e: Event, id: nat)
    requires Sound(s) && SignInsApart(s)
    requires id in s.plane.invites && s.plane.invites[id].acceptedAt.Some?
    ensures id in Step(s, e).plane.invites && Step(s, e).plane.invites[id].acceptedAt == s.plane.invites[id].acceptedAt
  {
    StampChangesExactlyByMark(s, e, id);
    if e.Proceed? && e.call < |s.calls| && s.calls[e.call].Accepting? && s.calls[e.call].todo != [] {
      assert Orderly(s.calls[e.call]);
      assert StillUnaccepted(s.plane, s.calls[e.call].todo[0]);
    }
  }

  /** While no two sign-ins of one user overlap, `accepted_at` once set never changes. */
  lemma {:induction false} StampKeptWhileApart(s: System, events: seq<Event>, id: nat)
    requires Sound(s) && SignInsApart(s) && RunBeginsApart(s, events)
    requires id in s.plane.invites && s.plane.invites[id].acceptedAt.Some?
    ensures id in Run(s, events).plane.invites
            && Run(s, events).plane.invites[id].acceptedAt == s.plane.invites[id].acceptedAt
    decreases |events|
  {
    if events != [] {
      StampKeptStep(s, events[0], id);
      StepKeepsSound(s, events[0]);
      StepKeepsApart(s, events[0]);
      StampKeptWhileApart(Step(s, events[0]), events[1..], id);
    }
  }

  /** The administrator's operations issued for one venture leave every other venture's invites alone. */
  ghost predicate IssuedFor(s: System, e: Event, slug: string) {
    match e
    case BeginInvite(_, other, _, _) => other == slug
    case Proceed(i) => i < |s.calls| && s.calls[i].Inviting? && s.calls[i].slug == slug
    case Revoke(_, other, _) => other == slug
    case Delete(_, other, _) => other == slug
    case _ => false
  }

  ghost function InvitesOf(p: Plane, slug: string): map<nat, Invite> {
    map id | id in p.invites && p.invites[id].slug == slug :: p.invites[id]
  }

  lemma OtherVenturesUntouched(s: System, e: Event, slug: string, other: string)
    requires Sound(s) && IssuedFor(s, e, slug) && other != slug
    ensures InvitesOf(Step(s, e).plane, other) == InvitesOf(s.plane, other)
  {
    IssuedWrite(s, e, slug);
    WriteLeavesOthers(s.plane, WriteOf(s, e), slug, other);
  }

  /** What such an event writes is an invite of its own venture, or nothing. */
  predicate WritesOnly(p: Plane, w: Write, slug: string) {
    match w
    case Nothing => true
    case PutInvite(id, i) => i.slug == slug && (id in p.invites ==> p.invites[id].slug == slug)
    case DropInvite(id) => id in p.invites ==> p.invites[id].slug == slug
    case _ => false
  }

  lemma IssuedWrite(s: System, e: Event, slug: string)
    requires Sound(s) && IssuedFor(s, e, slug)
    ensures WritesOnly(s.plane, WriteOf(s, e), slug)
  {
    if e.Proceed? {
      assert CallSound(s.plane, s.calls[e.call]);
    }
  }

  lemma WriteLeavesOthers(p: Plane, w: Write, slug: string, other: string)
    requires WritesOnly(p, w, slug) && other != slug
    ensures InvitesOf(Apply(p, w), other) == InvitesOf(p, other)
  {
  }

  lemma ReinviteFinds(q: Plane, caller: nat, id: nat, role: Role)
    requires UniqueInvites(q) && id in q.invites && q.invites[id].revokedAt.Some?
    requires Slugs.IsValidSlug(q.invites[id].slug) && MayAdminister(q, caller, q.invites[id].slug)
    ensures StartInviting(q, caller, q.invites[id].slug, q.invites[id].email, role)
         == Inviting(q.invites[id].slug, q.invites[id].email, role, caller, Some(id))
  {
    var i := q.invites[id];
    assert IsInviteFor(q, id, i.slug, i.email);
    forall j | IsInviteFor(q, j, i.slug, i.email) ensures j == id {
      assert j in q.invites;
    }
  }

  /** Revoking and inviting again reactivates the same row: its id and its acceptance survive. */
  lemma ReinviteKeepsTheRow(p: Plane, caller: nat, id: nat, role: Role)
    requires Intact(p) && id in p.invites && p.invites[id].revokedAt.None?
    requires MayAdminister(p, caller, p.invites[id].slug)
    ensures var i := p.invites[id];
            var q := Apply(p, RevokeWrite(p, caller, i.slug, id));
            id in q.invites && InviteStatus(q.invites[id]) == Revoked
            && Serve(q, StartInviting(q, caller, i.slug, i.email, role), 1)
               == Progress(p.(invites := p.invites[id := i.(role := role, invitedBy := caller)]), Done)
  {
    var i := p.invites[id];
    var q := Apply(p, RevokeWrite(p, caller, i.slug, id));
    RevokedPlane(p, caller, id);
    Slugs.ValidatorsAgree(i.slug);
    ReinviteFinds(q, caller, id, role);
    ServeReactivation(q, Inviting(i.slug, i.email, role, caller, Some(id)), id, 1);
    assert q.invites[id := i.(role := role, invitedBy := caller)]
      == p.invites[id := i.(role := role, invitedBy := caller)];
  }

  lemma RevokedPlane(p: Plane, caller: nat, id: nat)
    requires Intact(p) && id in p.invites && p.invites[id].revokedAt.None?
    requires MayAdminister(p, caller, p.invites[id].slug)
    ensures var q := Apply(p, RevokeWrite(p, caller, p.invites[id].slug, id));
            UniqueInvites(q) && q == p.(invites := p.invites[id := p.invites[id].(revokedAt := Some(p.now))])
  {
    RevokeSound(p, caller, p.invites[id].slug, id);
    WriteKeepsUnique(p, RevokeWrite(p, caller, p.invites[id].slug, id));
  }
}
