/** The control plane: users, invites, memberships, the tenant directory and the namespaces.
    A call is a sequence of atomic queries; it may be abandoned between any two of them, and
    the queries of different calls may interleave. */
module ControlPlane {
  import opened Text
  import Slugs

  datatype Role = Owner | Treasurer | Member

  datatype Invite = Invite(
    slug: string, email: string, role: Role, invitedBy: nat,
    acceptedAt: Option<int>, revokedAt: Option<int>)

  /** The stored tables. `memberships` is keyed by the pair its UNIQUE index covers, `directory`
      by slug (the value is `created_by`); `provisioned` holds the namespaces with `settings:current`. */
  datatype Plane = Plane(
    users: map<nat, string>, invites: map<nat, Invite>, memberships: map<(nat, string), Role>,
    directory: map<string, nat>, namespaces: set<string>, provisioned: set<string>,
    nextInvite: nat, now: int)

  datatype Status = Pending | Accepted | Revoked

  /** `invite_status` */
  function InviteStatus(i: Invite): Status {
    if i.revokedAt.Some? then Revoked
    else if i.acceptedAt.Some? then Accepted
    else Pending
  }

  // ---------- calls in flight ----------

  /** A row as the SELECT at the start of a sign-in returned it. */
  datatype Snapshot = Snapshot(id: nat, invite: Invite)

  datatype Failure = BadSlug | TenantExists | AlreadyExists | Forbidden | InviteExists | NotFound | Abandoned

  datatype Call =
    | Creating(slug: string, user: nat, stage: nat)
    | Accepting(email: string, user: nat, todo: seq<Snapshot>, upserted: bool, accepted: seq<string>)
    | Inviting(slug: string, email: string, role: Role, inviter: nat, found: Option<nat>)
    | Done
    | SignedIn(accepted: seq<string>)
    | Failed(failure: Failure)
  {
    predicate Live() {
      Creating? || Accepting? || Inviting?
    }
  }

  // ---------- what one query writes ----------

  datatype Write =
    | Nothing
    | AddUser(user: nat, email: string)
    | AddNamespace(slug: string)
    | AddSettings(slug: string)
    | ListVenture(slug: string, user: nat)
    | PutMembership(user: nat, slug: string, role: Role)
    | PutInvite(id: nat, invite: Invite)
    | DropInvite(id: nat)
    | SetClock(now: int)

  function Apply(p: Plane, w: Write): Plane {
    match w
    case Nothing => p
    case AddUser(user, email) => p.(users := p.users[user := email])
    case AddNamespace(slug) => p.(namespaces := p.namespaces + {slug})
    case AddSettings(slug) => p.(provisioned := p.provisioned + {slug})
    case ListVenture(slug, user) =>
      p.(directory := p.directory[slug := user], memberships := p.memberships[(user, slug) := Owner])
    case PutMembership(user, slug, role) => p.(memberships := p.memberships[(user, slug) := role])
    case PutInvite(id, invite) =>
      p.(invites := p.invites[id := invite],
         nextInvite := if id in p.invites || id < p.nextInvite then p.nextInvite else id + 1)
    case DropInvite(id) => p.(invites := p.invites - {id})
    case SetClock(now) => p.(now := now)
  }

  /** The outcome of one query: what it writes and what is left of the call. */
  datatype Effect = Effect(write: Write, call: Call)

  datatype Progress = Progress(plane: Plane, call: Call)

  // ---------- how calls start ----------

  /** `create_tenant`, step 1: the slug must be valid and not in the directory. */
  function StartCreating(p: Plane, slug: string, user: nat): Call {
    if !Slugs.IsValidSlug(slug) then Failed(BadSlug)
    else if slug in p.directory then Failed(TenantExists)
    else Creating(slug, user, 0)
  }

  /** The rows `WHERE email = $email AND revoked_at IS NONE`. */
  predicate ToProcess(p: Plane, id: nat, email: string) {
    id in p.invites && p.invites[id].email == email && p.invites[id].revokedAt.None?
  }

  /** `order` is one of the orders in which that SELECT may list them. */
  ghost predicate SelectOrder(p: Plane, order: seq<nat>, email: string) {
    (forall id :: id in order <==> ToProcess(p, id, email))
    && (forall i, j :: 0 <= i < j < |order| ==> order[i] != order[j])
  }

  function Snapshots(p: Plane, order: seq<nat>): (r: seq<Snapshot>)
    requires forall id :: id in order ==> id in p.invites
    ensures |r| == |order| && forall i :: 0 <= i < |r| ==> r[i] == Snapshot(order[i], p.invites[order[i]])
  {
    seq(|order|, i requires 0 <= i < |order| => Snapshot(order[i], p.invites[order[i]]))
  }

  /** A sign-in with the rows `todo` still to process. */
  function SigningIn(email: string, user: nat, todo: seq<Snapshot>, accepted: seq<string>): Call {
    if todo == [] then SignedIn(accepted) else Accepting(email, user, todo, false, accepted)
  }

  predicate IsOwner(p: Plane, user: nat, slug: string) {
    (user, slug) in p.memberships && p.memberships[(user, slug)] == Owner
  }

  /** `require_owner`: an owner's membership and a user row. */
  predicate MayAdminister(p: Plane, user: nat, slug: string) {
    IsOwner(p, user, slug) && user in p.users
  }

  predicate IsInviteFor(p: Plane, id: nat, slug: string, email: string) {
    id in p.invites && p.invites[id].slug == slug && p.invites[id].email == email
  }

  /** `invite_tenant_email_uniq` */
  ghost predicate UniqueInvites(p: Plane) {
    forall i, j :: i in p.invites && j in p.invites && i != j ==>
      p.invites[i].slug != p.invites[j].slug || p.invites[i].email != p.invites[j].email
  }

  /** Record ids are never reused. */
  ghost predicate FreshIds(p: Plane) {
    forall id :: id in p.invites ==> id < p.nextInvite
  }

  /** `create_invite`, step 1: the guard, then the look for a row with this slug and email. */
  ghost function StartInviting(p: Plane, caller: nat, slug: string, email: string, role: Role): Call {
    if !Slugs.IsValidSlug(slug) then Failed(BadSlug)
    else if !MayAdminister(p, caller, slug) then Failed(Forbidden)
    else if id :| IsInviteFor(p, id, slug, email) then
      if p.invites[id].revokedAt.None? then Failed(InviteExists)
      else Inviting(slug, email, role, caller, Some(id))
    else Inviting(slug, email, role, caller, None)
  }

  // ---------- one query of a call ----------

  function AdvanceCreating(p: Plane, c: Call): Effect
    requires c.Creating?
  {
    if c.stage == 0 then
      Effect(AddNamespace(c.slug), c.(stage := 1))
    else if c.stage == 1 then
      if c.slug in p.provisioned then Effect(Nothing, Failed(AlreadyExists))
      else Effect(AddSettings(c.slug), c.(stage := 2))
    else if c.slug in p.directory || (c.user, c.slug) in p.memberships then
      Effect(Nothing, Failed(AlreadyExists))
    else
      Effect(ListVenture(c.slug, c.user), Done)
  }

  /** First the membership upsert; then, unless the snapshot was accepted already, the mark. */
  function AdvanceAccepting(p: Plane, c: Call): Effect
    requires c.Accepting? && c.todo != []
  {
    var head, rest := c.todo[0], c.todo[1..];
    if !c.upserted then
      Effect(PutMembership(c.user, head.invite.slug, head.invite.role),
             if head.invite.acceptedAt.Some? then SigningIn(c.email, c.user, rest, c.accepted)
             else c.(upserted := true))
    else if head.id in p.invites then
      Effect(PutInvite(head.id, p.invites[head.id].(acceptedAt := Some(p.now))),
             SigningIn(c.email, c.user, rest, c.accepted + [head.invite.slug]))
    else Effect(Nothing, Failed(NotFound))
  }

  ghost function AdvanceInviting(p: Plane, c: Call): Effect
    requires c.Inviting?
  {
    match c.found
    case Some(id) =>
      if id in p.invites then
        Effect(PutInvite(id, p.invites[id].(revokedAt := None, role := c.role, invitedBy := c.inviter)), Done)
      else Effect(Nothing, Failed(NotFound))
    case None =>
      if exists id :: IsInviteFor(p, id, c.slug, c.email) then
        Effect(Nothing, Failed(AlreadyExists))
      else
        Effect(PutInvite(p.nextInvite, Invite(c.slug, c.email, c.role, c.inviter, None, None)), Done)
  }

  ghost function Advance(p: Plane, c: Call): Effect {
    match c
    case Creating(_, _, _) => AdvanceCreating(p, c)
    case Accepting(_, _, todo, _, _) => if todo == [] then Effect(Nothing, c) else AdvanceAccepting(p, c)
    case Inviting(_, _, _, _, _) => AdvanceInviting(p, c)
    case _ => Effect(Nothing, c)
  }

  /** At most `budget` queries of one call, with nothing in between. */
  ghost function Serve(p: Plane, c: Call, budget: nat): Progress
    decreases budget
  {
    if budget == 0 || !c.Live() then Progress(p, c)
    else
      var n := Advance(p, c);
      Serve(Apply(p, n.write), n.call, budget - 1)
  }

  lemma ServeEnded(p: Plane, c: Call, budget: nat)
    requires budget == 0 || !c.Live()
    ensures Serve(p, c, budget) == Progress(p, c)
  {
  }

  lemma ServeUpsert(p: Plane, email: string, user: nat, todo: seq<Snapshot>, accepted: seq<string>, budget: nat)
    requires todo != [] && budget > 0
    ensures Serve(p, SigningIn(email, user, todo, accepted), budget)
         == Serve(Apply(p, PutMembership(user, todo[0].invite.slug, todo[0].invite.role)),
                  if todo[0].invite.acceptedAt.Some? then SigningIn(email, user, todo[1..], accepted)
                  else Accepting(email, user, todo, true, accepted),
                  budget - 1)
  {
  }

  lemma ServeMark(p: Plane, email: string, user: nat, todo: seq<Snapshot>, accepted: seq<string>, budget: nat)
    requires todo != [] && budget > 0
    ensures Serve(p, Accepting(email, user, todo, true, accepted), budget)
         == var id := todo[0].id;
            if id in p.invites then
              Serve(Apply(p, PutInvite(id, p.invites[id].(acceptedAt := Some(p.now)))),
                    SigningIn(email, user, todo[1..], accepted + [todo[0].invite.slug]), budget - 1)
            else Progress(p, Failed(NotFound))
  {
    if todo[0].id !in p.invites {
      assert Serve(p, Failed(NotFound), budget - 1) == Progress(p, Failed(NotFound));
    }
  }

  /** With unique keys the guard of an invitation finds the one row there is. */
  lemma StartInvitingFinds(p: Plane, caller: nat, slug: string, email: string, role: Role, found: Option<nat>)
    requires UniqueInvites(p) && Slugs.IsValidSlug(slug) && MayAdminister(p, caller, slug)
    requires if found.Some? then IsInviteFor(p, found.value, slug, email)
             else forall id :: !IsInviteFor(p, id, slug, email)
    ensures StartInviting(p, caller, slug, email, role)
         == if found.Some? && p.invites[found.value].revokedAt.None? then Failed(InviteExists)
            else Inviting(slug, email, role, caller, found)
  {
    if found.Some? {
      assert forall id :: IsInviteFor(p, id, slug, email) ==> id == found.value;
    }
  }

  lemma ServeReactivation(p: Plane, c: Call, id: nat, budget: nat)
    requires c.Inviting? && c.found == Some(id) && id in p.invites && budget > 0
    ensures Serve(p, c, budget)
         == var i := p.invites[id].(revokedAt := None, role := c.role, invitedBy := c.inviter);
            Progress(p.(invites := p.invites[id := i]), Done)
  {
    var n := AdvanceInviting(p, c);
    assert Advance(p, c) == n;
    ServeEnded(Apply(p, n.write), Done, budget - 1);
  }

  lemma ServeCreation(p: Plane, c: Call, budget: nat)
    requires c.Inviting? && c.found == None && FreshIds(p) && budget > 0
    requires forall id :: !IsInviteFor(p, id, c.slug, c.email)
    ensures Serve(p, c, budget)
         == Progress(p.(invites := p.invites[p.nextInvite := Invite(c.slug, c.email, c.role, c.inviter, None, None)],
                        nextInvite := p.nextInvite + 1), Done)
  {
    var n := AdvanceInviting(p, c);
    assert Advance(p, c) == n;
    ServeEnded(Apply(p, n.write), Done, budget - 1);
  }

  // ---------- single-query operations ----------

  /** `revoke_invite`, behind the owner guard. */
  function RevokeWrite(p: Plane, caller: nat, slug: string, id: nat): Write {
    if MayAdminister(p, caller, slug) && id in p.invites && p.invites[id].slug == slug && p.invites[id].revokedAt.None?
    then PutInvite(id, p.invites[id].(revokedAt := Some(p.now)))
    else Nothing
  }

  /** `delete_invite`, behind the owner guard. */
  function DeleteWrite(p: Plane, caller: nat, slug: string, id: nat): Write {
    if MayAdminister(p, caller, slug) && id in p.invites && p.invites[id].slug == slug && p.invites[id].acceptedAt.None?
    then DropInvite(id)
    else Nothing
  }

  /** `upsert_user` and `create_password_user`: a new row only for an unknown email. */
  function SignUpWrite(p: Plane, user: nat, email: string): Write {
    if user in p.users || email in p.users.Values then Nothing else AddUser(user, email)
  }

  // ---------- the system: a plane and its calls ----------

  datatype System = System(plane: Plane, calls: seq<Call>)

  datatype Event =
    | SignUp(user: nat, email: string)
    | BeginCreate(user: nat, slug: string)
    | BeginSignIn(user: nat, order: seq<nat>)
    | BeginInvite(caller: nat, slug: string, email: string, role: Role)
    | Proceed(call: nat)
    | Abandon(call: nat)
    | Revoke(caller: nat, slug: string, id: nat)
    | Delete(caller: nat, slug: string, id: nat)
    | Tick(seconds: nat)

  ghost function WriteOf(s: System, e: Event): Write {
    match e
    case SignUp(user, email) => SignUpWrite(s.plane, user, email)
    case Proceed(i) => if i < |s.calls| then Advance(s.plane, s.calls[i]).write else Nothing
    case Revoke(caller, slug, id) => RevokeWrite(s.plane, caller, slug, id)
    case Delete(caller, slug, id) => DeleteWrite(s.plane, caller, slug, id)
    case Tick(seconds) => SetClock(s.plane.now + seconds)
    case _ => Nothing
  }

  /** The call a request starts, if it gets past the session check. */
  ghost function Started(p: Plane, e: Event): Option<Call> {
    match e
    case BeginCreate(user, slug) => if user in p.users then Some(StartCreating(p, slug, user)) else None
    case BeginSignIn(user, order) =>
      if user in p.users && SelectOrder(p, order, p.users[user])
      then Some(SigningIn(p.users[user], user, Snapshots(p, order), []))
      else None
    case BeginInvite(caller, slug, email, role) => Some(StartInviting(p, caller, slug, email, role))
    case _ => None
  }

  ghost function CallsAfter(s: System, e: Event): seq<Call> {
    match e
    case Proceed(i) => if i < |s.calls| then s.calls[i := Advance(s.plane, s.calls[i]).call] else s.calls
    case Abandon(i) => if i < |s.calls| && s.calls[i].Live() then s.calls[i := Failed(Abandoned)] else s.calls
    case _ =>
      match Started(s.plane, e)
      case Some(c) => s.calls + [c]
      case None => s.calls
  }

  ghost function Step(s: System, e: Event): System {
    System(Apply(s.plane, WriteOf(s, e)), CallsAfter(s, e))
  }

  ghost function Run(s: System, events: seq<Event>): System
    decreases |events|
  {
    if events == [] then s else Run(Step(s, events[0]), events[1..])
  }

  const EMPTY_PLANE := Plane(map[], map[], map[], map[], {}, {}, 0, 0)

  const INITIAL := System(EMPTY_PLANE, [])

  // ---------- the imperative ledger client ----------

  /** The client with its tables; every method takes the number of queries that succeed before
      the connection is lost, and leaves the tables as those queries left them. */
  class Ledger {
    var users: map<nat, string>
    var invites: map<nat, Invite>
    var memberships: map<(nat, string), Role>
    var directory: map<string, nat>
    var namespaces: set<string>
    var provisioned: set<string>
    var nextInvite: nat
    var now: int

    ghost function Tables(): Plane
      reads this
    {
      Plane(users, invites, memberships, directory, namespaces, provisioned, nextInvite, now)
    }

    /** `connect` works on the tables it finds. */
    constructor (found: Plane)
      ensures Tables() == found
    {
      users, invites, memberships, directory := found.users, found.invites, found.memberships, found.directory;
      namespaces, provisioned, nextInvite, now := found.namespaces, found.provisioned, found.nextInvite, found.now;
    }

    method CreateTenant(slug: string, user: nat, budget: nat) returns (r: Call)
      modifies this
      ensures Progress(Tables(), r) == old(Serve(Tables(), StartCreating(Tables(), slug, user), budget))
    {
      if !Slugs.IsValidSlug(slug) {
        return Failed(BadSlug);
      }
      if slug in directory {
        return Failed(TenantExists);
      }
      if budget == 0 {
        return Creating(slug, user, 0);
      }
      ghost var goal := Serve(Tables(), Creating(slug, user, 0), budget);
      namespaces := namespaces + {slug};
      assert Serve(Tables(), Creating(slug, user, 1), budget - 1) == goal;
      if budget == 1 {
        return Creating(slug, user, 1);
      }
      if slug in provisioned {
        assert Serve(Tables(), Failed(AlreadyExists), budget - 2) == goal;
        return Failed(AlreadyExists);
      }
      provisioned := provisioned + {slug};
      assert Serve(Tables(), Creating(slug, user, 2), budget - 2) == goal;
      if budget == 2 {
        return Creating(slug, user, 2);
      }
      if slug in directory || (user, slug) in memberships {
        assert Serve(Tables(), Failed(AlreadyExists), budget - 3) == goal;
        return Failed(AlreadyExists);
      }
      directory := directory[slug := user];
      memberships := memberships[(user, slug) := Owner];
      assert Serve(Tables(), Done, budget - 3) == goal;
      return Done;
    }

    /** The body of the loop: both queries for the first invite of `todo`, or as many as succeed. */
    method AcceptOne(email: string, user: nat, todo: seq<Snapshot>, accepted: seq<string>, left: nat)
      returns (next: Call, spare: nat)
      requires todo != [] && left > 0
      modifies this
      ensures Serve(Tables(), next, spare) == old(Serve(Tables(), SigningIn(email, user, todo, accepted), left))
      ensures spare == 0 || !next.Live()
              || (next.Accepting? && !next.upserted && next.todo == todo[1..] != []
                  && next.email == email && next.user == user)
    {
      var inv := todo[0].invite;
      ServeUpsert(Tables(), email, user, todo, accepted, left);
      memberships := memberships[(user, inv.slug) := inv.role];
      spare := left - 1;
      if inv.acceptedAt.Some? {
        return SigningIn(email, user, todo[1..], accepted), spare;
      }
      if spare == 0 {
        return Accepting(email, user, todo, true, accepted), 0;
      }
      ServeMark(Tables(), email, user, todo, accepted, spare);
      var id := todo[0].id;
      if id !in invites {
        ServeEnded(Tables(), Failed(NotFound), 0);
        return Failed(NotFound), 0;
      }
      invites := invites[id := invites[id].(acceptedAt := Some(now))];
      spare := spare - 1;
      next := SigningIn(email, user, todo[1..], accepted + [inv.slug]);
    }

    method AcceptPendingInvites(email: string, user: nat, order: seq<nat>, budget: nat) returns (r: Call)
      requires SelectOrder(Tables(), order, email)
      modifies this
      ensures Progress(Tables(), r)
           == old(Serve(Tables(), SigningIn(email, user, Snapshots(Tables(), order), []), budget))
    {
      var tables := Plane(users, invites, memberships, directory, namespaces, provisioned, nextInvite, now);
      var pending := Snapshots(tables, order);
      ghost var goal := Serve(Tables(), SigningIn(email, user, pending, []), budget);
      r := SigningIn(email, user, pending, []);
      var left := budget;
      while r.Live() && left > 0
        invariant left == 0 || !r.Live()
                  || (r.Accepting? && !r.upserted && r.todo != [] && r.email == email && r.user == user)
        invariant Serve(Tables(), r, left) == goal
        decreases if left > 0 && r.Accepting? then |r.todo| + 1 else 0
      {
        r, left := AcceptOne(email, user, r.todo, r.accepted, left);
      }
      ServeEnded(Tables(), r, left);
    }

    /** `SELECT * FROM ONLY invite WHERE tenant_slug = $slug AND email = $email LIMIT 1` */
    method FindInvite(slug: string, email: string) returns (found: Option<nat>)
      ensures found.Some? ==> IsInviteFor(Tables(), found.value, slug, email)
      ensures found.None? ==> forall id :: !IsInviteFor(Tables(), id, slug, email)
    {
      var todo := invites.Keys;
      while todo != {}
        invariant todo <= invites.Keys
        invariant forall id :: id in invites && id !in todo ==> !IsInviteFor(Tables(), id, slug, email)
        decreases |todo|
      {
        var id :| id in todo;
        if invites[id].slug == slug && invites[id].email == email {
          return Some(id);
        }
        todo := todo - {id};
      }
      return None;
    }

    method CreateInvite(caller: nat, slug: string, email: string, role: Role, budget: nat) returns (r: Call)
      requires UniqueInvites(Tables()) && FreshIds(Tables())
      modifies this
      ensures Progress(Tables(), r) == old(Serve(Tables(), StartInviting(Tables(), caller, slug, email, role), budget))
    {
      if !Slugs.IsValidSlug(slug) {
        return Failed(BadSlug);
      }
      if (caller, slug) !in memberships || memberships[(caller, slug)] != Owner || caller !in users {
        return Failed(Forbidden);
      }
      ghost var was := Tables();
      var found := FindInvite(slug, email);
      assert Tables() == was;
      StartInvitingFinds(was, caller, slug, email, role, found);
      if found.Some? {
        if invites[found.value].revokedAt.None? {
          return Failed(InviteExists);
        }
        if budget == 0 {
          return Inviting(slug, email, role, caller, found);
        }
        ServeReactivation(was, Inviting(slug, email, role, caller, found), found.value, budget);
        invites := invites[found.value := invites[found.value].(revokedAt := None, role := role, invitedBy := caller)];
        return Done;
      }
      if budget == 0 {
        return Inviting(slug, email, role, caller, None);
      }
      ServeCreation(was, Inviting(slug, email, role, caller, None), budget);
      invites := invites[nextInvite := Invite(slug, email, role, caller, None, None)];
      nextInvite := nextInvite + 1;
      return Done;
    }

    method RevokeInvite(caller: nat, slug: string, id: nat) returns (ok: bool)
      modifies this
      ensures Tables() == old(Apply(Tables(), RevokeWrite(Tables(), caller, slug, id)))
      ensures ok <==> old(RevokeWrite(Tables(), caller, slug, id)) != Nothing
    {
      if (caller, slug) !in memberships || memberships[(caller, slug)] != Owner || caller !in users {
        return false;
      }
      if id !in invites || invites[id].slug != slug || invites[id].revokedAt.Some? {
        return false;
      }
      invites := invites[id := invites[id].(revokedAt := Some(now))];
      return true;
    }

    method DeleteInvite(caller: nat, slug: string, id: nat) returns (ok: bool)
      modifies this
      ensures Tables() == old(Apply(Tables(), DeleteWrite(Tables(), caller, slug, id)))
      ensures ok <==> old(DeleteWrite(Tables(), caller, slug, id)) != Nothing
    {
      if (caller, slug) !in memberships || memberships[(caller, slug)] != Owner || caller !in users {
        return false;
      }
      if id !in invites || invites[id].slug != slug || invites[id].acceptedAt.Some? {
        return false;
      }
      invites := invites - {id};
      return true;
    }
  }
}
