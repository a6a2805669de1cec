/** One venture's books together with the control plane: what the two keep between them. */
module VentureRuns {
  import opened Text
  import opened Sums
  import Books = TenantLedger
  import BookRuns = TenantRuns
  import Control = ControlPlane
  import ControlRuns
  import opened Pool

  datatype Venture = Venture(control: Control.System, books: Books.State)

  datatype Event = OfBooks(op: Books.Op) | OfControl(event: Control.Event)

  ghost function Step(v: Venture, e: Event): Venture {
    match e
    case OfBooks(op) => v.(books := Books.After(v.books, op))
    case OfControl(event) => v.(control := Control.Step(v.control, event))
  }

  ghost function Run(v: Venture, events: seq<Event>): Venture
    decreases |events|
  {
    if events == [] then v else Run(Step(v, events[0]), events[1..])
  }

  /** `caller_is_member`: some membership of the venture belongs to the user with this email. */
  ghost predicate IsMember(p: Control.Plane, slug: string, email: string) {
    exists u: nat :: Holds(p, u, slug, email)
  }

  predicate Holds(p: Control.Plane, user: nat, slug: string, email: string) {
    user in p.users && p.users[user] == email && (user, slug) in p.memberships
  }

  /** The gateway takes payments from members only, each under the caller's own email; an update
      leaves a row's email as it is. Anything may happen in the control plane. */
  ghost predicate ByMembers(v: Venture, e: Event, slug: string) {
    match e
    case OfBooks(CreateRow(_, d)) => IsMember(v.control.plane, slug, d.userEmail)
    case OfBooks(UpdateRow(id, d)) => id in v.books.rows ==> d.userEmail == v.books.rows[id].userEmail
    case _ => true
  }

  ghost predicate RunByMembers(v: Venture, events: seq<Event>, slug: string)
    decreases |events|
  {
    events != [] ==> ByMembers(v, events[0], slug) && RunByMembers(Step(v, events[0]), events[1..], slug)
  }

  ghost predicate PayersAreMembers(v: Venture, slug: string) {
    forall id :: id in v.books.rows ==> IsMember(v.control.plane, slug, v.books.rows[id].userEmail)
  }

  lemma MembersStay(p: Control.Plane, q: Control.Plane, slug: string, email: string)
    requires IsMember(p, slug, email) && ControlRuns.Grows(p, q)
    ensures IsMember(q, slug, email)
  {
    var u: nat :| Holds(p, u, slug, email);
    assert Holds(q, u, slug, email);
  }

  /** What holds between the books and the control plane throughout. */
  ghost predicate Coherent(v: Venture, slug: string, dues: int) {
    ControlRuns.Sound(v.control) && CappedAt(v.books, dues) && PayersAreMembers(v, slug)
  }

  ghost predicate EventKeepsDues(e: Event, dues: int) {
    e.OfBooks? ==> BookRuns.KeepsDues(e.op, dues)
  }

  lemma BooksStayCapped(s: Books.State, op: Books.Op, dues: int)
    requires CappedAt(s, dues) && BookRuns.KeepsDues(op, dues)
    ensures CappedAt(Books.After(s, op), dues)
  {
    assert Books.Run(s, [op]) == Books.After(s, op);
    BookRuns.ConstantDuesCap(s, [op], dues);
    BookRuns.RunKeepsRowsValid(s, [op]);
  }

  lemma PayersStayMembers(v: Venture, e: Event, slug: string)
    requires ControlRuns.Sound(v.control) && PayersAreMembers(v, slug) && ByMembers(v, e, slug)
    ensures PayersAreMembers(Step(v, e), slug)
  {
    var w := Step(v, e);
    if e.OfControl? {
      ControlRuns.StepKeepsSound(v.control, e.event);
      forall id | id in w.books.rows ensures IsMember(w.control.plane, slug, w.books.rows[id].userEmail) {
        MembersStay(v.control.plane, w.control.plane, slug, v.books.rows[id].userEmail);
      }
    }
  }

  lemma StepKeepsCoherent(v: Venture, e: Event, slug: string, dues: int)
    requires Coherent(v, slug, dues) && ByMembers(v, e, slug) && EventKeepsDues(e, dues)
    ensures Coherent(Step(v, e), slug, dues)
  {
    PayersStayMembers(v, e, slug);
    match e
    case OfBooks(op) => BooksStayCapped(v.books, op, dues);
    case OfControl(event) => ControlRuns.StepKeepsSound(v.control, event);
  }

  lemma {:induction false} RunKeepsCoherent(v: Venture, events: seq<Event>, slug: string, dues: int)
    requires Coherent(v, slug, dues) && RunByMembers(v, events, slug)
    requires forall i :: 0 <= i < |events| ==> EventKeepsDues(events[i], dues)
    ensures Coherent(Run(v, events), slug, dues)
    decreases |events|
  {
    if events != [] {
      StepKeepsCoherent(v, events[0], slug, dues);
      assert forall i :: 0 <= i < |events[1..]| ==> events[1..][i] == events[i + 1];
      RunKeepsCoherent(Step(v, events[0]), events[1..], slug, dues);
    }
  }

  /** `memberships` lists all memberships of the venture, each once. */
  ghost predicate ListsAllMemberships(p: Control.Plane, slug: string, memberships: seq<(nat, string)>) {
    ListsMemberships(p, slug, memberships)
    && forall k :: k in p.memberships && k.1 == slug ==> k in memberships
  }

  lemma PayersListed(v: Venture, slug: string, period: string, ids: seq<nat>, memberships: seq<(nat, string)>)
    requires PayersAreMembers(v, slug) && Lists(ids, ByPeriod(v.books.rows, period))
    requires ListsAllMemberships(v.control.plane, slug, memberships)
    ensures forall e :: e in Contributors(Rows(ids, ByPeriod(v.books.rows, period))) ==>
              e in MemberEmails(v.control.plane, memberships)
  {
    var p := v.control.plane;
    var rows := Rows(ids, ByPeriod(v.books.rows, period));
    forall e | e in Contributors(rows) ensures e in MemberEmails(p, memberships) {
      var i :| 0 <= i < |rows| && rows[i].status != "rejected" && rows[i].userEmail == e;
      assert ids[i] in ids;
      assert IsMember(p, slug, e);
      var u: nat :| Holds(p, u, slug, e);
      assert (u, slug) in memberships;
      var m :| 0 <= m < |memberships| && memberships[m] == (u, slug);
      assert MemberEmails(p, memberships)[m] == e;
    }
  }

  /** While the dues stay at one positive amount, after any run of payments through the gateway and any
      interleaving of control-plane calls, the pool view of every period agrees with the summaries
      of the venture's members. */
  lemma PoolAgreesOverRuns(v: Venture, events: seq<Event>, slug: string, dues: int, period: string,
                           ids: seq<nat>, memberships: seq<(nat, string)>, view: PoolSummary)
    requires ControlRuns.Sound(v.control) && v.books.rows == map[]
    requires v.books.settings.duesAmountCents == dues > 0
    requires RunByMembers(v, events, slug)
    requires forall i :: 0 <= i < |events| ==> EventKeepsDues(events[i], dues)
    requires Lists(ids, ByPeriod(Run(v, events).books.rows, period))
    requires ListsAllMemberships(Run(v, events).control.plane, slug, memberships)
    requires dues * |memberships| <= I64_MAX
    requires var w := Run(v, events);
             IsPoolView(view, Rows(ids, ByPeriod(w.books.rows, period)),
                        MemberEmails(w.control.plane, memberships), dues)
    ensures var w := Run(v, events);
            Agrees(view, w.books, period, MemberEmails(w.control.plane, memberships))
  {
    var w := Run(v, events);
    ReachesCapped(v.books, [], dues);
    RunKeepsCoherent(v, events, slug, dues);
    MemberEmailsDistinct(w.control.plane, slug, memberships);
    PayersListed(w, slug, period, ids, memberships);
    PoolAgreesWithSummaries(view, w.books, dues, period, ids, MemberEmails(w.control.plane, memberships));
  }
}
