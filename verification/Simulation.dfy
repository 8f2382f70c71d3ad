/**
 Two implementations, one behaviour: the Go store and the Worker's queues, asked the same
 things at the same moments, give the same answers up to the names of messages and leases.
 */
module Simulation {
  import opened Text
  import opened Messages
  import opened Queues
  import G = Stores
  import W = Worker
  import Runs
  import Js

  /** Nanoseconds in the Worker's millisecond. */
  const MS: int := 1_000_000

  /** Which Go name goes with which Worker name, on one route. */
  datatype Names = Names(ids: set<(string, string)>, leases: set<(string, string)>)

  predicate OneToOne(p: set<(string, string)>) {
    forall a, b :: a in p && b in p ==> (a.0 == b.0 <==> a.1 == b.1)
  }

  predicate Extends(n: Names, m: Names) {
    n.ids <= m.ids && n.leases <= m.leases
  }

  // ---- Twin queues ----

  /** The same message under two names, its number as the Worker can hold it. */
  predicate SameMessage(g: Message, w: W.Msg, n: Names) {
    && w.seqno == Js.Nearest(g.rec.seqno) && g.rec.body == w.body && g.rec.at == w.at * MS
    && (g.rec.id, w.id) in n.ids
  }

  predicate GoHolds(g: Message, now: int) {
    g.lease != "" && g.until > now * MS
  }

  predicate WorkerHolds(w: W.Msg, now: int) {
    w.lease.Some? && W.Deadline(w) > now
  }

  /** The same message, held or not by the same collector at `now`; lapsed leases do not matter. */
  predicate Twin(g: Message, w: W.Msg, n: Names, now: int) {
    && SameMessage(g, w, n)
    && (GoHolds(g, now) <==> WorkerHolds(w, now))
    && (GoHolds(g, now) ==> g.until == W.Deadline(w) * MS && (g.lease, w.lease.value) in n.leases)
  }

  predicate Twins(gs: Queue, ws: seq<W.Msg>, n: Names, now: int) {
    |gs| == |ws| && forall i :: 0 <= i < |gs| ==> Twin(gs[i], ws[i], n, now)
  }

  /** No lapsed lease is left in either queue. */
  predicate Crisp(gs: Queue, ws: seq<W.Msg>, now: int) {
    && (forall i :: 0 <= i < |gs| ==> gs[i].lease != "" ==> GoHolds(gs[i], now))
    && (forall i :: 0 <= i < |ws| ==> ws[i].lease.Some? ==> WorkerHolds(ws[i], now))
  }

  lemma {:induction false} TwinsLater(gs: Queue, ws: seq<W.Msg>, n: Names, m: Names, now: int, later: int)
    requires Twins(gs, ws, n, now) && now <= later && Extends(n, m)
    ensures Twins(gs, ws, m, later)
  {
  }

  /** Both drop the same messages for age. */
  lemma {:induction false} YoungTwins(gs: Queue, ws: seq<W.Msg>, n: Names, now: int)
    requires Twins(gs, ws, n, now)
    ensures Twins(FilterFresh(gs, now * MS), W.Young(ws, now), n, now)
  {
    if gs != [] {
      YoungTwins(gs[1..], ws[1..], n, now);
      assert TooOld(gs[0], now * MS) <==> ws[0].at < now - W.TTL_MS;
    }
  }

  lemma {:induction false} FilterFreshTwice(gs: Queue, a: Time, b: Time)
    requires a <= b
    ensures FilterFresh(FilterFresh(gs, a), b) == FilterFresh(gs, b)
  {
    if gs != [] {
      FilterFreshTwice(gs[1..], a, b);
    }
  }

  lemma {:induction false} YoungTwice(ws: seq<W.Msg>, a: int, b: int)
    requires a <= b
    ensures W.Young(W.Young(ws, a), b) == W.Young(ws, b)
  {
    if ws != [] {
      YoungTwice(ws[1..], a, b);
    }
  }

  /** Twins as far as anyone can still collect them. */
  predicate Related(gs: Queue, ws: seq<W.Msg>, n: Names, now: int) {
    Twins(FilterFresh(gs, now * MS), W.Young(ws, now), n, now)
  }

  lemma RelatedLater(gs: Queue, ws: seq<W.Msg>, n: Names, now: int, later: int)
    requires Related(gs, ws, n, now) && now <= later
    ensures Related(gs, ws, n, later)
  {
    hide Twin;
    var g, w := FilterFresh(gs, now * MS), W.Young(ws, now);
    TwinsLater(g, w, n, n, now, later);
    YoungTwins(g, w, n, later);
    FilterFreshTwice(gs, now * MS, later * MS);
    YoungTwice(ws, now, later);
  }

  /** What the Worker loads, against what the Go store sees after expiry, released or not. */
  lemma LoadedTwins(gs: Queue, q: W.Queue, n: Names, now: int)
    requires Related(gs, q.msgs, n, now)
    ensures Twins(FilterFresh(gs, now * MS), W.Loaded(q, now).msgs, n, now)
    ensures Twins(Release(FilterFresh(gs, now * MS), now * MS), W.Loaded(q, now).msgs, n, now)
    ensures Crisp(Release(FilterFresh(gs, now * MS), now * MS), W.Loaded(q, now).msgs, now)
  {
    hide FilterFresh, W.Young;
  }

  // ---- Twin operations ----

  lemma TailTwins(gs: Queue, ws: seq<W.Msg>, n: Names, now: int)
    requires gs != [] && Twins(gs, ws, n, now) && Crisp(gs, ws, now)
    ensures Twins(gs[1..], ws[1..], n, now) && Crisp(gs[1..], ws[1..], now)
    ensures gs[0].lease != "" <==> ws[0].lease.Some?
  {
    assert Twin(gs[0], ws[0], n, now);
  }

  lemma ConsTwins(g: Message, w: W.Msg, gs: Queue, ws: seq<W.Msg>, n: Names, now: int)
    requires Twin(g, w, n, now) && Twins(gs, ws, n, now)
    ensures Twins([g] + gs, [w] + ws, n, now)
  {
    hide Twin;
  }

  /** A destructive collection takes twins and leaves twins. */
  lemma {:induction false} TakeTwins(gs: Queue, ws: seq<W.Msg>, n: Names, now: int, limit: int, have: nat)
    requires Twins(gs, ws, n, now) && Crisp(gs, ws, now)
    ensures Twins(Taken(gs, limit, have), W.Available(ws, limit, have), n, now)
    ensures Twins(Kept(gs, limit, have), W.Rest(ws, limit, have), n, now)
  {
    hide Twin;
    if gs != [] {
      TailTwins(gs, ws, n, now);
      var gt, wt := gs[1..], ws[1..];
      if ws[0].lease.Some? {
        TakeTwins(gt, wt, n, now, limit, have);
        ConsTwins(gs[0], ws[0], Kept(gt, limit, have), W.Rest(wt, limit, have), n, now);
      } else if Enough(limit, have) {
        TakesNoMore(gs, limit, have);
      } else {
        TakeTwins(gt, wt, n, now, limit, have + 1);
        ConsTwins(gs[0], ws[0], Taken(gt, limit, have + 1), W.Available(wt, limit, have + 1), n, now);
      }
    }
  }

  lemma MarkTwin(g: Message, w: W.Msg, n: Names, m: Names, now: int, lease: string, name: string, until: int)
    requires Twin(g, w, n, now) && Extends(n, m) && (lease, name) in m.leases && lease != "" && now < until
    ensures Twin(MarkOne(g, lease, until * MS), W.MarkOne(w, name, until), m, now)
  {
  }

  /** A leased collection marks twins and hands out twins. */
  lemma {:induction false} MarkTwins(gs: Queue, ws: seq<W.Msg>, n: Names, m: Names, now: int, limit: int, have: nat,
                                     lease: string, name: string, until: int)
    requires Twins(gs, ws, n, now) && Crisp(gs, ws, now)
    requires Extends(n, m) && (lease, name) in m.leases && lease != "" && now < until
    ensures Twins(Marked(gs, limit, have, lease, until * MS), W.Marked(ws, limit, have, name, until), m, now)
    ensures Twins(Held(gs, limit, have, lease, until * MS),
                  W.MarkAll(W.Available(ws, limit, have), name, until), m, now)
  {
    hide Twin, Crisp;
    if gs != [] {
      TailTwins(gs, ws, n, now);
      var gt, wt, e := gs[1..], ws[1..], until * MS;
      TwinsLater(gs, ws, n, m, now, now);
      if ws[0].lease.Some? {
        MarkTwins(gt, wt, n, m, now, limit, have, lease, name, until);
        ConsTwins(gs[0], ws[0], Marked(gt, limit, have, lease, e), W.Marked(wt, limit, have, name, until), m, now);
      } else if !Enough(limit, have) {
        MarkTwins(gt, wt, n, m, now, limit, have + 1, lease, name, until);
        MarkTwin(gs[0], ws[0], n, m, now, lease, name, until);
        var g, w := MarkOne(gs[0], lease, e), W.MarkOne(ws[0], name, until);
        ConsTwins(g, w, Marked(gt, limit, have + 1, lease, e), W.Marked(wt, limit, have + 1, name, until), m, now);
        var out := W.Available(wt, limit, have + 1);
        ConsTwins(g, w, Held(gt, limit, have + 1, lease, e), W.MarkAll(out, name, until), m, now);
        assert W.MarkAll([ws[0]] + out, name, until) == [w] + W.MarkAll(out, name, until);
      }
    }
  }

  /** An acknowledgement deletes twins and leaves twins. */
  lemma {:induction false} AckTwins(gs: Queue, ws: seq<W.Msg>, n: Names, now: int, lease: string, name: string)
    requires Twins(gs, ws, n, now) && Crisp(gs, ws, now)
    requires (lease, name) in n.leases && OneToOne(n.leases) && lease != ""
    ensures |Under(gs, lease)| == |W.Under(ws, name)|
    ensures Twins(NotUnder(gs, lease), W.NotUnder(ws, name), n, now)
  {
    if gs != [] {
      TailTwins(gs, ws, n, now);
      var gt, wt := gs[1..], ws[1..];
      AckTwins(gt, wt, n, now, lease, name);
      assert Twin(gs[0], ws[0], n, now);
      assert gs[0].lease == lease <==> ws[0].lease == Some(name);
      if gs[0].lease != lease {
        ConsTwins(gs[0], ws[0], NotUnder(gt, lease), W.NotUnder(wt, name), n, now);
      }
    }
  }

  // ---- Names ----

  /** Every name paired so far was issued, and nothing has two names. */
  ghost predicate NamesOk(n: Names, s: G.Store, q: W.Queue) {
    && OneToOne(n.ids) && OneToOne(n.leases)
    && (forall p :: p in n.ids ==>
          && IdNumber(p.0).Some? && IdNumber(p.0).value <= s.ids
          && IdNumber(p.1).Some? && IdNumber(p.1).value < q.n)
    && (forall p :: p in n.leases ==>
          && p.0 != "" && Runs.Issued(s, p.0)
          && W.LeaseNumber(p.1).Some? && W.LeaseNumber(p.1).value < q.l)
  }

  /** One route of the two systems. */
  ghost predicate RouteSim(s: G.Store, k: string, q: W.Queue, n: Names, now: int) {
    NamesOk(n, s, q) && W.Numbered(q) && Related(G.At(s, k), q.msgs, n, now)
  }

  lemma NamesOkLater(n: Names, s: G.Store, t: G.Store, q: W.Queue, r: W.Queue)
    requires NamesOk(n, s, q) && t.epoch == s.epoch && s.ids <= t.ids && s.leases <= t.leases && q.n <= r.n &&
             q.l <= r.l
    ensures NamesOk(n, t, r)
  {
    hide IdNumber, W.LeaseNumber, Runs.Issued, OneToOne;
    Runs.IssuedLater(s, t);
  }

  /** A new message pairs two names never used before. */
  lemma NewMessageName(n: Names, s: G.Store, t: G.Store, q: W.Queue, r: W.Queue)
    requires NamesOk(n, s, q) && t.epoch == s.epoch && t.ids == s.ids + 1 && t.leases == s.leases && r.n == q.n + 1 &&
             r.l == q.l
    ensures NamesOk(n.(ids := n.ids + {(MessageId(s.ids + 1), MessageId(q.n))}), t, r)
  {
    hide IdNumber, MessageId, W.LeaseNumber, Runs.Issued;
    NamesOkLater(n, s, t, q, r);
  }

  lemma NewLeaseName(n: Names, s: G.Store, t: G.Store, q: W.Queue, r: W.Queue)
    requires NamesOk(n, s, q) && t.epoch == s.epoch && t.ids == s.ids && t.leases == s.leases + 1 && r.n == q.n &&
             r.l == q.l + 1
    ensures NamesOk(n.(leases := n.leases + {(LeaseId(s.epoch, s.leases + 1), W.LeaseName(q.l))}), t, r)
  {
    hide IdNumber, LeaseId, W.LeaseNumber, W.LeaseName;
    NamesOkLater(n, s, t, q, r);
    LeaseIdNotBlank(s.epoch, s.leases + 1);
    Runs.NextLeaseIssued(t);
    forall p | p in n.leases
      ensures p.0 != LeaseId(s.epoch, s.leases + 1)
    {
      var i :| 1 <= i <= s.leases && p.0 == LeaseId(s.epoch, i);
      if p.0 == LeaseId(s.epoch, s.leases + 1) {
        LeaseIdInjective(s.epoch, i, s.epoch, s.leases + 1);
      }
    }
  }

  // ---- Answers ----

  /** The same messages in the same order. */
  predicate SameMessages(gs: Queue, ws: seq<W.Msg>, n: Names) {
    |gs| == |ws| && forall i :: 0 <= i < |gs| ==> SameMessage(gs[i], ws[i], n)
  }

  /** The two answers say the same, up to names and to how the Worker holds numbers. */
  predicate Similar(a: G.Answer, b: W.Answer, n: Names) {
    match a
    case Accepted(_) => b.Accepted?
    case Refused(why) =>
      && b.Refused?
      && (why == G.QueueFull || why == G.NoSuchLease)
      && (why == G.QueueFull <==> b.why == W.QueueFull) && (why == G.NoSuchLease <==> b.why == W.NoSuchLease)
    case Delivered(msgs) => b.Delivered? && SameMessages(msgs, b.msgs, n)
    case Leased(lease, until, msgs) =>
      && b.Leased? && SameMessages(msgs, b.msgs, n) && (lease == "" <==> b.lease == "")
      && (lease != "" ==> (lease, b.lease) in n.leases && until == b.until * MS)
    case Deleted(count) => b == W.Deleted(count)
    case _ => false
  }

  /** Every number handed over is read from the Worker's text as the Go server's. */
  predicate SameNumbers(a: G.Answer, b: W.Answer) {
    var gs, ws := G.Handed(a), W.Handed(b);
    |gs| == |ws| && forall i :: 0 <= i < |gs| ==> gs[i].rec.seqno == Js.Printed(ws[i].seqno)
  }

  /** The two answers say the same, up to names. */
  predicate Agree(a: G.Answer, b: W.Answer, n: Names) {
    Similar(a, b, n) && SameNumbers(a, b)
  }

  /** Every number the Go server hands over survives the Worker. */
  predicate AllCarried(a: G.Answer) {
    forall m :: m in G.Handed(a) ==> Js.Carried(m.rec.seqno)
  }

  /** Similar answers agree exactly when the numbers survive. */
  lemma AgreeExactly(a: G.Answer, b: W.Answer, n: Names)
    requires Similar(a, b, n)
    ensures Agree(a, b, n) <==> AllCarried(a)
  {
    hide Js.Nearest, Js.Printed;
    var gs, ws := G.Handed(a), W.Handed(b);
    assert |gs| == |ws| && forall i :: 0 <= i < |gs| ==> SameMessage(gs[i], ws[i], n);
    assert forall i :: 0 <= i < |gs| ==> gs[i] in gs;
  }

  lemma SimilarLater(a: G.Answer, b: W.Answer, n: Names, m: Names)
    requires Similar(a, b, n) && Extends(n, m)
    ensures Similar(a, b, m)
  {
  }

  // ---- One request ----

  datatype Ask =
    | Put(route: Route, seqno: nat, body: string)
    | Collect(route: Route, limit: int)
    | Hold(route: Route, limit: int, ms: nat)
    | Confirm(route: Route, step: nat, before: string, after: string)
      // acknowledges the lease an earlier step gave, with white space around its id

  predicate AllSpace(s: string) {
    forall i :: 0 <= i < |s| ==> IsSpace(s[i])
  }

  /** What either implementation is asked to do; a body must fit both limits, a number its 64 bits. */
  predicate Reasonable(a: Ask) {
    && ValidRoute(a.route)
    && (a.Put? ==> |a.body| <= MAX_BODY && a.seqno < UINT64_LIMIT)
    && (a.Hold? ==> 0 < a.ms <= W.MAX_LEASE_MS)
    && (a.Confirm? ==> AllSpace(a.before) && AllSpace(a.after))
  }

  /** The request as a call on the Go store; `lease` is the id the client sends. */
  function GoCall(a: Ask, lease: string): G.Call {
    match a
    case Put(r, seqno, body) => G.Put(r, seqno, body, Some(""))
    case Collect(r, limit) => G.Take(r, limit)
    case Hold(r, limit, ms) => G.TakeLeased(r, limit, ms * MS)
    case Confirm(r, _, _, _) => G.Ack(r, lease)
  }

  function WorkerCall(q: W.Queue, a: Ask, lease: string, now: int): W.Outcome {
    match a
    case Put(_, seqno, body) => W.Put(q, seqno, body, true, now)
    case Collect(_, limit) => W.Take(q, limit, Some(0), now)
    case Hold(_, limit, ms) => W.Take(q, limit, Some(ms), now)
    case Confirm(_, _, _, _) => W.Ack(q, lease, now)
  }

  /** The client's two names for the lease it confirms: paired, or none on either side. */
  predicate SameLease(n: Names, lease: string, name: string) {
    (lease == "" && name == "") || (lease, name) in n.leases
  }

  lemma TwinsSimilar(gs: Queue, ws: seq<W.Msg>, n: Names, now: int)
    requires Twins(gs, ws, n, now)
    ensures SameMessages(gs, ws, n)
  {
    hide SameMessage;
  }

  /** Queues that are twins after an operation are related. */
  lemma TwinsRelated(gs: Queue, ws: seq<W.Msg>, n: Names, now: int)
    requires Twins(gs, ws, n, now)
    ensures Related(gs, ws, n, now)
  {
    hide Twin;
    YoungTwins(gs, ws, n, now);
  }

  /** The queue the Go operation works on. */
  lemma GoSees(s: G.Store, k: string, now: Time, clock: Time)
    requires Runs.RouteOk(s, k, clock)
    ensures Fresh(G.At(s, k), now) == FilterFresh(G.At(s, k), now)
    ensures G.Seen(s, k, now) == Release(FilterFresh(G.At(s, k), now), now)
  {
    hide IdOf, Runs.Numbered, Runs.LeasesIssued, FilterFresh;
    ArrivalOrderExpires(G.At(s, k), now);
  }

  /** The only Go lease named since is the one the store gives next. */
  predicate NewLeasesOnly(s: G.Store, n: Names, m: Names) {
    forall p :: p in m.leases ==> p in n.leases || p.0 == LeaseId(s.epoch, s.leases + 1)
  }

  lemma PutSim(s: G.Store, q: W.Queue, n: Names, a: Ask, now: int, clock: Time) returns (m: Names)
    requires Runs.StoreOk(s, clock) && Reasonable(a) && a.Put? && RouteSim(s, Key(a.route), q, n, now)
    ensures var g, w := G.Apply(s, GoCall(a, ""), now * MS), WorkerCall(q, a, "", now);
            Extends(n, m) && RouteSim(g.store, Key(a.route), w.q, m, now) && Similar(g.answer, w.answer, m)
    ensures m.leases == n.leases
  {
    hide Key, IdNumber, MessageId, FilterFresh, W.Young, Release, W.Release, Twin, W.Numbered, NamesOk, Fresh,
      SameMessages, Js.Nearest;
    var k := Key(a.route);
    var c := GoCall(a, "");
    var g, w := G.Apply(s, c, now * MS), WorkerCall(q, a, "", now);
    assert Runs.RouteOk(s, k, clock);
    GoSees(s, k, now * MS, clock);
    LoadedTwins(G.At(s, k), q, n, now);
    W.LoadedNumbered(q, now);
    G.QueueAfter(s, c, now * MS);
    var gs, r := FilterFresh(G.At(s, k), now * MS), W.Loaded(q, now);
    assert G.At(G.Prepared(s, c, now * MS), k) == gs;
    NamesOkLater(n, s, g.store, q, q);
    if |gs| >= MAX_QUEUE {
      m := n;
      FilterFreshTwice(G.At(s, k), now * MS, now * MS);
    } else {
      m := n.(ids := n.ids + {(MessageId(s.ids + 1), MessageId(q.n))});
      NewMessageName(n, s, g.store, q, w.q);
      W.PutNumbered(r, Js.Nearest(a.seqno), a.body, now);
      TwinsLater(gs, r.msgs, n, m, now, now);
      var gm := Message(Record(MessageId(s.ids + 1), a.route, a.seqno, a.body, now * MS), "", "", 0);
      var wm := W.Msg(MessageId(q.n), Js.Nearest(a.seqno), a.body, now, None, None);
      NewTwin(gm, wm, m, now);
      AppendTwins(gs, r.msgs, gm, wm, m, now);
      TwinsRelated(gs + [gm], r.msgs + [wm], m, now);
    }
  }

  lemma NewTwin(g: Message, w: W.Msg, n: Names, now: int)
    requires SameMessage(g, w, n) && g.lease == "" && w.lease.None?
    ensures Twin(g, w, n, now)
  {
  }

  lemma AppendTwins(gs: Queue, ws: seq<W.Msg>, g: Message, w: W.Msg, n: Names, now: int)
    requires Twins(gs, ws, n, now) && Twin(g, w, n, now)
    ensures Twins(gs + [g], ws + [w], n, now)
  {
    hide Twin;
  }

  lemma CollectSim(s: G.Store, q: W.Queue, n: Names, a: Ask, now: int, clock: Time)
    requires Runs.StoreOk(s, clock) && Reasonable(a) && a.Collect? && RouteSim(s, Key(a.route), q, n, now)
    ensures var g, w := G.Apply(s, GoCall(a, ""), now * MS), WorkerCall(q, a, "", now);
            RouteSim(g.store, Key(a.route), w.q, n, now) && Similar(g.answer, w.answer, n)
  {
    hide Key, FilterFresh, W.Young, Release, W.Release, Twin, W.Numbered, NamesOk, Fresh, SameMessages, Taken, Kept,
      W.Available, W.NotIn, W.Ids, Crisp, G.Apply;
    var k := Key(a.route);
    var c := GoCall(a, "");
    assert Runs.RouteOk(s, k, clock);
    GoSees(s, k, now * MS, clock);
    LoadedTwins(G.At(s, k), q, n, now);
    W.LoadedNumbered(q, now);
    G.QueueAfter(s, c, now * MS);
    G.Counters(s, c, now * MS);
    var gs, r := G.Seen(s, k, now * MS), W.Loaded(q, now);
    NamesOkLater(n, s, G.Apply(s, c, now * MS).store, q, WorkerCall(q, a, "", now).q);
    TakeTwins(gs, r.msgs, n, now, a.limit, 0);
    W.DeletesExactlyTaken(r, a.limit, 0);
    W.OperationsNumbered(q, 0, "", true, a.limit, Some(0), "", now);
    TwinsRelated(Kept(gs, a.limit, 0), W.Rest(r.msgs, a.limit, 0), n, now);
    TwinsSimilar(Taken(gs, a.limit, 0), W.Available(r.msgs, a.limit, 0), n, now);
    TakeAnswer(s, c, now * MS);
  }

  lemma TakeAnswer(s: G.Store, c: G.Call, now: Time)
    requires G.Reject(c).None? && c.Take?
    ensures G.Apply(s, c, now).answer == G.Delivered(Taken(G.Seen(s, Key(c.route), now), c.limit, 0))
  {
    hide Key, Taken, Kept, Fresh, Release;
    assert G.At(G.Prepared(s, c, now), Key(c.route)) == Fresh(G.At(s, Key(c.route)), now);
  }

  lemma LeaseAnswer(s: G.Store, c: G.Call, now: Time)
    requires G.Reject(c).None? && c.TakeLeased?
    ensures var lease := LeaseId(s.epoch, s.leases + 1);
            var held := Held(G.Seen(s, Key(c.route), now), c.limit, 0, lease, now + c.d);
            G.Apply(s, c, now).answer == if held == [] then G.Leased("", 0, []) else G.Leased(lease, now + c.d, held)
  {
    hide Key, Held, Marked, LeaseId, Fresh, Release;
    assert G.At(G.Prepared(s, c, now), Key(c.route)) == Fresh(G.At(s, Key(c.route)), now);
  }

  lemma HoldSim(s: G.Store, q: W.Queue, n: Names, a: Ask, now: int, clock: Time) returns (m: Names)
    requires Runs.StoreOk(s, clock) && Reasonable(a) && a.Hold? && RouteSim(s, Key(a.route), q, n, now)
    ensures var g, w := G.Apply(s, GoCall(a, ""), now * MS), WorkerCall(q, a, "", now);
            Extends(n, m) && RouteSim(g.store, Key(a.route), w.q, m, now) && Similar(g.answer, w.answer, m)
    ensures NewLeasesOnly(s, n, m)
  {
    hide Key, FilterFresh, W.Young, Release, W.Release, Twin, W.Numbered, NamesOk, Fresh, SameMessages, Held, Marked,
      W.Available, W.Marked, W.MarkAll, Crisp, G.Apply, LeaseId, W.LeaseName, W.LeaseNumber;
    var k := Key(a.route);
    var c := GoCall(a, "");
    var t, w := G.Apply(s, c, now * MS).store, WorkerCall(q, a, "", now);
    assert Runs.RouteOk(s, k, clock);
    GoSees(s, k, now * MS, clock);
    LoadedTwins(G.At(s, k), q, n, now);
    G.QueueAfter(s, c, now * MS);
    G.Counters(s, c, now * MS);
    LeaseAnswer(s, c, now * MS);
    W.OperationsNumbered(q, 0, "", true, a.limit, Some(a.ms), "", now);
    var gs, r := G.Seen(s, k, now * MS), W.Loaded(q, now);
    var lease, name, until := LeaseId(s.epoch, s.leases + 1), W.LeaseName(q.l), now + a.ms;
    LeaseIdNotBlank(s.epoch, s.leases + 1);
    var full := n.(leases := n.leases + {(lease, name)});
    MarkTwins(gs, r.msgs, n, full, now, a.limit, 0, lease, name, until);
    var held, out := Held(gs, a.limit, 0, lease, until * MS), W.MarkAll(W.Available(r.msgs, a.limit, 0), name, until);
    assert until * MS == now * MS + c.d;
    if held == [] {
      m := n;
      NamesOkLater(n, s, t, q, w.q);
      NothingMarked(gs, a.limit, 0, lease, until * MS);
      TwinsRelated(gs, r.msgs, n, now);
      TwinsSimilar([], [], n, now);
    } else {
      m := full;
      NewLeaseName(n, s, t, q, w.q);
      TwinsRelated(Marked(gs, a.limit, 0, lease, until * MS), W.Marked(r.msgs, a.limit, 0, name, until), m, now);
      TwinsSimilar(held, out, m, now);
      assert name != "" by { NameNotEmpty(q.l); }
    }
  }

  lemma NameNotEmpty(l: nat)
    ensures W.LeaseName(l) != ""
  {
  }

  /** When there is nothing to hand out, nothing is marked. */
  lemma {:induction false} NothingMarked(gs: Queue, limit: int, have: nat, lease: string, until: Time)
    requires Held(gs, limit, have, lease, until) == []
    ensures Marked(gs, limit, have, lease, until) == gs
  {
    if gs != [] && gs[0].lease != "" {
      NothingMarked(gs[1..], limit, have, lease, until);
    }
  }

  lemma ConfirmSim(s: G.Store, q: W.Queue, n: Names, a: Ask, lease: string, name: string, now: int, clock: Time)
    requires Runs.StoreOk(s, clock) && Reasonable(a) && a.Confirm? && RouteSim(s, Key(a.route), q, n, now)
    requires SameLease(n, lease, name)
    ensures var g, w := G.Apply(s, GoCall(a, lease), now * MS), WorkerCall(q, a, name, now);
            RouteSim(g.store, Key(a.route), w.q, n, now) && Similar(g.answer, w.answer, n)
  {
    hide Key, FilterFresh, W.Young, Release, W.Release, Twin, W.Numbered, Fresh, SameMessages, Under, NotUnder,
      W.Under, W.NotUnder, Crisp, G.Apply, LeaseId, W.LeaseNumber, Blank, TrimSpace, IdNumber;
    var k := Key(a.route);
    var c := GoCall(a, lease);
    var t, w := G.Apply(s, c, now * MS).store, WorkerCall(q, a, name, now);
    assert Runs.RouteOk(s, k, clock);
    GoSees(s, k, now * MS, clock);
    LoadedTwins(G.At(s, k), q, n, now);
    G.Counters(s, c, now * MS);
    W.OperationsNumbered(q, 0, "", true, 0, None, name, now);
    NamesOkLater(n, s, t, q, w.q);
    var gs, r := G.Seen(s, k, now * MS), W.Loaded(q, now);
    if lease == "" {
      BlankEmpty();
      BlankAck(s, c, now * MS);
      assert TrimSpace("") == "" by { EmptyTrims(); }
      BlankRelated(G.At(s, k), q, n, now);
    } else {
      var i :| 1 <= i <= s.leases && lease == LeaseId(s.epoch, i);
      LeaseIdNotBlank(s.epoch, i);
      NameTrims(name);
      AckTwins(gs, r.msgs, n, now, lease, name);
      G.QueueAfter(s, c, now * MS);
      AckAnswer(s, c, now * MS);
      TwinsRelated(NotUnder(gs, lease), W.NotUnder(r.msgs, name), n, now);
      if W.Under(r.msgs, name) == [] {
        NobodyUnder(gs, lease);
        TwinsRelated(gs, r.msgs, n, now);
      }
    }
  }

  lemma {:induction false} NobodyUnder(gs: Queue, lease: string)
    requires Under(gs, lease) == []
    ensures NotUnder(gs, lease) == gs
  {
    if gs != [] {
      NobodyUnder(gs[1..], lease);
    }
  }

  lemma AckAnswer(s: G.Store, c: G.Call, now: Time)
    requires G.Reject(c).None? && c.Ack?
    ensures var acked := Under(G.Seen(s, Key(c.route), now), c.id);
            G.Apply(s, c, now).answer == if acked == [] then G.Refused(G.NoSuchLease) else G.Deleted(|acked|)
  {
    hide Key, Under, NotUnder, Blank, Fresh, Release;
    assert G.At(G.Prepared(s, c, now), Key(c.route)) == Fresh(G.At(s, Key(c.route)), now);
  }

  lemma BlankAck(s: G.Store, c: G.Call, now: Time)
    requires c.Ack? && Blank(c.id) && ValidRoute(c.route)
    ensures G.Apply(s, c, now) == G.Outcome(s, G.Refused(G.NoSuchLease))
  {
  }

  lemma EmptyTrims()
    ensures TrimSpace("") == ""
  {
  }

  /** The Worker expires even when there is nothing to acknowledge; the Go store does not bother. */
  lemma BlankRelated(gs: Queue, q: W.Queue, n: Names, now: int)
    requires Related(gs, q.msgs, n, now)
    ensures Related(gs, W.Loaded(q, now).msgs, n, now)
  {
    hide Twin, W.Young, FilterFresh, W.Release;
    LoadedTwins(gs, q, n, now);
    YoungTwins(FilterFresh(gs, now * MS), W.Loaded(q, now).msgs, n, now);
    FilterFreshTwice(gs, now * MS, now * MS);
  }

  lemma {:induction false} DigitsTrim(s: string)
    requires s != "" && !IsSpace(s[0]) && !IsSpace(s[|s| - 1])
    ensures TrimSpace(s) == s
  {
  }

  lemma NameTrims(name: string)
    requires W.LeaseNumber(name).Some?
    ensures TrimSpace(name) == name && name != ""
  {
    assert IsDigit(name[1..][|name| - 2]);
    DigitsTrim(name);
  }

  // ---- Whole scripts ----

  datatype Request = Request(now: int, ask: Ask)

  /** The Go server after a script, with the answers it gave. */
  datatype GoSide = GoSide(store: G.Store, answers: seq<G.Answer>)

  /** The Worker after a script: one durable record per route that has been touched. */
  datatype WorkerSide = WorkerSide(queues: map<string, W.Queue>, answers: seq<W.Answer>)

  /** The lease id a client got from an earlier step, "" if that step gave it none. */
  function GoLease(answers: seq<G.Answer>, a: Ask): string {
    if a.Confirm? && a.step < |answers| && answers[a.step].Leased? then answers[a.step].lease else ""
  }

  function WorkerLease(answers: seq<W.Answer>, a: Ask): string {
    if a.Confirm? && a.step < |answers| && answers[a.step].Leased? then answers[a.step].lease else ""
  }

  /** The id as the client sends it. */
  function Sent(a: Ask, lease: string): string {
    if a.Confirm? then a.before + lease + a.after else ""
  }

  function QueueOf(queues: map<string, W.Queue>, k: string): W.Queue {
    if k in queues then queues[k] else W.View(W.Nothing)
  }

  function GoRun(epoch: string, rs: seq<Request>): GoSide {
    if rs == [] then GoSide(G.NewStore(epoch), [])
    else
      var r, g := rs[|rs| - 1], GoRun(epoch, rs[..|rs| - 1]);
      var o := G.Apply(g.store, GoCall(r.ask, Sent(r.ask, GoLease(g.answers, r.ask))), r.now * MS);
      GoSide(o.store, g.answers + [o.answer])
  }

  function WorkerRun(rs: seq<Request>): WorkerSide {
    if rs == [] then WorkerSide(map[], [])
    else
      var r, w := rs[|rs| - 1], WorkerRun(rs[..|rs| - 1]);
      var k := Key(r.ask.route);
      var o := WorkerCall(QueueOf(w.queues, k), r.ask, Sent(r.ask, WorkerLease(w.answers, r.ask)), r.now);
      WorkerSide(w.queues[k := o.q], w.answers + [o.answer])
  }

  /** A lease is confirmed as it was given, on the route it was given for. */
  predicate Verbatim(rs: seq<Request>, i: nat)
    requires i < |rs|
  {
    var a := rs[i].ask;
    a.Confirm? ==>
      && a.before == "" && a.after == ""
      && (a.step < i && rs[a.step].ask.Hold? ==> Key(rs[a.step].ask.route) == Key(a.route))
  }

  /** What the Worker holds, at that moment and on that route, under the name a confirmation sends. */
  function Reached(rs: seq<Request>, i: nat): seq<W.Msg>
    requires i < |rs| && rs[i].ask.Confirm?
  {
    var a, w := rs[i].ask, WorkerRun(rs[..i]);
    var name := TrimSpace(Sent(a, WorkerLease(w.answers, a)));
    if name == "" then [] else W.Under(W.Loaded(QueueOf(w.queues, Key(a.route)), rs[i].now).msgs, name)
  }

  /** Sent as it was given and where it was given, or reaching nothing at the Worker. */
  predicate Proper(rs: seq<Request>, i: nat)
    requires i < |rs|
  {
    rs[i].ask.Confirm? ==> Verbatim(rs, i) || Reached(rs, i) == []
  }

  /** Requests both implementations take, under one clock that never goes back. */
  predicate WellFormed(rs: seq<Request>) {
    && (forall i :: 0 <= i < |rs| ==> Reasonable(rs[i].ask))
    && (forall i, j :: 0 <= i < j < |rs| ==> rs[i].now <= rs[j].now)
  }

  function NamesAt(names: map<string, Names>, k: string): Names {
    if k in names then names[k] else Names({}, {})
  }

  function ClockOf(rs: seq<Request>): int {
    if rs == [] then 0 else rs[|rs| - 1].now
  }

  /** The two systems after the same script. */
  ghost predicate Sim(rs: seq<Request>, g: GoSide, w: WorkerSide, names: map<string, Names>) {
    && |g.answers| == |rs| && |w.answers| == |rs|
    && (forall i :: 0 <= i < |rs| ==>
          Similar(g.answers[i], w.answers[i], NamesAt(names, Key(rs[i].ask.route))))
    && (forall i :: 0 <= i < |rs| && g.answers[i].Leased? ==> rs[i].ask.Hold?)
    && (rs != [] ==> Runs.StoreOk(g.store, ClockOf(rs) * MS))
    && (forall k: string :: RouteSim(g.store, k, QueueOf(w.queues, k), NamesAt(names, k), ClockOf(rs)))
    && LeasesApart(names)
  }

  /** No Go lease is known on two routes. */
  ghost predicate LeasesApart(names: map<string, Names>) {
    forall j: string, k: string, p, q ::
      j != k && p in NamesAt(names, j).leases && q in NamesAt(names, k).leases ==> p.0 != q.0
  }

  /** A lease named on one route and given next stays on that route. */
  lemma LeasesStayApart(s: G.Store, names: map<string, Names>, k: string, m: Names)
    requires LeasesApart(names) && NewLeasesOnly(s, NamesAt(names, k), m)
    requires forall j: string, p :: p in NamesAt(names, j).leases ==> Runs.Issued(s, p.0) && p.0 != ""
    ensures LeasesApart(names[k := m])
  {
    hide LeaseId, Runs.Issued;
    var id, more := LeaseId(s.epoch, s.leases + 1), names[k := m];
    NextNotIssued(s);
    forall i: string, j: string, p, q | i != j && p in NamesAt(more, i).leases && q in NamesAt(more, j).leases
      ensures p.0 != q.0
    {
      assert p in NamesAt(names, i).leases || (i == k && p.0 == id);
      assert q in NamesAt(names, j).leases || (j == k && q.0 == id);
    }
  }

  lemma NextNotIssued(s: G.Store)
    ensures !Runs.Issued(s, LeaseId(s.epoch, s.leases + 1))
  {
    hide LeaseId;
    LeaseIdNotBlank(s.epoch, s.leases + 1);
    forall n | 1 <= n <= s.leases ensures LeaseId(s.epoch, n) != LeaseId(s.epoch, s.leases + 1) {
      if LeaseId(s.epoch, n) == LeaseId(s.epoch, s.leases + 1) {
        LeaseIdInjective(s.epoch, n, s.epoch, s.leases + 1);
      }
    }
  }

  /** Only a leased collection answers with a lease. */
  lemma LeasedMeansHold(s: G.Store, a: Ask, lease: string, now: Time)
    requires G.Apply(s, GoCall(a, lease), now).answer.Leased?
    ensures a.Hold?
  {
  }

  lemma RequestSim(s: G.Store, q: W.Queue, n: Names, a: Ask, lease: string, name: string, now: int, clock: Time)
    returns (m: Names)
    requires Runs.StoreOk(s, clock) && Reasonable(a) && RouteSim(s, Key(a.route), q, n, now) &&
             SameLease(n, lease, name)
    ensures var g, w := G.Apply(s, GoCall(a, lease), now * MS), WorkerCall(q, a, name, now);
            Extends(n, m) && RouteSim(g.store, Key(a.route), w.q, m, now) && Similar(g.answer, w.answer, m)
    ensures NewLeasesOnly(s, n, m)
  {
    hide G.Apply, RouteSim, Similar, W.Take, W.Put, W.Ack, Runs.StoreOk;
    m := n;
    match a
    case Put(_, _, _) => m := PutSim(s, q, n, a, now, clock);
    case Collect(_, _) => CollectSim(s, q, n, a, now, clock);
    case Hold(_, _, _) => m := HoldSim(s, q, n, a, now, clock);
    case Confirm(_, _, _, _) => ConfirmSim(s, q, n, a, lease, name, now, clock);
  }

  /** Time passing, and operations on other routes, leave a route's two queues related. */
  lemma RouteSimLater(s: G.Store, t: G.Store, k: string, q: W.Queue, n: Names, now: int, later: int)
    requires RouteSim(s, k, q, n, now) && now <= later && G.At(t, k) == G.At(s, k)
    requires t.epoch == s.epoch && s.ids <= t.ids && s.leases <= t.leases
    ensures RouteSim(t, k, q, n, later)
  {
    hide Related, NamesOk, W.Numbered;
    RelatedLater(G.At(s, k), q.msgs, n, now, later);
    NamesOkLater(n, s, t, q, q);
  }

  /** The names under which client and servers know the confirmed lease. */
  lemma ConfirmedLease(all: seq<Request>, g: GoSide, w: WorkerSide, names: map<string, Names>)
    requires all != [] && Sim(all[..|all| - 1], g, w, names) && all[|all| - 1].ask.Confirm?
    ensures var a := all[|all| - 1].ask;
            var lease, name := GoLease(g.answers, a), WorkerLease(w.answers, a);
            || (lease == "" && name == "")
            || (&& a.step < |all| - 1 && all[a.step].ask.Hold?
                && (lease, name) in NamesAt(names, Key(all[a.step].ask.route)).leases)
  {
    hide Key, RouteSim, Runs.StoreOk, SameMessages, LeasesApart;
    var a, rs := all[|all| - 1].ask, all[..|all| - 1];
    if a.step < |rs| {
      assert rs[a.step] == all[a.step];
      assert Similar(g.answers[a.step], w.answers[a.step], NamesAt(names, Key(rs[a.step].ask.route)));
    }
  }

  // ---- Confirmations that go astray ----

  lemma SpaceTrims(s: string)
    requires AllSpace(s)
    ensures TrimSpace(s) == "" && Blank(s)
    decreases |s|
  {
    if s != "" {
      SpaceTrims(s[1..]);
    }
  }

  lemma LastChar(a: string, b: string)
    ensures b != "" ==> (a + b)[|a + b| - 1] == b[|b| - 1]
  {
  }

  lemma {:induction false} NobodysLease(gs: Queue, lease: string)
    requires forall m :: m in gs ==> m.lease != lease
    ensures Under(gs, lease) == []
  {
    if gs != [] {
      assert gs[0] in gs && forall m :: m in gs[1..] ==> m in gs;
      NobodysLease(gs[1..], lease);
    }
  }

  /** White space around a Go lease id makes it no lease id. */
  lemma PaddedIsNoLease(before: string, epoch: string, i: nat, after: string, j: nat)
    requires AllSpace(before) && AllSpace(after) && before + LeaseId(epoch, i) + after == LeaseId(epoch, j)
    ensures before == "" && after == "" && i == j
  {
    hide Dec;
    var d, e := Dec(i), Dec(j);
    var text := LeaseId(epoch, j);
    assert text[|text| - 1] == e[|e| - 1] && IsDigit(e[|e| - 1]);
    LastChar(before + LeaseId(epoch, i), after);
    assert LeaseId(before + epoch, i) == before + LeaseId(epoch, i) + after;
    LeaseIdInjective(before + epoch, i, epoch, j);
    assert |before + epoch| == |epoch|;
  }

  /** An astray confirmation matches nothing the Go store still holds on the route. */
  lemma AstrayUnderNothing(s: G.Store, k: string, q: W.Queue, names: map<string, Names>, a: Ask, lease: string,
                           j: string, now: int, clock: Time)
    requires Runs.StoreOk(s, clock) && clock <= now * MS && RouteSim(s, k, q, NamesAt(names, k), now) &&
             LeasesApart(names)
    requires a.Confirm? && Reasonable(a) && lease != "" && Runs.Issued(s, lease)
    requires exists name :: (lease, name) in NamesAt(names, j).leases
    requires a.before != "" || a.after != "" || j != k
    ensures Under(G.Seen(s, k, now * MS), Sent(a, lease)) == []
  {
    hide FilterFresh, Release, W.Young, W.Loaded, Under, LeaseId, Fresh, IdNumber, IdOf, AllSpace, W.Numbered,
      OneToOne, Runs.Numbered, AllEarlier, G.Seen, Runs.Issued, Sent, Twin, Crisp, NamesAt;
    var gs, text := G.Seen(s, k, now * MS), Sent(a, lease);
    assert Runs.RouteOk(s, k, clock);
    GoSees(s, k, now * MS, clock);
    Runs.SeenOk(s, k, now * MS, clock);
    LoadedTwins(G.At(s, k), q, NamesAt(names, k), now);
    var name :| (lease, name) in NamesAt(names, j).leases;
    forall m | m in gs ensures m.lease != text {
      HeldIsNamed(gs, W.Loaded(q, now).msgs, NamesAt(names, k), now, m);
      OnlyTheLease(s, a, lease, m.lease);
    }
    NobodysLease(gs, text);
  }

  /** A lease that the Go store still honours is named on its route. */
  lemma HeldIsNamed(gs: Queue, ws: seq<W.Msg>, n: Names, now: int, m: Message)
    requires Twins(gs, ws, n, now) && Crisp(gs, ws, now) && m in gs
    ensures m.lease == "" || exists name :: (m.lease, name) in n.leases
  {
    var i :| 0 <= i < |gs| && gs[i] == m;
    assert Twin(gs[i], ws[i], n, now);
  }

  /** Only the lease itself, unpadded, is the id of a message held under some lease of the run. */
  lemma OnlyTheLease(s: G.Store, a: Ask, lease: string, held: string)
    requires a.Confirm? && Reasonable(a) && lease != "" && Runs.Issued(s, lease) && Runs.Issued(s, held)
    ensures held == Sent(a, lease) ==> a.before == "" && a.after == "" && held == lease
  {
    hide LeaseId, AllSpace;
    var i :| 1 <= i <= s.leases && lease == LeaseId(s.epoch, i);
    if held == Sent(a, lease) {
      assert held != "";
      var c :| 1 <= c <= s.leases && held == LeaseId(s.epoch, c);
      PaddedIsNoLease(a.before, s.epoch, i, a.after, c);
    }
  }

  /** When neither side finds anything under the id it is sent, both refuse and stay related. */
  lemma NothingFoundSim(s: G.Store, q: W.Queue, n: Names, a: Ask, lease: string, name: string, now: int, clock: Time)
    requires Runs.StoreOk(s, clock) && Reasonable(a) && a.Confirm? && RouteSim(s, Key(a.route), q, n, now)
    requires Blank(lease) || Under(G.Seen(s, Key(a.route), now * MS), lease) == []
    requires TrimSpace(name) == "" || W.Under(W.Loaded(q, now).msgs, TrimSpace(name)) == []
    ensures var g, w := G.Apply(s, GoCall(a, lease), now * MS), WorkerCall(q, a, name, now);
            RouteSim(g.store, Key(a.route), w.q, n, now) && Similar(g.answer, w.answer, n)
  {
    hide Key, FilterFresh, W.Young, Release, W.Release, Twin, W.Numbered, Fresh, SameMessages, Under, NotUnder,
      W.Under, W.NotUnder, Crisp, G.Apply, LeaseId, W.LeaseNumber, Blank, TrimSpace, IdNumber;
    var k := Key(a.route);
    var c := GoCall(a, lease);
    var t, w := G.Apply(s, c, now * MS).store, WorkerCall(q, a, name, now);
    assert Runs.RouteOk(s, k, clock);
    GoSees(s, k, now * MS, clock);
    LoadedTwins(G.At(s, k), q, n, now);
    G.Counters(s, c, now * MS);
    W.OperationsNumbered(q, 0, "", true, 0, None, name, now);
    NamesOkLater(n, s, t, q, w.q);
    if Blank(lease) {
      BlankAck(s, c, now * MS);
      BlankRelated(G.At(s, k), q, n, now);
    } else {
      var gs, r := G.Seen(s, k, now * MS), W.Loaded(q, now);
      G.QueueAfter(s, c, now * MS);
      AckAnswer(s, c, now * MS);
      NobodyUnder(gs, lease);
      TwinsRelated(gs, r.msgs, n, now);
    }
  }

  // ---- One more request ----

  /** The moment of the request just before, or of this one when it is the first. */
  function ClockBefore(all: seq<Request>): int
    requires all != []
  {
    if |all| == 1 then all[0].now else all[|all| - 2].now
  }

  /** The two systems as the last request of the script finds them. */
  lemma BeforeLast(all: seq<Request>, epoch: string, names: map<string, Names>)
    requires all != [] && WellFormed(all)
    requires var rs := all[..|all| - 1]; Sim(rs, GoRun(epoch, rs), WorkerRun(rs), names)
    ensures var rs, now := all[..|all| - 1], all[|all| - 1].now;
            var s, w := GoRun(epoch, rs).store, WorkerRun(rs);
            && Runs.StoreOk(s, ClockBefore(all) * MS) && ClockBefore(all) <= now
            && forall k: string :: RouteSim(s, k, QueueOf(w.queues, k), NamesAt(names, k), now)
  {
    hide Key, RouteSim, Runs.StoreOk, Similar, LeasesApart, GoRun, WorkerRun, Reasonable;
    var rs, now := all[..|all| - 1], all[|all| - 1].now;
    if rs == [] {
      NewStores(epoch, now * MS);
    } else {
      assert rs[|rs| - 1] == all[|all| - 2];
    }
    forall k: string
      ensures RouteSim(GoRun(epoch, rs).store, k, QueueOf(WorkerRun(rs).queues, k), NamesAt(names, k), now)
    {
      StartRelated(rs, epoch, WorkerRun(rs), names, k, now);
    }
  }

  lemma NewStores(epoch: string, now: Time)
    ensures GoRun(epoch, []).store == G.NewStore(epoch) && Runs.StoreOk(G.NewStore(epoch), now)
  {
    Runs.NewStoreOk(epoch, now);
  }

  /** A confirmation that is not verbatim finds nothing at the Go store. */
  lemma AstrayAtGo(all: seq<Request>, epoch: string, names: map<string, Names>)
    requires all != [] && WellFormed(all) && all[|all| - 1].ask.Confirm? && !Verbatim(all, |all| - 1)
    requires var rs := all[..|all| - 1]; Sim(rs, GoRun(epoch, rs), WorkerRun(rs), names)
    ensures var rs, a := all[..|all| - 1], all[|all| - 1].ask;
            var g := GoRun(epoch, rs);
            var id := Sent(a, GoLease(g.answers, a));
            Blank(id) || Under(G.Seen(g.store, Key(a.route), all[|all| - 1].now * MS), id) == []
    ensures var rs, a := all[..|all| - 1], all[|all| - 1].ask;
            GoLease(GoRun(epoch, rs).answers, a) == "" ==>
              TrimSpace(Sent(a, WorkerLease(WorkerRun(rs).answers, a))) == ""
  {
    hide Key, RouteSim, Runs.StoreOk, Similar, GoRun, WorkerRun, LeasesApart, Blank, Under, G.Seen, AllSpace, TrimSpace,
      GoLease, WorkerLease, Runs.Issued;
    var rs, a, now := all[..|all| - 1], all[|all| - 1].ask, all[|all| - 1].now;
    var g, w := GoRun(epoch, rs), WorkerRun(rs);
    var lease, name := GoLease(g.answers, a), WorkerLease(w.answers, a);
    BeforeLast(all, epoch, names);
    ConfirmedLease(all, g, w, names);
    assert Reasonable(a);
    if lease == "" && name == "" {
      SpacesTrim(a.before, a.after);
    } else {
      var j := Key(all[a.step].ask.route);
      var k := Key(a.route);
      NamedIsIssued(g.store, j, QueueOf(w.queues, j), NamesAt(names, j), now, lease, name);
      AstrayUnderNothing(g.store, k, QueueOf(w.queues, k), names, a, lease, j, now, ClockBefore(all) * MS);
    }
  }

  lemma SpacesTrim(before: string, after: string)
    requires AllSpace(before) && AllSpace(after)
    ensures TrimSpace(before + "" + after) == "" && Blank(before + "" + after)
  {
    hide TrimSpace, Blank;
    SpaceTrims(before + "" + after);
  }

  lemma NamedIsIssued(s: G.Store, k: string, q: W.Queue, n: Names, now: int, lease: string, name: string)
    requires RouteSim(s, k, q, n, now) && (lease, name) in n.leases
    ensures lease != "" && Runs.Issued(s, lease)
  {
    hide Related, W.Numbered, IdNumber, W.LeaseNumber, OneToOne;
  }

  /** A proper request is answered alike, and leaves its route related. */
  lemma StepSim(all: seq<Request>, epoch: string, names: map<string, Names>) returns (m: Names)
    requires all != [] && WellFormed(all) && Proper(all, |all| - 1)
    requires var rs := all[..|all| - 1]; Sim(rs, GoRun(epoch, rs), WorkerRun(rs), names)
    ensures var rs, r := all[..|all| - 1], all[|all| - 1];
            var g, w, k := GoRun(epoch, rs), WorkerRun(rs), Key(r.ask.route);
            var x := G.Apply(g.store, GoCall(r.ask, Sent(r.ask, GoLease(g.answers, r.ask))), r.now * MS);
            var y := WorkerCall(QueueOf(w.queues, k), r.ask, Sent(r.ask, WorkerLease(w.answers, r.ask)), r.now);
            && Extends(NamesAt(names, k), m) && RouteSim(x.store, k, y.q, m, r.now) && Similar(x.answer, y.answer, m)
            && NewLeasesOnly(g.store, NamesAt(names, k), m)
  {
    hide Key, RouteSim, Runs.StoreOk, Similar, GoRun, WorkerRun, LeasesApart, Blank, Under, G.Seen, TrimSpace, G.Apply,
      W.Take, W.Put, W.Ack, W.Under, W.Loaded, Reasonable, NewLeasesOnly;
    var rs, r := all[..|all| - 1], all[|all| - 1];
    var g, w, k := GoRun(epoch, rs), WorkerRun(rs), Key(r.ask.route);
    var q, n := QueueOf(w.queues, k), NamesAt(names, k);
    var id, name := Sent(r.ask, GoLease(g.answers, r.ask)), Sent(r.ask, WorkerLease(w.answers, r.ask));
    BeforeLast(all, epoch, names);
    assert Reasonable(r.ask);
    if Verbatim(all, |all| - 1) {
      if r.ask.Confirm? {
        ConfirmedLease(all, g, w, names);
        assert id == GoLease(g.answers, r.ask) && name == WorkerLease(w.answers, r.ask);
      }
      m := RequestSim(g.store, q, n, r.ask, id, name, r.now, ClockBefore(all) * MS);
    } else {
      m := n;
      AstrayAtGo(all, epoch, names);
      NothingFoundSim(g.store, q, n, r.ask, id, name, r.now, ClockBefore(all) * MS);
      SameNames(g.store, n);
    }
  }

  lemma SameNames(s: G.Store, n: Names)
    ensures Extends(n, n) && NewLeasesOnly(s, n, n)
  {
  }

  /** An improper confirmation is refused by the Go store, and deletes at the Worker. */
  lemma StepParts(all: seq<Request>, epoch: string, names: map<string, Names>)
    requires all != [] && WellFormed(all) && !Proper(all, |all| - 1)
    requires var rs := all[..|all| - 1]; Sim(rs, GoRun(epoch, rs), WorkerRun(rs), names)
    ensures var g, w := GoRun(epoch, all).answers, WorkerRun(all).answers;
            && |g| == |all| == |w|
            && g[|all| - 1] == G.Refused(G.NoSuchLease)
            && w[|all| - 1] == W.Deleted(|Reached(all, |all| - 1)|) && Reached(all, |all| - 1) != []
  {
    hide Key, Sim, Blank, Under, G.Seen, TrimSpace, G.Apply, W.Under, W.NotUnder, W.Loaded, GoRun, WorkerRun, GoLease,
      WorkerLease, Reasonable, Verbatim, QueueOf, Sent;
    var rs, r := all[..|all| - 1], all[|all| - 1];
    var g := GoRun(epoch, rs);
    AstrayAtGo(all, epoch, names);
    LastAnswers(all, epoch);
    assert ValidRoute(r.ask.route) by { assert Reasonable(r.ask); OnValidRoute(r.ask); }
    var c := GoCall(r.ask, Sent(r.ask, GoLease(g.answers, r.ask)));
    if Blank(c.id) {
      BlankAck(g.store, c, r.now * MS);
    } else {
      AckAnswer(g.store, c, r.now * MS);
    }
  }

  lemma OnValidRoute(a: Ask)
    requires Reasonable(a)
    ensures ValidRoute(a.route)
  {
  }

  lemma LastAnswers(all: seq<Request>, epoch: string)
    requires all != []
    ensures var n, rs, r := |all| - 1, all[..|all| - 1], all[|all| - 1];
            var g, w := GoRun(epoch, rs), WorkerRun(rs);
            var gs, ws := GoRun(epoch, all).answers, WorkerRun(all).answers;
            && |gs| == |all| == |ws|
            && gs[n] == G.Apply(g.store, GoCall(r.ask, Sent(r.ask, GoLease(g.answers, r.ask))), r.now * MS).answer
            && ws[n] == WorkerCall(QueueOf(w.queues, Key(r.ask.route)), r.ask,
                                   Sent(r.ask, WorkerLease(w.answers, r.ask)), r.now).answer
  {
    hide G.Apply, WorkerCall, Key, Sent, GoLease, WorkerLease;
    assert all[..|all|] == all;
    AnswersStay(all, epoch, |all| - 1);
  }

  lemma ExtendSim(all: seq<Request>, epoch: string, names: map<string, Names>) returns (more: map<string, Names>)
    requires all != [] && WellFormed(all) && Proper(all, |all| - 1)
    requires Sim(all[..|all| - 1], GoRun(epoch, all[..|all| - 1]), WorkerRun(all[..|all| - 1]), names)
    ensures Sim(all, GoRun(epoch, all), WorkerRun(all), more)
  {
    hide Key, RouteSim, Runs.StoreOk, Reasonable, Similar, G.Apply, Extends, W.Take, W.Put, W.Ack, Proper, LeasesApart,
      NewLeasesOnly, GoLease, WorkerLease, Sent;
    var rs, r := all[..|all| - 1], all[|all| - 1];
    var g, w, k := GoRun(epoch, rs), WorkerRun(rs), Key(r.ask.route);
    var s, now, clock := g.store, r.now, ClockBefore(all) * MS;
    var m := StepSim(all, epoch, names);
    more := names[k := m];
    BeforeLast(all, epoch, names);
    var c := GoCall(r.ask, Sent(r.ask, GoLease(g.answers, r.ask)));
    var t := G.Apply(s, c, now * MS).store;
    Runs.ApplyOk(s, c, now * MS, clock);
    G.Counters(s, c, now * MS);
    forall j: string ensures RouteSim(t, j, QueueOf(WorkerRun(all).queues, j), NamesAt(more, j), now) {
      if j != k {
        G.OneQueue(s, c, now * MS, j);
        RouteSimLater(s, t, j, QueueOf(w.queues, j), NamesAt(names, j), now, now);
      }
    }
    AnswersExtend(all, g.answers, w.answers, GoRun(epoch, all).answers, WorkerRun(all).answers, names, m);
    if G.Apply(s, c, now * MS).answer.Leased? {
      LeasedMeansHold(s, r.ask, Sent(r.ask, GoLease(g.answers, r.ask)), now * MS);
    }
    forall j: string, p | p in NamesAt(names, j).leases ensures Runs.Issued(s, p.0) && p.0 != "" {
      NamedIsIssued(s, j, QueueOf(w.queues, j), NamesAt(names, j), now, p.0, p.1);
    }
    LeasesStayApart(s, names, k, m);
  }

  /** The earlier answers still agree once a route's renaming has grown, and the new ones join them. */
  lemma AnswersExtend(all: seq<Request>, gs: seq<G.Answer>, ws: seq<W.Answer>, gs': seq<G.Answer>, ws': seq<W.Answer>,
                      names: map<string, Names>, m: Names)
    requires all != [] && |gs| == |ws| == |all| - 1 && |gs'| == |ws'| == |all|
    requires gs'[..|gs|] == gs && ws'[..|ws|] == ws
    requires forall i :: 0 <= i < |gs| ==> Similar(gs[i], ws[i], NamesAt(names, Key(all[..|gs|][i].ask.route)))
    requires var k := Key(all[|gs|].ask.route); Extends(NamesAt(names, k), m) && Similar(gs'[|gs|], ws'[|gs|], m)
    ensures var more := names[Key(all[|gs|].ask.route) := m];
            forall i :: 0 <= i < |all| ==> Similar(gs'[i], ws'[i], NamesAt(more, Key(all[i].ask.route)))
  {
    hide Similar, Extends, Key;
    var k := Key(all[|gs|].ask.route);
    forall i | 0 <= i < |all|
      ensures Similar(gs'[i], ws'[i], NamesAt(names[k := m], Key(all[i].ask.route)))
    {
      if i < |gs| {
        assert gs'[..|gs|][i] == gs'[i] && ws'[..|ws|][i] == ws'[i] && all[..|gs|][i] == all[i];
        if Key(all[i].ask.route) == k { SimilarLater(gs[i], ws[i], NamesAt(names, k), m); }
      }
    }
  }

  /** Before the new request, every route is related at its moment. */
  lemma StartRelated(rs: seq<Request>, epoch: string, w: WorkerSide, names: map<string, Names>, k: string, now: int)
    requires Sim(rs, GoRun(epoch, rs), w, names) && (rs != [] ==> ClockOf(rs) <= now)
    requires rs == [] ==> w == WorkerRun(rs)
    ensures RouteSim(GoRun(epoch, rs).store, k, QueueOf(w.queues, k), NamesAt(names, k), now)
  {
    hide Runs.StoreOk, Similar, NamesOk, W.Numbered;
    var s := GoRun(epoch, rs).store;
    assert RouteSim(s, k, QueueOf(w.queues, k), NamesAt(names, k), ClockOf(rs));
    if rs != [] {
      RouteSimLater(s, s, k, QueueOf(w.queues, k), NamesAt(names, k), ClockOf(rs), now);
    }
  }

  /** Two systems stay in step as long as every acknowledgement is proper, whatever numbers they carry. */
  lemma {:induction false} InStep(rs: seq<Request>, epoch: string) returns (names: map<string, Names>)
    requires WellFormed(rs) && forall i :: 0 <= i < |rs| ==> Proper(rs, i)
    ensures Sim(rs, GoRun(epoch, rs), WorkerRun(rs), names)
  {
    hide Key, Runs.StoreOk, Reasonable, Similar, G.Apply, Related, LeasesApart, Proper;
    if rs == [] {
      names := map[];
      assert LeasesApart(names) by { NoLeasesYet(); }
      forall k: string ensures RouteSim(G.NewStore(epoch), k, W.View(W.Nothing), Names({}, {}), 0) {
        EmptyRelated(epoch, k);
      }
    } else {
      var front := rs[..|rs| - 1];
      forall i | 0 <= i < |front| ensures Proper(front, i) { ProperInFront(rs, |rs| - 1, i); }
      names := InStep(front, epoch);
      names := ExtendSim(rs, epoch, names);
    }
  }

  /** Every number handed over at this step survives the Worker. */
  predicate Carries(rs: seq<Request>, epoch: string, i: nat) {
    i < |GoRun(epoch, rs).answers| ==> AllCarried(GoRun(epoch, rs).answers[i])
  }

  /** Every answer agrees, under renamings that are one to one. */
  ghost predicate AllAgree(rs: seq<Request>, epoch: string, names: map<string, Names>) {
    var g, w := GoRun(epoch, rs), WorkerRun(rs);
    && |g.answers| == |rs| && |w.answers| == |rs|
    && (forall i :: 0 <= i < |rs| ==> Agree(g.answers[i], w.answers[i], NamesAt(names, Key(rs[i].ask.route))))
    && (forall k: string :: OneToOne(NamesAt(names, k).ids) && OneToOne(NamesAt(names, k).leases))
  }

  /**
   For every script of puts, collections, leased collections and acknowledgements on any routes,
   each acknowledgement sent verbatim on its own route or reaching nothing at the Worker and
   each number handed over one that JavaScript carries, the two implementations from empty
   accept and refuse the same puts, deliver the same messages in the same order, and delete
   the same number on each acknowledgement; one renaming per route, one to one on messages and
   on leases, turns all the Go server's names into the Worker's.
   */
  lemma OneBehaviour(rs: seq<Request>, epoch: string) returns (names: map<string, Names>)
    requires WellFormed(rs) && forall i :: 0 <= i < |rs| ==> Proper(rs, i) && Carries(rs, epoch, i)
    ensures AllAgree(rs, epoch, names)
    ensures Sim(rs, GoRun(epoch, rs), WorkerRun(rs), names)
  {
    hide Proper, WellFormed, Sim, Carries;
    names := InStep(rs, epoch);
    SimAgrees(rs, epoch, names);
  }

  lemma SimAgrees(rs: seq<Request>, epoch: string, names: map<string, Names>)
    requires Sim(rs, GoRun(epoch, rs), WorkerRun(rs), names) && forall i :: 0 <= i < |rs| ==> Carries(rs, epoch, i)
    ensures AllAgree(rs, epoch, names)
  {
    hide GoRun, WorkerRun, Similar, Key, Runs.StoreOk, Related, W.Numbered, LeasesApart, OneToOne, AllCarried, Agree;
    forall k: string ensures OneToOne(NamesAt(names, k).ids) && OneToOne(NamesAt(names, k).leases) {
      assert RouteSim(GoRun(epoch, rs).store, k, QueueOf(WorkerRun(rs).queues, k), NamesAt(names, k), ClockOf(rs));
    }
    var g, w := GoRun(epoch, rs).answers, WorkerRun(rs).answers;
    forall i | 0 <= i < |rs| ensures Agree(g[i], w[i], NamesAt(names, Key(rs[i].ask.route))) {
      assert Carries(rs, epoch, i);
      AgreeExactly(g[i], w[i], NamesAt(names, Key(rs[i].ask.route)));
    }
  }

  lemma NoLeasesYet()
    ensures LeasesApart(map[])
  {
  }

  lemma ProperInFront(rs: seq<Request>, n: nat, i: nat)
    requires i < n <= |rs|
    ensures Proper(rs[..n], i) <==> Proper(rs, i)
  {
    hide WorkerRun, W.Under, W.Loaded, TrimSpace, Key;
    assert rs[..n][..i] == rs[..i];
  }

  /** One more request, one more answer. */
  lemma LastAnswer(rs: seq<Request>, epoch: string)
    requires rs != []
    ensures var front := rs[..|rs| - 1];
            && GoRun(epoch, front).answers <= GoRun(epoch, rs).answers
            && |GoRun(epoch, rs).answers| == |GoRun(epoch, front).answers| + 1
            && WorkerRun(front).answers <= WorkerRun(rs).answers
            && |WorkerRun(rs).answers| == |WorkerRun(front).answers| + 1
  {
    hide G.Apply, Key, WorkerCall, GoLease, WorkerLease, Sent, QueueOf;
  }

  lemma {:induction false} OneAnswerEach(rs: seq<Request>, epoch: string)
    ensures |GoRun(epoch, rs).answers| == |rs| && |WorkerRun(rs).answers| == |rs|
  {
    if rs != [] {
      hide GoRun, WorkerRun;
      LastAnswer(rs, epoch);
      OneAnswerEach(rs[..|rs| - 1], epoch);
    }
  }

  /** What was answered stays answered. */
  lemma {:induction false} AnswersStay(rs: seq<Request>, epoch: string, n: nat)
    requires n <= |rs|
    ensures |GoRun(epoch, rs[..n]).answers| == n && |WorkerRun(rs[..n]).answers| == n
    ensures GoRun(epoch, rs[..n]).answers <= GoRun(epoch, rs).answers
    ensures WorkerRun(rs[..n]).answers <= WorkerRun(rs).answers
    decreases |rs|
  {
    hide GoRun, WorkerRun;
    OneAnswerEach(rs[..n], epoch);
    if n == |rs| {
      assert rs[..n] == rs;
    } else {
      var front := rs[..|rs| - 1];
      assert front[..n] == rs[..n];
      AnswersStay(front, epoch, n);
      LastAnswer(rs, epoch);
    }
  }

  /**
   The exact condition: the answers of a whole script agree, under some one-to-one renaming, if
   and only if every acknowledgement in it is sent verbatim on its own route or reaches nothing
   at the Worker, and every number handed over is one that JavaScript carries.
   */
  lemma OneBehaviourExactly(rs: seq<Request>, epoch: string)
    requires WellFormed(rs)
    ensures (exists names :: AllAgree(rs, epoch, names))
       <==> forall i :: 0 <= i < |rs| ==> Proper(rs, i) && Carries(rs, epoch, i)
  {
    hide AllAgree, Proper, WellFormed, Carries, Sim;
    if i :| 0 <= i < |rs| && !Proper(rs, i) {
      var n := FirstImproper(rs);
      Parts(rs, epoch, n);
      forall names ensures !AllAgree(rs, epoch, names) { PartedDisagree(rs, epoch, n, names); }
    } else if i :| 0 <= i < |rs| && !Carries(rs, epoch, i) {
      var known := InStep(rs, epoch);
      forall names ensures !AllAgree(rs, epoch, names) { LostNumberDisagrees(rs, epoch, i, known, names); }
    } else {
      var names := OneBehaviour(rs, epoch);
    }
  }

  /** A number that JavaScript does not carry parts the answers, whatever the names. */
  lemma LostNumberDisagrees(rs: seq<Request>, epoch: string, i: nat, known: map<string, Names>,
                            names: map<string, Names>)
    requires Sim(rs, GoRun(epoch, rs), WorkerRun(rs), known) && i < |rs| && !Carries(rs, epoch, i)
    ensures !AllAgree(rs, epoch, names)
  {
    hide GoRun, WorkerRun, Similar, Key, Runs.StoreOk, RouteSim, LeasesApart, OneToOne, AllCarried, SameNumbers;
    var a, b, n := GoRun(epoch, rs).answers[i], WorkerRun(rs).answers[i], NamesAt(known, Key(rs[i].ask.route));
    AgreeExactly(a, b, n);
  }

  lemma FirstImproper(rs: seq<Request>) returns (n: nat)
    requires exists i :: 0 <= i < |rs| && !Proper(rs, i)
    ensures n < |rs| && !Proper(rs, n) && forall i :: 0 <= i < n ==> Proper(rs, i)
  {
    hide Proper;
    n := 0;
    while Proper(rs, n)
      invariant n < |rs| && (forall i :: 0 <= i < n ==> Proper(rs, i)) && exists i :: n <= i < |rs| && !Proper(rs, i)
      decreases |rs| - n
    {
      n := n + 1;
    }
  }

  lemma Parts(rs: seq<Request>, epoch: string, n: nat)
    requires WellFormed(rs) && n < |rs| && !Proper(rs, n) && forall i :: 0 <= i < n ==> Proper(rs, i)
    ensures n < |GoRun(epoch, rs).answers| && GoRun(epoch, rs).answers[n] == G.Refused(G.NoSuchLease)
    ensures n < |WorkerRun(rs).answers| && WorkerRun(rs).answers[n] == W.Deleted(|Reached(rs, n)|) &&
            Reached(rs, n) != []
  {
    hide Proper, GoRun, WorkerRun, Sim, Reached, Reasonable;
    var all, front := rs[..n + 1], rs[..n];
    forall i | 0 <= i < n ensures Proper(front, i) { ProperInFront(rs, n, i); }
    var names := InStep(front, epoch);
    ProperInFront(rs, n + 1, n);
    assert all[..|all| - 1] == front && all[n] == rs[n];
    StepParts(all, epoch, names);
    AnswersStay(rs, epoch, n + 1);
    assert rs[n].ask.Confirm? by { ImproperConfirms(rs, n); }
    ReachedInFront(rs, n);
  }

  lemma ImproperConfirms(rs: seq<Request>, n: nat)
    requires n < |rs| && !Proper(rs, n)
    ensures rs[n].ask.Confirm?
  {
    hide Reached, Verbatim;
  }

  lemma ReachedInFront(rs: seq<Request>, n: nat)
    requires n < |rs| && rs[n].ask.Confirm?
    ensures Reached(rs[..n + 1], n) == Reached(rs, n)
  {
    hide WorkerRun, W.Under, W.Loaded, TrimSpace, Key;
    assert rs[..n + 1][..n] == rs[..n];
  }

  lemma PartedDisagree(rs: seq<Request>, epoch: string, n: nat, names: map<string, Names>)
    requires n < |rs| && n < |GoRun(epoch, rs).answers| && GoRun(epoch, rs).answers[n] == G.Refused(G.NoSuchLease)
    requires n < |WorkerRun(rs).answers| && WorkerRun(rs).answers[n].Deleted?
    ensures !AllAgree(rs, epoch, names)
  {
    hide GoRun, WorkerRun, Key;
  }

  // ---- Numbers that are carried ----

  predicate QueueCarried(q: Queue) {
    forall m :: m in q ==> Js.Carried(m.rec.seqno)
  }

  /** An operation hands over and leaves only numbers that were there or that it was given. */
  lemma ApplyCarries(s: G.Store, c: G.Call, now: Time)
    requires !c.Sweep? && (c.Put? ==> Js.Carried(c.seqno)) && forall k: string :: QueueCarried(G.At(s, k))
    ensures AllCarried(G.Apply(s, c, now).answer) && forall k: string :: QueueCarried(G.At(G.Apply(s, c, now).store, k))
  {
    hide Key, G.Apply, LeaseId, MessageId, G.After, G.Seen, Taken, Held, Js.Carried, Blank;
    var t, home := G.Apply(s, c, now), Key(c.route);
    if G.Reject(c).Some? {
      G.RefusalChangesNothing(s, c, now);
    } else {
      SeenCarries(s, home, now);
      G.HandedOver(s, c, now);
      G.QueueAfter(s, c, now);
      AfterCarries(s, c, now);
      forall k: string ensures QueueCarried(G.At(t.store, k)) {
        if k != home { G.OneQueue(s, c, now, k); }
      }
    }
  }

  lemma SeenCarries(s: G.Store, k: string, now: Time)
    requires QueueCarried(G.At(s, k))
    ensures QueueCarried(Fresh(G.At(s, k), now)) && QueueCarried(G.Seen(s, k, now))
  {
    hide Js.Carried, OldPrefix;
    var f := Fresh(G.At(s, k), now);
    assert forall m :: m in f ==> m in G.At(s, k);
    assert forall i :: 0 <= i < |f| ==> f[i] in f;
  }

  lemma AfterCarries(s: G.Store, c: G.Call, now: Time)
    requires G.Reject(c).None? && !c.Sweep? && (c.Put? ==> Js.Carried(c.seqno))
    requires QueueCarried(Fresh(G.At(s, Key(c.route)), now)) && QueueCarried(G.Seen(s, Key(c.route), now))
    ensures QueueCarried(G.After(s, c, now))
    ensures c.Take? ==> QueueCarried(Taken(G.Seen(s, Key(c.route), now), c.limit, 0))
    ensures c.TakeLeased? ==>
              QueueCarried(Held(G.Seen(s, Key(c.route), now), c.limit, 0, LeaseId(s.epoch, s.leases + 1), now + c.d))
  {
    hide Key, LeaseId, MessageId, G.Seen, Fresh, Js.Carried, Taken, Held, Kept, Marked, Under, NotUnder, Blank;
    var q := G.Seen(s, Key(c.route), now);
    match c
    case Take(_, limit) => TakenMembers(q, limit, 0);
    case TakeLeased(_, limit, d) => MarkedCarries(q, limit, LeaseId(s.epoch, s.leases + 1), now + d);
    case Ack(_, id) => UnderMembers(q, id);
    case Put(_, _, _, _) =>
    case Depth(_) =>
  }

  lemma MarkedCarries(q: Queue, limit: int, lease: string, until: Time)
    requires QueueCarried(q)
    ensures QueueCarried(Marked(q, limit, 0, lease, until)) && QueueCarried(Held(q, limit, 0, lease, until))
  {
    hide Js.Carried, Taken, Held, Marked;
    MarkedShape(q, limit, 0, lease, until);
    HeldIsTakenMarked(q, limit, 0, lease, until);
    TakenMembers(q, limit, 0);
    assert forall i :: 0 <= i < |q| ==> q[i] in q;
    assert forall i :: 0 <= i < |Taken(q, limit, 0)| ==> Taken(q, limit, 0)[i] in Taken(q, limit, 0);
  }

  /** If JavaScript carries every number put, it carries every number handed over. */
  lemma {:induction false} CarriedPutsCarry(rs: seq<Request>, epoch: string)
    requires forall i :: 0 <= i < |rs| && rs[i].ask.Put? ==> Js.Carried(rs[i].ask.seqno)
    ensures forall i :: 0 <= i < |rs| ==> Carries(rs, epoch, i)
    ensures forall k: string :: QueueCarried(G.At(GoRun(epoch, rs).store, k))
  {
    hide Js.Carried, G.Apply, AllCarried, QueueCarried, GoLease, Sent;
    if rs == [] {
      assert forall k: string :: QueueCarried(G.At(G.NewStore(epoch), k)) by { NothingCarried(epoch); }
    } else {
      var front, r := rs[..|rs| - 1], rs[|rs| - 1];
      CarriedPutsCarry(front, epoch);
      var g := GoRun(epoch, front);
      AnswersStay(rs, epoch, |rs| - 1);
      ApplyCarries(g.store, GoCall(r.ask, Sent(r.ask, GoLease(g.answers, r.ask))), r.now * MS);
      forall i | 0 <= i < |rs| ensures Carries(rs, epoch, i) {
        if i < |g.answers| { assert Carries(front, epoch, i); }
      }
    }
  }

  lemma NothingCarried(epoch: string)
    ensures forall k: string :: QueueCarried(G.At(G.NewStore(epoch), k))
  {
  }

  /** So with numbers up to 2^53, only acknowledgements can part the two. */
  lemma SmallNumbersAgree(rs: seq<Request>, epoch: string)
    requires WellFormed(rs) && forall i :: 0 <= i < |rs| && rs[i].ask.Put? ==> rs[i].ask.seqno <= Js.EXACT
    ensures (exists names :: AllAgree(rs, epoch, names)) <==> forall i :: 0 <= i < |rs| ==> Proper(rs, i)
  {
    hide AllAgree, Proper, WellFormed, Carries, Js.Carried;
    forall i | 0 <= i < |rs| && rs[i].ask.Put? ensures Js.Carried(rs[i].ask.seqno) {
      Js.SmallIsCarried(rs[i].ask.seqno);
    }
    CarriedPutsCarry(rs, epoch);
    OneBehaviourExactly(rs, epoch);
  }

  lemma EmptyRelated(epoch: string, k: string)
    ensures RouteSim(G.NewStore(epoch), k, W.View(W.Nothing), Names({}, {}), 0)
  {
  }
}
