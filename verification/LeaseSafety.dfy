/**
 Collection over whole runs: a leased message is handed to nobody else before its lease ends,
 a collected or acknowledged one is never handed out again, and an acknowledgement deletes
 exactly what its lease still holds.
 */
module LeaseSafety {
  import opened Text
  import opened Messages
  import opened Queues
  import opened Stores
  import opened Runs

  predicate Hands(a: Answer, id: string) {
    exists m :: m in Handed(a) && m.rec.id == id
  }

  /** Any message of that id is held until at least `until`. */
  predicate Blocked(q: Queue, id: string, until: Time) {
    forall m :: m in q && m.rec.id == id ==> m.lease != "" && m.until >= until
  }

  predicate Absent(q: Queue, id: string) {
    forall m :: m in q ==> m.rec.id != id
  }

  /** The counter has passed this id, so no new message gets it. */
  predicate Used(s: Store, id: string) {
    IdNumber(id).Some? && IdNumber(id).value <= s.ids
  }

  /** In a queue in order, an id names one message. */
  lemma IdsUnique(q: Queue, m: Message, n: Message)
    requires AllEarlier(q) && m in q && n in q && m.rec.id == n.rec.id
    ensures m == n
  {
    hide IdNumber;
    var i :| 0 <= i < |q| && q[i] == m;
    var j :| 0 <= j < |q| && q[j] == n;
    assert i == j;
  }

  lemma BlockedSeen(q: Queue, id: string, until: Time, now: Time)
    requires Blocked(q, id, until) && now < until
    ensures Blocked(Fresh(q, now), id, until) && Blocked(Release(Fresh(q, now), now), id, until)
  {
    var f := Fresh(q, now);
    assert forall m :: m in f ==> m in q;
    assert forall i :: 0 <= i < |f| ==> f[i] in f;
  }

  /** A held message is not handed out before its lease ends, and stays held. */
  lemma BlockedStep(s: Store, c: Call, now: Time, clock: Time, k: string, id: string, until: Time)
    requires StoreOk(s, clock) && clock <= now && Used(s, id) && Blocked(At(s, k), id, until) && now < until
    ensures var o := Apply(s, c, now);
            && Blocked(At(o.store, k), id, until) && Used(o.store, id)
            && (!c.Sweep? && Key(c.route) == k ==> !Hands(o.answer, id))
  {
    hide IdNumber, Key, LeaseId, MessageId, Fresh, Release, Blank, Apply, Earlier;
    BlockedSeen(At(s, k), id, until, now);
    Counters(s, c, now);
    if Reject(c).Some? {
      RefusalChangesNothing(s, c, now);
    } else if c.Sweep? {
      SweepAfter(s, now, k);
    } else if Key(c.route) != k {
      OneQueue(s, c, now, k);
    } else {
      QueueAfter(s, c, now);
      HandedOver(s, c, now);
      BlockedOp(s, c, now, k, id, until);
    }
  }

  /** A collector passes over what is held, and marks nothing that is. */
  lemma BlockedLease(q: Queue, limit: int, lease: string, end: Time, id: string, until: Time)
    requires Blocked(q, id, until)
    ensures Absent(Taken(q, limit, 0), id) && Absent(Held(q, limit, 0, lease, end), id)
    ensures Blocked(Marked(q, limit, 0, lease, end), id, until)
  {
    hide Taken, Held, Marked;
    TakenMembers(q, limit, 0);
    HeldIsTakenMarked(q, limit, 0, lease, end);
    MarkedShape(q, limit, 0, lease, end);
    var taken := Taken(q, limit, 0);
    assert forall i :: 0 <= i < |taken| ==> taken[i] in taken;
    assert forall i :: 0 <= i < |q| ==> q[i] in q;
  }

  lemma BlockedOp(s: Store, c: Call, now: Time, k: string, id: string, until: Time)
    requires Reject(c).None? && !c.Sweep? && k == Key(c.route) && Used(s, id)
    requires Blocked(Fresh(At(s, k), now), id, until) && Blocked(Seen(s, k, now), id, until)
    ensures Blocked(After(s, c, now), id, until)
    ensures c.Take? ==> Absent(Taken(Seen(s, k, now), c.limit, 0), id)
    ensures c.TakeLeased? ==>
              Absent(Held(Seen(s, k, now), c.limit, 0, LeaseId(s.epoch, s.leases + 1), now + c.d), id)
  {
    hide IdNumber, Key, LeaseId, MessageId, Fresh, Release, Blank, Seen, Taken, Held, Marked, Kept, Under, NotUnder;
    var q := Seen(s, k, now);
    match c
    case Take(_, limit) =>
      TakenMembers(q, limit, 0);
      BlockedLease(q, limit, "", 0, id, until);
    case TakeLeased(_, limit, d) => BlockedLease(q, limit, LeaseId(s.epoch, s.leases + 1), now + d, id, until);
    case Ack(_, lease) => UnderMembers(q, lease);
    case Put(_, _, _, _) => assert IdNumber(MessageId(s.ids + 1)) == Some(s.ids + 1);
    case Depth(_) =>
  }

  lemma {:induction false} BlockedRun(run: Run, i: nat, j: nat, k: string, id: string, until: Time)
    requires Sound(run) && i <= j < |run.cs| && run.cs[j].now < until
    requires Used(StateAt(run, i), id) && Blocked(At(StateAt(run, i), k), id, until)
    ensures Used(StateAt(run, j), id) && Blocked(At(StateAt(run, j), k), id, until)
  {
    hide Apply, Used, Blocked, StoreOk, StateAt;
    if i < j {
      assert ClockAt(run, j) <= run.cs[j].now;
      BlockedRun(run, i, j - 1, k, id, until);
      RunOk(run, j - 1);
      StateStep(run, j - 1);
      BlockedStep(StateAt(run, j - 1), run.cs[j - 1].call, run.cs[j - 1].now, ClockAt(run, j - 1), k, id, until);
    }
  }

  /** What a leased collection hands out is held in the queue under its lease. */
  lemma LeaseBlocks(s: Store, c: Call, now: Time, clock: Time, id: string)
    requires StoreOk(s, clock) && clock <= now && c.TakeLeased? && Hands(Apply(s, c, now).answer, id)
    ensures var o := Apply(s, c, now);
            && Used(o.store, id) && o.answer.Leased?
            && !Absent(At(o.store, Key(c.route)), id) && Blocked(At(o.store, Key(c.route)), id, o.answer.until)
  {
    hide IdNumber, Key, LeaseId, MessageId, Fresh, Release, Earlier, Seen, Marked, Held;
    var o, k, lease := Apply(s, c, now), Key(c.route), LeaseId(s.epoch, s.leases + 1);
    HandedOver(s, c, now);
    QueueAfter(s, c, now);
    ApplyOk(s, c, now, clock);
    assert RouteOk(o.store, k, now);
    var q := Seen(s, k, now);
    HeldIsMarked(q, c.limit, 0, lease, now + c.d);
    LeaseIdNotBlank(s.epoch, s.leases + 1);
    var m :| m in Handed(o.answer) && m.rec.id == id;
    assert m in At(o.store, k);
    forall n | n in At(o.store, k) && n.rec.id == id
      ensures n == m
    {
      IdsUnique(At(o.store, k), n, m);
    }
  }

  // ---- Never twice ----

  lemma AbsentStep(s: Store, c: Call, now: Time, clock: Time, k: string, id: string)
    requires StoreOk(s, clock) && clock <= now && Used(s, id) && Absent(At(s, k), id)
    ensures var o := Apply(s, c, now);
            && Absent(At(o.store, k), id) && Used(o.store, id)
            && (!c.Sweep? && Key(c.route) == k ==> !Hands(o.answer, id))
  {
    hide Apply, StoreOk;
    var late := if now < 0 then 1 else now + 1;
    BlockedStep(s, c, now, clock, k, id, late);
    AbsentStays(s, c, now, k, id);
  }

  lemma AbsentStays(s: Store, c: Call, now: Time, k: string, id: string)
    requires Used(s, id) && Absent(At(s, k), id)
    ensures Absent(At(Apply(s, c, now).store, k), id)
  {
    hide IdNumber, Key, LeaseId, MessageId, Blank, Apply;
    var f := Fresh(At(s, k), now);
    assert Absent(f, id) && Absent(Release(f, now), id) by {
      assert forall m :: m in f ==> m in At(s, k);
      assert forall i :: 0 <= i < |f| ==> f[i] in f;
    }
    if Reject(c).Some? {
      RefusalChangesNothing(s, c, now);
    } else if c.Sweep? {
      SweepAfter(s, now, k);
    } else if Key(c.route) != k {
      OneQueue(s, c, now, k);
    } else {
      QueueAfter(s, c, now);
      AbsentOp(s, c, now, k, id);
    }
  }

  lemma AbsentOp(s: Store, c: Call, now: Time, k: string, id: string)
    requires Reject(c).None? && !c.Sweep? && k == Key(c.route) && Used(s, id)
    requires Absent(Fresh(At(s, k), now), id) && Absent(Seen(s, k, now), id)
    ensures Absent(After(s, c, now), id)
  {
    hide IdNumber, Key, LeaseId, MessageId, Fresh, Release, Blank, Seen;
    var q := Seen(s, k, now);
    match c
    case Take(_, limit) => TakenMembers(q, limit, 0);
    case TakeLeased(_, limit, d) =>
      MarkedShape(q, limit, 0, LeaseId(s.epoch, s.leases + 1), now + d);
      assert forall i :: 0 <= i < |q| ==> q[i] in q;
    case Ack(_, lease) => UnderMembers(q, lease);
    case Put(_, _, _, _) => assert IdNumber(MessageId(s.ids + 1)) == Some(s.ids + 1);
    case Depth(_) =>
  }

  lemma {:induction false} AbsentRun(run: Run, i: nat, j: nat, k: string, id: string)
    requires Sound(run) && i <= j < |run.cs|
    requires Used(StateAt(run, i), id) && Absent(At(StateAt(run, i), k), id)
    ensures Used(StateAt(run, j), id) && Absent(At(StateAt(run, j), k), id)
  {
    hide Apply, Used, Absent, StoreOk, StateAt;
    if i < j {
      AbsentRun(run, i, j - 1, k, id);
      RunOk(run, j - 1);
      StateStep(run, j - 1);
      AbsentStep(StateAt(run, j - 1), run.cs[j - 1].call, run.cs[j - 1].now, ClockAt(run, j - 1), k, id);
    }
  }

  /** The operation takes a message of that id off its route for good. */
  predicate Finishes(s: Store, c: Call, now: Time, id: string) {
    && Reject(c).None?
    && match c
       case Take(r, limit) => exists m :: m in Taken(Seen(s, Key(r), now), limit, 0) && m.rec.id == id
       case Ack(r, lease) => exists m :: m in Under(Seen(s, Key(r), now), lease) && m.rec.id == id
       case _ => false
  }

  lemma FinishedIsAbsent(s: Store, c: Call, now: Time, clock: Time, id: string)
    requires StoreOk(s, clock) && clock <= now && Finishes(s, c, now, id)
    ensures var t := Apply(s, c, now).store; Used(t, id) && Absent(At(t, Key(c.route)), id)
    ensures Used(s, id) && !Absent(At(s, Key(c.route)), id)
  {
    hide IdNumber, Key, Fresh, Release, Earlier, Seen, Blank, Apply;
    var k := Key(c.route);
    var q := Seen(s, k, now);
    assert RouteOk(s, k, clock);
    SeenOk(s, k, now, clock);
    QueueAfter(s, c, now);
    Counters(s, c, now);
    var out := if c.Take? then Taken(q, c.limit, 0) else Under(q, c.id);
    if c.Take? { TakeMerges(q, c.limit, 0); } else { AckMerges(q, c.id); }
    var m :| m in out && m.rec.id == id;
    MergeMembers(q, After(s, c, now), out);
    SeenWasThere(s, k, now, m);
    MergeRemaining(q, After(s, c, now), out);
    forall n | n in After(s, c, now)
      ensures n.rec.id != id
    {
      if n.rec.id == id {
        IdsUnique(q, n, m);
        SharesRecord(After(s, c, now), out, m);
      }
    }
  }

  lemma SharesRecord(a: Queue, b: Queue, m: Message)
    requires m in a && m in b
    ensures !(RecSet(a) !! RecSet(b))
  {
    var i :| 0 <= i < |a| && a[i] == m;
    var j :| 0 <= j < |b| && b[j] == m;
    assert Recs(a)[i] in Recs(a) && Recs(b)[j] in Recs(b);
    assert m.rec in RecSet(a) && m.rec in RecSet(b);
  }

  lemma SeenWasThere(s: Store, k: string, now: Time, m: Message)
    requires m in Seen(s, k, now)
    ensures !Absent(At(s, k), m.rec.id)
  {
    var f := Fresh(At(s, k), now);
    var i :| 0 <= i < |f| && Seen(s, k, now)[i] == m;
    assert f[i] in At(s, k) && f[i].rec == m.rec;
  }

  // ---- Over runs, on every route ----

  /** An id in one queue is in no other. */
  lemma ElsewhereAbsent(s: Store, j: string, k: string, id: string)
    requires IdsApart(s) && j != k && !Absent(At(s, j), id)
    ensures Absent(At(s, k), id)
  {
  }

  /** One operation never brings an id onto a second route. */
  lemma ApartStep(s: Store, c: Call, now: Time, clock: Time)
    requires StoreOk(s, clock) && clock <= now && IdsApart(s)
    ensures IdsApart(Apply(s, c, now).store)
  {
    hide Apply, IdNumber, Earlier, AllEarlier, LeasesIssued, Key;
    var t := Apply(s, c, now).store;
    ApplyOk(s, c, now, clock);
    Counters(s, c, now);
    forall j: string, k: string, m, n | j != k && m in At(t, j) && n in At(t, k)
      ensures m.rec.id != n.rec.id
    {
      var id := m.rec.id;
      assert RouteOk(t, j, now) && RouteOk(s, j, clock) && RouteOk(s, k, clock);
      if id == n.rec.id {
        if Used(s, id) {
          var there := if Absent(At(s, k), id) then k else j;
          AbsentStays(s, c, now, there, id);
        } else if c.Sweep? || j != Key(c.route) {
          KeptElsewhere(s, c, now, j);
        } else {
          KeptElsewhere(s, c, now, k);
        }
      }
    }
  }

  lemma KeptElsewhere(s: Store, c: Call, now: Time, k: string)
    requires c.Sweep? || k != Key(c.route)
    ensures forall m :: m in At(Apply(s, c, now).store, k) ==> m in At(s, k)
  {
    hide Apply, Key;
    if c.Sweep? {
      SweepAfter(s, now, k);
    } else {
      OneQueue(s, c, now, k);
    }
  }

  lemma {:induction false} RunApart(run: Run, i: nat)
    requires Sound(run) && i <= |run.cs|
    ensures IdsApart(StateAt(run, i))
  {
    hide Apply, StoreOk, IdsApart;
    if i == 0 {
      assert run.cs[..0] == [];
    } else {
      RunApart(run, i - 1);
      RunOk(run, i - 1);
      StateStep(run, i - 1);
      ApartStep(StateAt(run, i - 1), run.cs[i - 1].call, run.cs[i - 1].now, ClockAt(run, i - 1));
    }
  }

  /** A used id that is absent from a route at one moment is not handed out there later. */
  lemma AbsentNotHanded(run: Run, i: nat, j: nat, k: string, id: string)
    requires Sound(run) && i <= j < |run.cs| && !run.cs[j].call.Sweep? && Key(run.cs[j].call.route) == k
    requires Used(StateAt(run, i), id) && Absent(At(StateAt(run, i), k), id)
    ensures !Hands(AnswerAt(run, j), id)
  {
    hide Apply, StoreOk, Used, Absent, StateAt, Hands;
    RunOk(run, j);
    AbsentRun(run, i, j, k, id);
    AbsentStep(StateAt(run, j), run.cs[j].call, run.cs[j].now, ClockAt(run, j), k, id);
  }

  lemma SweepHandsNothing(run: Run, j: nat, id: string)
    requires j < |run.cs| && run.cs[j].call.Sweep?
    ensures !Hands(AnswerAt(run, j), id)
  {
    hide Apply, StateAt;
    HandedOver(StateAt(run, j), run.cs[j].call, run.cs[j].now);
  }

  /**
   Lease exclusion: if a message was handed out under a lease ending at `until`, no later
   operation of the run, on any route, leased or not, hands it out before then.
   */
  lemma LeaseExclusion(run: Run, i: nat, j: nat, id: string)
    requires Sound(run) && i < j < |run.cs|
    requires run.cs[i].call.TakeLeased? && Hands(AnswerAt(run, i), id)
    ensures AnswerAt(run, i).Leased?
    ensures run.cs[j].now < AnswerAt(run, i).until ==> !Hands(AnswerAt(run, j), id)
  {
    hide Apply, StoreOk, Used, Blocked, Absent, StateAt, Hands, IdsApart;
    RunOk(run, i);
    RunOk(run, j);
    RunApart(run, i + 1);
    StateStep(run, i);
    LeaseBlocks(StateAt(run, i), run.cs[i].call, run.cs[i].now, ClockAt(run, i), id);
    var k, until := Key(run.cs[i].call.route), AnswerAt(run, i).until;
    if run.cs[j].call.Sweep? {
      SweepHandsNothing(run, j, id);
    } else if Key(run.cs[j].call.route) != k {
      ElsewhereAbsent(StateAt(run, i + 1), k, Key(run.cs[j].call.route), id);
      AbsentNotHanded(run, i + 1, j, Key(run.cs[j].call.route), id);
    } else if run.cs[j].now < until {
      BlockedRun(run, i + 1, j, k, id, until);
      BlockedStep(StateAt(run, j), run.cs[j].call, run.cs[j].now, ClockAt(run, j), k, id, until);
    }
  }

  /** Once taken destructively or acknowledged, a message is never handed out again in the run, on any route. */
  lemma NeverAgain(run: Run, i: nat, j: nat, id: string)
    requires Sound(run) && i < j < |run.cs|
    requires Finishes(StateAt(run, i), run.cs[i].call, run.cs[i].now, id)
    ensures !Hands(AnswerAt(run, j), id)
  {
    hide Apply, StoreOk, Used, Absent, StateAt, Hands, IdsApart, Finishes;
    RunOk(run, i);
    RunApart(run, i);
    StateStep(run, i);
    assert !run.cs[i].call.Sweep? by { FinishesSomewhere(StateAt(run, i), run.cs[i].call, run.cs[i].now, id); }
    FinishedIsAbsent(StateAt(run, i), run.cs[i].call, run.cs[i].now, ClockAt(run, i), id);
    var k := Key(run.cs[i].call.route);
    if run.cs[j].call.Sweep? {
      SweepHandsNothing(run, j, id);
    } else if Key(run.cs[j].call.route) != k {
      ElsewhereAbsent(StateAt(run, i), k, Key(run.cs[j].call.route), id);
      AbsentNotHanded(run, i, j, Key(run.cs[j].call.route), id);
    } else {
      AbsentNotHanded(run, i + 1, j, k, id);
    }
  }

  lemma FinishesSomewhere(s: Store, c: Call, now: Time, id: string)
    requires Finishes(s, c, now, id)
    ensures !c.Sweep?
  {
  }

  // ---- Ids ----

  lemma PutNumbers(s: Store, c: Call, now: Time)
    ensures var o := Apply(s, c, now);
            o.answer.Accepted? ==> o.store.ids == s.ids + 1 && o.answer.rec.id == MessageId(s.ids + 1)
  {
    hide Key, MessageId, Fresh, Release, Kept, Taken, Marked, Held, Under, NotUnder, Blank, LeaseId, SweepAll;
  }

  lemma {:induction false} IdsGrow(run: Run, i: nat, j: nat)
    requires i <= j <= |run.cs|
    ensures StateAt(run, i).ids <= StateAt(run, j).ids
  {
    hide Apply, StateAt;
    if i < j {
      IdsGrow(run, i, j - 1);
      StateStep(run, j - 1);
      Counters(StateAt(run, j - 1), run.cs[j - 1].call, run.cs[j - 1].now);
    }
  }

  /** An accepted message's id exceeds every id given before it in the run, and every id in the store. */
  lemma IdsNeverReused(run: Run, j: nat)
    requires Sound(run) && j < |run.cs| && AnswerAt(run, j).Accepted?
    ensures IdNumber(AnswerAt(run, j).rec.id).Some?
    ensures forall i :: 0 <= i < j && AnswerAt(run, i).Accepted? ==>
            IdOf(AnswerAt(run, i).rec) < IdOf(AnswerAt(run, j).rec)
    ensures forall k: string, m :: m in At(StateAt(run, j), k) ==> IdOf(m.rec) < IdOf(AnswerAt(run, j).rec)
  {
    hide Apply, StateAt, MessageId, IdNumber;
    RunOk(run, j);
    PutNumbers(StateAt(run, j), run.cs[j].call, run.cs[j].now);
    forall i | 0 <= i < j && AnswerAt(run, i).Accepted?
      ensures IdOf(AnswerAt(run, i).rec) < IdOf(AnswerAt(run, j).rec)
    {
      PutNumbers(StateAt(run, i), run.cs[i].call, run.cs[i].now);
      StateStep(run, i);
      IdsGrow(run, i + 1, j);
    }
    forall k: string, m | m in At(StateAt(run, j), k)
      ensures IdOf(m.rec) < IdOf(AnswerAt(run, j).rec)
    {
      assert RouteOk(StateAt(run, j), k, ClockAt(run, j));
    }
  }

  // ---- Refusals ----

  /** A route that names nothing, or goes no known way. */
  predicate NoRoute(r: Route) {
    r.estate == "" || r.station == "" || (r.dir != "c2s" && r.dir != "s2c")
  }

  /**
   What is refused before anything else, and why: a bad route; then, on a good one, a body over
   eight mebibytes, a lease of no time or of more than five minutes, a blank lease id. None of
   these refusals changes the store.
   */
  lemma RefusalsExactly(s: Store, c: Call, now: Time)
    requires !c.Depth? && !c.Sweep?
    ensures var o, no := Apply(s, c, now), NoRoute(c.route);
            && (o.answer == Refused(BadRoute) <==> no)
            && (o.answer == Refused(TooLarge) <==> c.Put? && !no && |c.body| > 8 * 1024 * 1024)
            && (o.answer == Refused(BadLease) <==> c.TakeLeased? && !no && c.d <= 0)
            && (o.answer == Refused(LeaseTooLong) <==> c.TakeLeased? && !no && c.d > 5 * 60 * 1_000_000_000)
            && (c.Ack? && !no && Blank(c.id) ==> o.answer == Refused(NoSuchLease))
            && (no || (c.Put? && |c.body| > 8 * 1024 * 1024) || (c.Ack? && Blank(c.id)) ==> o.store == s)
            && (c.TakeLeased? && (c.d <= 0 || c.d > 5 * 60 * 1_000_000_000) ==> o.store == s)
  {
    hide Key, Blank, LeaseId, MessageId, Prepared, Kept, Taken, Marked, Held, Under, NotUnder, Release;
  }

  // ---- Acceptance ----

  /**
   A put is accepted exactly when its route is valid, its body fits, the route has fewer than
   256 messages that are young enough, and the spool, if any, has it; it then stands last,
   free, behind all of those. Refused after expiry, it leaves just those.
   */
  lemma PutPrecision(s: Store, c: Call, now: Time, clock: Time)
    requires StoreOk(s, clock) && c.Put?
    ensures var young := FilterFresh(At(s, Key(c.route)), now);
            Apply(s, c, now).store.ids ==
              if !NoRoute(c.route) && |c.body| <= 8 * 1024 * 1024 && |young| < 256 then s.ids + 1 else s.ids
    ensures var o, k := Apply(s, c, now), Key(c.route);
            var young := FilterFresh(At(s, k), now);
            if NoRoute(c.route) then o == Outcome(s, Refused(BadRoute))
            else if |c.body| > 8 * 1024 * 1024 then o == Outcome(s, Refused(TooLarge))
            else if |young| >= 256 then At(o.store, k) == young && o.answer == Refused(QueueFull)
            else if c.file.None? then At(o.store, k) == young && o.answer == Refused(NotDurable)
            else
              && o.answer.Accepted?
              && o.answer.rec == Record("m" + Dec(s.ids + 1), c.route, c.seqno, c.body, now)
              && At(o.store, k) == young + [Message(o.answer.rec, c.file.value, "", 0)]
  {
    hide Key, Fresh, FilterFresh, IdOf, Numbered, LeasesIssued, Dec;
    var k := Key(c.route);
    assert RouteOk(s, k, clock);
    ArrivalOrderExpires(At(s, k), now);
    assert At(Prepared(s, c, now), k) == Fresh(At(s, k), now);
  }

  /** The depth of a route counts its young messages, held ones included. */
  lemma DepthCountsYoung(s: Store, r: Route, now: Time, clock: Time)
    requires StoreOk(s, clock)
    ensures Apply(s, Depth(r), now).answer == Waiting(|FilterFresh(At(s, Key(r)), now)|)
  {
    hide Key, Fresh, FilterFresh, IdOf, Numbered, LeasesIssued;
    assert RouteOk(s, Key(r), clock);
    ArrivalOrderExpires(At(s, Key(r)), now);
    assert At(Prepared(s, Depth(r), now), Key(r)) == Fresh(At(s, Key(r)), now);
  }

  // ---- Collection ----

  /** What a collector may have at `now`: the messages that are young enough and that no live lease holds. */
  function Free(q: Queue, now: Time): Queue {
    if q == [] then []
    else if TooOld(q[0], now) || (q[0].lease != "" && q[0].until > now) then Free(q[1..], now)
    else [q[0]] + Free(q[1..], now)
  }

  lemma {:induction false} FreeIsAvailable(q: Queue, now: Time)
    ensures Available(Release(FilterFresh(q, now), now)) == Release(Free(q, now), now)
  {
    if q != [] {
      FreeIsAvailable(q[1..], now);
      var young, free := FilterFresh(q[1..], now), Free(q[1..], now);
      if !TooOld(q[0], now) {
        ReleaseCons(q[0], young, now);
        ReleaseCons(q[0], free, now);
      }
    }
  }

  lemma ReleaseCons(m: Message, q: Queue, now: Time)
    ensures Release([m] + q, now) == [ReleaseOne(m, now)] + Release(q, now)
    ensures Release([m] + q, now)[1..] == Release(q, now)
  {
    assert Release([m] + q, now) == [ReleaseOne(m, now)] + Release(q, now);
  }

  /**
   A collection, leased or not, hands over the first messages free at its moment, in queue
   order, as many as its limit allows; a leased one marks each with its own lease and deadline,
   and names no lease when it hands over nothing.
   */
  lemma CollectionPrecision(s: Store, c: Call, now: Time, clock: Time)
    requires StoreOk(s, clock) && (c.Take? || c.TakeLeased?) && Reject(c).None?
    ensures var a, free := Apply(s, c, now).answer, Release(Free(At(s, Key(c.route)), now), now);
            var got := free[..Room(c.limit, 0, |free|)];
            if c.Take? then a == Delivered(got)
            else
              && a.Leased? && |a.msgs| == |got|
              && (forall i :: 0 <= i < |got| ==> a.msgs[i] == MarkOne(got[i], a.lease, now + c.d))
              && (if got == [] then a.lease == ""
                  else a.lease == s.epoch + "-" + Dec(s.leases + 1) && a.until == now + c.d)
  {
    hide Key, Release, Fresh, FilterFresh, Free, Available, Taken, Held, IdOf, Numbered, LeasesIssued;
    var k := Key(c.route);
    assert RouteOk(s, k, clock);
    ArrivalOrderExpires(At(s, k), now);
    FreeIsAvailable(At(s, k), now);
    var q := Seen(s, k, now);
    TakenIsFirstAvailable(q, c.limit, 0);
    assert At(Prepared(s, c, now), k) == Fresh(At(s, k), now);
    if c.TakeLeased? {
      HeldIsTakenMarked(q, c.limit, 0, LeaseId(s.epoch, s.leases + 1), now + c.d);
    }
  }

  lemma {:induction false} MarksWhatItHands(q: Queue, limit: int, n: nat, id: string, until: Time)
    requires forall m :: m in q ==> m.lease != id
    ensures Under(Marked(q, limit, n, id, until), id) == Held(q, limit, n, id, until)
  {
    if q != [] {
      assert q[0] in q && forall m :: m in q[1..] ==> m in q;
      if q[0].lease != "" {
        MarksWhatItHands(q[1..], limit, n, id, until);
      } else if Enough(limit, n) {
        NobodyUnder(q, id);
      } else {
        MarksWhatItHands(q[1..], limit, n + 1, id, until);
      }
    }
  }

  lemma {:induction false} NobodyUnder(q: Queue, id: string)
    requires forall m :: m in q ==> m.lease != id
    ensures Under(q, id) == []
  {
    if q != [] {
      assert q[0] in q && forall m :: m in q[1..] ==> m in q;
      NobodyUnder(q[1..], id);
    }
  }

  /** What a leased collection leaves under its lease is exactly what it handed out. */
  lemma LeaseHoldsWhatItHanded(s: Store, c: Call, now: Time, clock: Time)
    requires StoreOk(s, clock) && clock <= now && c.TakeLeased? && Reject(c).None?
    ensures var o := Apply(s, c, now);
            Under(At(o.store, Key(c.route)), LeaseId(s.epoch, s.leases + 1)) == Handed(o.answer)
  {
    hide Key, Seen, Fresh, Release, Under, Marked, Held, LeaseId, Apply, Issued, AllEarlier, Numbered;
    var k, id := Key(c.route), LeaseId(s.epoch, s.leases + 1);
    assert RouteOk(s, k, clock);
    SeenOk(s, k, now, clock);
    QueueAfter(s, c, now);
    HandedOver(s, c, now);
    forall m | m in Seen(s, k, now) ensures m.lease != id { NotYetIssued(s, m.lease); }
    MarksWhatItHands(Seen(s, k, now), c.limit, 0, id, now + c.d);
  }

  lemma NotYetIssued(s: Store, lease: string)
    requires Issued(s, lease)
    ensures lease != LeaseId(s.epoch, s.leases + 1)
  {
    LeaseIdNotBlank(s.epoch, s.leases + 1);
    if lease == LeaseId(s.epoch, s.leases + 1) {
      var n :| 1 <= n <= s.leases && lease == LeaseId(s.epoch, n);
      LeaseIdInjective(s.epoch, n, s.epoch, s.leases + 1);
    }
  }

  // ---- Acknowledgement ----

  /** The lease `id` still holds the message at `now`. */
  predicate HeldUnder(m: Message, id: string, now: Time) {
    m.lease == id && m.until > now
  }

  function NotHeldUnder(q: Queue, id: string, now: Time): (r: Queue)
    ensures |r| <= |q|
  {
    if q == [] then []
    else if HeldUnder(q[0], id, now) then NotHeldUnder(q[1..], id, now)
    else [q[0]] + NotHeldUnder(q[1..], id, now)
  }

  lemma {:induction false} AckRemovesHeld(q: Queue, id: string, now: Time)
    requires id != ""
    ensures NotUnder(Release(q, now), id) == Release(NotHeldUnder(q, id, now), now)
    ensures |Under(Release(q, now), id)| == |q| - |NotHeldUnder(q, id, now)|
  {
    if q != [] {
      AckRemovesHeld(q[1..], id, now);
      assert Release(q, now)[1..] == Release(q[1..], now);
      var rest := NotHeldUnder(q[1..], id, now);
      assert Release([q[0]] + rest, now) == [ReleaseOne(q[0], now)] + Release(rest, now);
    }
  }

  /**
   Acknowledging deletes exactly the messages of the route that the lease holds and that have
   not expired, answers their number, and leaves every other message in place; when it holds
   none, the answer is a refusal and only expiry has happened.
   */
  lemma AckPrecision(s: Store, r: Route, id: string, now: Time)
    requires ValidRoute(r) && !Blank(id)
    ensures var o := Apply(s, Ack(r, id), now);
            var q := Fresh(At(s, Key(r)), now);
            var rest := NotHeldUnder(q, id, now);
            && At(o.store, Key(r)) == Release(rest, now)
            && o.answer == (if |rest| == |q| then Refused(NoSuchLease) else Deleted(|q| - |rest|))
            && forall k: string :: k != Key(r) ==> At(o.store, k) == At(s, k)
  {
    hide Key, Fresh, Release, Blank, Under, NotUnder, NotHeldUnder;
    var c, k := Ack(r, id), Key(r);
    var q := Fresh(At(s, k), now);
    assert id != "" by { BlankEmpty(); }
    AckRemovesHeld(q, id, now);
    QueueAfter(s, c, now);
    forall j: string | j != k ensures At(Apply(s, c, now).store, j) == At(s, j) { OneQueue(s, c, now, j); }
    assert At(Prepared(s, c, now), k) == q;
  }

  lemma {:induction false} NobodyHolds(q: Queue, id: string, now: Time)
    requires forall m :: m in q ==> m.lease != id
    ensures NotHeldUnder(q, id, now) == q
  {
    if q != [] {
      assert q[0] in q && forall m :: m in q[1..] ==> m in q;
      NobodyHolds(q[1..], id, now);
    }
  }

  /**
   An acknowledgement from another run of the process deletes nothing: lease ids carry the
   run's epoch, so whatever the later collectors hold, the old id matches none of it.
   */
  lemma StaleAckIsRefused(run: Run, i: nat, oldEpoch: string, n: nat)
    requires Sound(run) && i < |run.cs| && run.cs[i].call.Ack? && ValidRoute(run.cs[i].call.route)
    requires run.cs[i].call.id == LeaseId(oldEpoch, n) && oldEpoch != run.start.epoch
    ensures AnswerAt(run, i) == Refused(NoSuchLease)
    ensures var s, k := StateAt(run, i), Key(run.cs[i].call.route);
            At(StateAt(run, i + 1), k) == Release(Fresh(At(s, k), run.cs[i].now), run.cs[i].now)
  {
    hide Apply, LeaseId, Key, StateAt, Release, Fresh, Blank;
    RunOk(run, i);
    StateStep(run, i);
    EpochStays(run, i);
    var s, k, id, now := StateAt(run, i), Key(run.cs[i].call.route), run.cs[i].call.id, run.cs[i].now;
    LeaseIdNotBlank(oldEpoch, n);
    AckPrecision(s, run.cs[i].call.route, id, now);
    assert RouteOk(s, k, ClockAt(run, i));
    forall m | m in Fresh(At(s, k), now)
      ensures m.lease != id
    {
      FreshMember(At(s, k), now, m);
      ForeignLease(s, m.lease, oldEpoch, n);
    }
    NobodyHolds(Fresh(At(s, k), now), id, now);
  }

  lemma FreshMember(q: Queue, now: Time, m: Message)
    requires m in Fresh(q, now)
    ensures m in q
  {
  }

  lemma ForeignLease(s: Store, lease: string, oldEpoch: string, n: nat)
    requires Issued(s, lease) && oldEpoch != s.epoch
    ensures lease != LeaseId(oldEpoch, n)
  {
    LeaseIdNotBlank(oldEpoch, n);
    if lease == LeaseId(oldEpoch, n) {
      var j :| 1 <= j <= s.leases && lease == LeaseId(s.epoch, j);
      LeaseIdInjective(oldEpoch, n, s.epoch, j);
    }
  }

  lemma {:induction false} EpochStays(run: Run, i: nat)
    requires i <= |run.cs|
    ensures StateAt(run, i).epoch == run.start.epoch
  {
    hide Apply;
    if i == 0 {
      assert run.cs[..0] == [];
    } else {
      EpochStays(run, i - 1);
      StateStep(run, i - 1);
      Counters(StateAt(run, i - 1), run.cs[i - 1].call, run.cs[i - 1].now);
    }
  }
}
