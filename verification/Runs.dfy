/**
 What the Go store guarantees over whole runs of one process: any sequence of operations, on
 any routes, under a clock that never goes back.
 */
module Runs {
  import opened Text
  import opened Messages
  import opened Queues
  import opened Stores

  datatype Timed = Timed(now: Time, call: Call)

  /** A process run: the store it starts with, when, and what is asked of it. */
  datatype Run = Run(start: Store, t0: Time, cs: seq<Timed>)

  function ExecAll(s: Store, cs: seq<Timed>): Store {
    if cs == [] then s
    else Apply(ExecAll(s, cs[..|cs| - 1]), cs[|cs| - 1].call, cs[|cs| - 1].now).store
  }

  /** The store the i-th operation runs on. */
  function StateAt(run: Run, i: nat): Store
    requires i <= |run.cs|
  {
    ExecAll(run.start, run.cs[..i])
  }

  /** What the i-th operation answers. */
  function AnswerAt(run: Run, i: nat): Answer
    requires i < |run.cs|
  {
    Apply(StateAt(run, i), run.cs[i].call, run.cs[i].now).answer
  }

  lemma StateStep(run: Run, i: nat)
    requires i < |run.cs|
    ensures StateAt(run, i + 1) == Apply(StateAt(run, i), run.cs[i].call, run.cs[i].now).store
  {
    assert run.cs[..i + 1][..i] == run.cs[..i];
  }

  /** The latest moment the run has reached before its i-th operation. */
  function ClockAt(run: Run, i: nat): Time
    requires i <= |run.cs|
  {
    if i == 0 then run.t0 else run.cs[i - 1].now
  }

  // ---- The invariant ----

  /** A queue's messages are its route's own, numbered below the counter, none from the future. */
  predicate Numbered(q: Queue, k: string, ids: nat, clock: Time) {
    forall m :: m in q ==>
      && Key(m.rec.route) == k && IdNumber(m.rec.id).Some? && IdOf(m.rec) <= ids && m.rec.at <= clock
  }

  /** A lease id of this run, or none. */
  ghost predicate Issued(s: Store, lease: string) {
    lease == "" || exists n :: 1 <= n <= s.leases && lease == LeaseId(s.epoch, n)
  }

  ghost predicate LeasesIssued(s: Store, q: Queue) {
    forall m :: m in q ==> Issued(s, m.lease)
  }

  ghost predicate RouteOk(s: Store, k: string, clock: Time) {
    AllEarlier(At(s, k)) && Numbered(At(s, k), k, s.ids, clock) && LeasesIssued(s, At(s, k))
  }

  ghost predicate StoreOk(s: Store, clock: Time) {
    && (forall k: string :: RouteOk(s, k, clock))
    && (forall k :: k in s.q ==> s.q[k] != [])
  }

  /** No two routes hold a message of one id. */
  ghost predicate IdsApart(s: Store) {
    forall j: string, k: string, m, n :: j != k && m in At(s, j) && n in At(s, k) ==> m.rec.id != n.rec.id
  }

  /** Same records, whatever happened to the leases. */
  predicate SameRecs(a: Queue, b: Queue) {
    |a| == |b| && forall i :: 0 <= i < |a| ==> a[i].rec == b[i].rec
  }

  lemma SameRecsKeeps(a: Queue, b: Queue, k: string, ids: nat, clock: Time)
    requires SameRecs(a, b) && AllEarlier(a) && Numbered(a, k, ids, clock)
    ensures AllEarlier(b) && Numbered(b, k, ids, clock) && Recs(a) == Recs(b)
  {
    hide Earlier, IdOf, IdNumber, Key, Recs;
    assert forall i :: 0 <= i < |a| ==> a[i] in a;
    assert Recs(a) == Recs(b);
  }

  /** Taking messages out of a queue leaves the rest in order. */
  lemma MergeKeeps(s: Store, q: Queue, kept: Queue, out: Queue, k: string, clock: Time)
    requires Merge(q, kept, out) && AllEarlier(q) && Numbered(q, k, s.ids, clock) && LeasesIssued(s, q)
    ensures AllEarlier(kept) && Numbered(kept, k, s.ids, clock) && LeasesIssued(s, kept)
  {
    hide Earlier, IdOf, IdNumber, Key, Issued, Merge;
    MergeOrdered(q, kept, out);
    MergeMembers(q, kept, out);
  }

  /** Expiry and release keep the order and lose only the old. */
  lemma SeenOk(s: Store, k: string, now: Time, clock: Time)
    requires RouteOk(s, k, clock) && clock <= now
    ensures var q := Fresh(At(s, k), now);
            && AllEarlier(q) && Numbered(q, k, s.ids, now) && LeasesIssued(s, q)
            && AllEarlier(Seen(s, k, now)) && Numbered(Seen(s, k, now), k, s.ids, now)
            && LeasesIssued(s, Seen(s, k, now)) && SameRecs(q, Seen(s, k, now))
  {
    hide Earlier, IdOf, IdNumber, Key, Issued, AllEarlier, Merge, OldPrefix;
    var all, n := At(s, k), OldPrefix(At(s, k), now);
    var q := Fresh(all, now);
    ExpiryMerges(all, n);
    MergeKeeps(s, all, q, all[..n], k, now);
    SameRecsKeeps(q, Seen(s, k, now), k, s.ids, now);
    assert Issued(s, "") by { NoLeaseIssued(s); }
    assert forall i :: 0 <= i < |q| ==> q[i] in q;
  }

  lemma NoLeaseIssued(s: Store)
    ensures Issued(s, "")
  {
  }

  lemma AfterTakeOk(s: Store, c: Call, now: Time, clock: Time)
    requires StoreOk(s, clock) && clock <= now && Reject(c).None? && (c.Take? || c.Ack?)
    ensures RouteOk(Apply(s, c, now).store, Key(c.route), now)
  {
    hide Key, Issued, Seen, Blank, Apply, AllEarlier, Numbered, Kept, Taken, Under, NotUnder, Merge;
    var k := Key(c.route);
    assert RouteOk(s, k, clock);
    SeenOk(s, k, now, clock);
    QueueAfter(s, c, now);
    Counters(s, c, now);
    var q := Seen(s, k, now);
    if c.Take? {
      TakeMerges(q, c.limit, 0);
      MergeKeeps(s, q, Kept(q, c.limit, 0), Taken(q, c.limit, 0), k, now);
    } else {
      AckMerges(q, c.id);
      MergeKeeps(s, q, NotUnder(q, c.id), Under(q, c.id), k, now);
    }
    IssuedLater(s, Apply(s, c, now).store);
  }

  /** What was issued stays issued as the counter goes on. */
  lemma IssuedLater(s: Store, t: Store)
    requires t.epoch == s.epoch && s.leases <= t.leases
    ensures forall lease: string :: Issued(s, lease) ==> Issued(t, lease)
  {
    hide LeaseId;
  }

  lemma NextLeaseIssued(s: Store)
    requires s.leases > 0
    ensures Issued(s, LeaseId(s.epoch, s.leases))
  {
  }

  /** Marking a queue keeps its order and uses only the new lease. */
  lemma MarkKeeps(s: Store, q: Queue, marked: Queue, k: string, ids: nat, lease: string, until: Time, clock: Time)
    requires AllEarlier(q) && Numbered(q, k, ids, clock) && LeasesIssued(s, q) && Issued(s, lease) && |marked| == |q|
    requires forall i :: 0 <= i < |q| ==> marked[i] == q[i] || marked[i] == MarkOne(q[i], lease, until)
    ensures AllEarlier(marked) && Numbered(marked, k, ids, clock) && LeasesIssued(s, marked)
  {
    hide Earlier, IdOf, IdNumber, Key, Issued;
    SameRecsKeeps(q, marked, k, ids, clock);
    assert forall i :: 0 <= i < |q| ==> q[i] in q;
  }

  lemma AfterLeaseOk(s: Store, c: Call, now: Time, clock: Time)
    requires StoreOk(s, clock) && clock <= now && Reject(c).None? && c.TakeLeased?
    ensures RouteOk(Apply(s, c, now).store, Key(c.route), now)
  {
    hide Key, LeaseId, Seen, Apply, Issued, Marked, AllEarlier, Numbered, Fresh, SameRecs;
    var k := Key(c.route);
    assert RouteOk(s, k, clock);
    SeenOk(s, k, now, clock);
    QueueAfter(s, c, now);
    Counters(s, c, now);
    var q, id, t := Seen(s, k, now), LeaseId(s.epoch, s.leases + 1), Apply(s, c, now).store;
    MarkedShape(q, c.limit, 0, id, now + c.d);
    assert LeasesIssued(t, q) by { IssuedLater(s, t); }
    NextLeaseIssued(t);
    MarkKeeps(t, q, Marked(q, c.limit, 0, id, now + c.d), k, s.ids, id, now + c.d, now);
  }

  /** A message that joins a queue has moved the id counter. */
  lemma PutCounts(s: Store, c: Call, now: Time)
    requires Reject(c).None? && c.Put? && c.file.Some? && |Fresh(At(s, Key(c.route)), now)| < MAX_QUEUE
    ensures Apply(s, c, now).store.ids == s.ids + 1
  {
    hide Key, MessageId, Fresh;
    assert At(Prepared(s, c, now), Key(c.route)) == Fresh(At(s, Key(c.route)), now);
  }

  lemma AfterPutOk(s: Store, c: Call, now: Time, clock: Time)
    requires StoreOk(s, clock) && clock <= now && Reject(c).None? && (c.Put? || c.Depth?)
    ensures RouteOk(Apply(s, c, now).store, Key(c.route), now)
  {
    hide IdNumber, Key, LeaseId, Seen, Fresh, MessageId, Apply, Issued;
    var k := Key(c.route);
    SeenOk(s, k, now, clock);
    QueueAfter(s, c, now);
    Counters(s, c, now);
    NoLeaseIssued(s);
    if c.Put? && c.file.Some? && |Fresh(At(s, k), now)| < MAX_QUEUE {
      PutCounts(s, c, now);
    }
    IssuedLater(s, Apply(s, c, now).store);
  }

  lemma ApplyOk(s: Store, c: Call, now: Time, clock: Time)
    requires StoreOk(s, clock) && clock <= now
    ensures StoreOk(Apply(s, c, now).store, now)
    ensures Apply(s, c, now).store.ids >= s.ids
  {
    hide IdNumber, Key, LeaseId, Seen, MessageId, Earlier, IdOf, Issued, Fresh, Release, Kept, Taken, Marked, Held,
      Under, NotUnder, Blank;
    var t := Apply(s, c, now).store;
    forall k: string
      ensures RouteOk(t, k, now)
    {
      if Reject(c).Some? {
        assert RouteOk(s, k, clock);
      } else if c.Sweep? {
        SweepAfter(s, now, k);
        SeenOk(s, k, now, clock);
        IssuedLater(s, t);
      } else if k != Key(c.route) {
        assert RouteOk(s, k, clock);
        OneQueue(s, c, now, k);
        IssuedLater(s, t);
      } else if c.Put? || c.Depth? {
        AfterPutOk(s, c, now, clock);
      } else if c.TakeLeased? {
        AfterLeaseOk(s, c, now, clock);
      } else {
        AfterTakeOk(s, c, now, clock);
      }
    }
  }

  /** After a sweep every queue is its old self filtered by age: only the fresh are left, and all of them. */
  lemma SweepLeavesFresh(s: Store, now: Time, clock: Time, k: string)
    requires StoreOk(s, clock)
    ensures At(Apply(s, Sweep, now).store, k) == FilterFresh(At(s, k), now)
    ensures forall m :: m in At(Apply(s, Sweep, now).store, k) <==> m in At(s, k) && !TooOld(m, now)
  {
    hide IdOf, TooOld, Fresh, FilterFresh, Numbered, LeasesIssued, SweepAll;
    SweepAfter(s, now, k);
    assert RouteOk(s, k, clock);
    ArrivalOrderExpires(At(s, k), now);
    FilterFreshMembers(At(s, k), now);
  }

  /** The run starts in order, and its clock never goes back. */
  ghost predicate Sound(run: Run) {
    && StoreOk(run.start, run.t0) && IdsApart(run.start)
    && forall i :: 0 <= i < |run.cs| ==> ClockAt(run, i) <= run.cs[i].now
  }

  lemma {:induction false} RunOk(run: Run, i: nat)
    requires Sound(run) && i <= |run.cs|
    ensures StoreOk(StateAt(run, i), ClockAt(run, i))
  {
    hide Apply, StoreOk;
    if i == 0 {
      assert run.cs[..0] == [];
    } else {
      RunOk(run, i - 1);
      StateStep(run, i - 1);
      ApplyOk(StateAt(run, i - 1), run.cs[i - 1].call, run.cs[i - 1].now, ClockAt(run, i - 1));
    }
  }

  /** A new store starts in order. */
  lemma NewStoreOk(epoch: string, clock: Time)
    ensures StoreOk(NewStore(epoch), clock) && IdsApart(NewStore(epoch))
  {
  }
}
