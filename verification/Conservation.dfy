/**
 Where every accepted message of a route is, at every moment of a run: queued, or in exactly
 one of collected, acknowledged and expired.
 */
module Conservation {
  import opened Text
  import opened Messages
  import opened Queues
  import opened Stores
  import opened Runs

  /** The route's history: what was accepted, in order, and how messages left. */
  datatype Ledger = Ledger(accepted: seq<Record>, collected: set<Record>, acked: set<Record>, expired: set<Record>)

  function Gone(l: Ledger): set<Record> {
    l.collected + l.acked + l.expired
  }

  /** The records that have outlived the store. */
  function Outlived(q: Queue, now: Time): set<Record> {
    set m | m in q && TooOld(m, now) :: m.rec
  }

  /** The records that the lease still holds. */
  function HeldBy(q: Queue, id: string, now: Time): set<Record> {
    set m | m in q && !TooOld(m, now) && m.lease == id && m.until > now :: m.rec
  }

  /** What one operation adds to the history of the route with key `k`, told without the store's own loops. */
  function Note(l: Ledger, s: Store, c: Call, now: Time, k: string): Ledger {
    if Reject(c).Some? || (!c.Sweep? && Key(c.route) != k) then l
    else
      var q, answer := At(s, k), Apply(s, c, now).answer;
      var e := l.(expired := l.expired + Outlived(q, now));
      match c
      case Put(_, _, _, _) => if answer.Accepted? then e.(accepted := e.accepted + [answer.rec]) else e
      case Take(_, _) => e.(collected := e.collected + RecSet(Handed(answer)))
      case Ack(_, id) => e.(acked := e.acked + HeldBy(q, id, now))
      case _ => e
  }

  /** The same entry in terms of what the operation works on. */
  function Posted(l: Ledger, s: Store, c: Call, now: Time, k: string): Ledger {
    if Reject(c).Some? || (!c.Sweep? && Key(c.route) != k) then l
    else
      var dead := At(s, k)[..OldPrefix(At(s, k), now)];
      var e := l.(expired := l.expired + RecSet(dead));
      match c
      case Put(_, _, _, _) =>
        var a := Apply(s, c, now).answer;
        if a.Accepted? then e.(accepted := e.accepted + [a.rec]) else e
      case Take(_, limit) => e.(collected := e.collected + RecSet(Taken(Seen(s, k, now), limit, 0)))
      case Ack(_, id) => e.(acked := e.acked + RecSet(Under(Seen(s, k, now), id)))
      case _ => e
  }

  /** The history of a route up to the i-th operation; what the run starts with counts as accepted. */
  function Book(run: Run, k: string, i: nat): Ledger
    requires i <= |run.cs|
  {
    if i == 0 then Ledger(Recs(At(run.start, k)), {}, {}, {})
    else Note(Book(run, k, i - 1), StateAt(run, i - 1), run.cs[i - 1].call, run.cs[i - 1].now, k)
  }

  /** Accepted in order of id and arrival, none beyond the counter. */
  predicate History(rs: seq<Record>, ids: nat) {
    && (forall r :: r in rs ==> IdOf(r) <= ids)
    && (forall i, j :: 0 <= i < j < |rs| ==> IdOf(rs[i]) < IdOf(rs[j]))
  }

  /** The accounts balance. */
  predicate Balanced(l: Ledger, q: Queue) {
    && Recs(q) == Remaining(l.accepted, Gone(l))
    && l.collected !! l.acked !! l.expired
    && (forall r :: r in Gone(l) ==> r in l.accepted)
  }

  lemma {:induction false} RemainingMembers(rs: seq<Record>, gone: set<Record>)
    ensures forall r :: r in Remaining(rs, gone) <==> r in rs && r !in gone
  {
    if rs != [] {
      RemainingMembers(rs[1..], gone);
      assert forall r :: r in rs <==> r == rs[0] || r in rs[1..];
    }
  }

  /** Splitting the queue and booking what was taken out keeps the balance. */
  lemma SplitBalances(l: Ledger, m: Ledger, q: Queue, kept: Queue, out: Queue)
    requires Balanced(l, q) && AllEarlier(q) && Merge(q, kept, out) && m.accepted == l.accepted
    requires || m == l.(collected := l.collected + RecSet(out))
             || m == l.(acked := l.acked + RecSet(out))
             || m == l.(expired := l.expired + RecSet(out))
    ensures Balanced(m, kept)
  {
    hide Recs, Merge, AllEarlier, Remaining;
    MergeRemaining(q, kept, out);
    RemainingTwice(l.accepted, Gone(l), RecSet(out));
    assert Gone(m) == Gone(l) + RecSet(out);
    RemainingMembers(l.accepted, Gone(l));
    OutWasQueued(q, kept, out);
    assert forall r :: r in RecSet(out) ==> r in l.accepted && r !in Gone(l);
  }

  lemma OutWasQueued(q: Queue, kept: Queue, out: Queue)
    requires Merge(q, kept, out)
    ensures forall r :: r in RecSet(out) ==> r in Recs(q)
  {
    MergeMembers(q, kept, out);
    forall r | r in RecSet(out) ensures r in Recs(q) {
      var i :| 0 <= i < |out| && Recs(out)[i] == r;
      assert out[i] in out;
      var j :| 0 <= j < |q| && q[j] == out[i];
      assert Recs(q)[j] == r;
    }
  }

  lemma AcceptBalances(l: Ledger, q: Queue, m: Message, ids: nat)
    requires Balanced(l, q) && History(l.accepted, ids) && IdOf(m.rec) > ids
    ensures Balanced(l.(accepted := l.accepted + [m.rec]), q + [m]) && History(l.accepted + [m.rec], IdOf(m.rec))
  {
    hide IdOf, Remaining;
    assert m.rec !in l.accepted;
    RemainingLast(l.accepted, m.rec, Gone(l));
    assert Recs(q + [m]) == Recs(q) + [m.rec];
  }

  lemma {:induction false} NothingGone(rs: seq<Record>)
    ensures Remaining(rs, {}) == rs
  {
    if rs != [] {
      NothingGone(rs[1..]);
    }
  }

  lemma HistoryLater(rs: seq<Record>, a: nat, b: nat)
    requires History(rs, a) && a <= b
    ensures History(rs, b)
  {
  }

  lemma PostedBalances(l: Ledger, s: Store, c: Call, now: Time, clock: Time, k: string)
    requires StoreOk(s, clock) && clock <= now && Balanced(l, At(s, k)) && History(l.accepted, s.ids)
    ensures var t := Apply(s, c, now).store;
            Balanced(Posted(l, s, c, now, k), At(t, k)) && History(Posted(l, s, c, now, k).accepted, t.ids)
  {
    hide Balanced, History, Apply, Key, AllEarlier, Seen, Blank, Merge, Taken, Kept, Under, NotUnder, RecSet;
    var t := Apply(s, c, now).store;
    Counters(s, c, now);
    HistoryLater(l.accepted, s.ids, t.ids);
    if Reject(c).Some? {
      RefusalChangesNothing(s, c, now);
    } else if !c.Sweep? && Key(c.route) != k {
      OneQueue(s, c, now, k);
    } else {
      assert RouteOk(s, k, clock);
      SeenOk(s, k, now, clock);
      var q, n := At(s, k), OldPrefix(At(s, k), now);
      ExpiryMerges(q, n);
      var e := l.(expired := l.expired + RecSet(q[..n]));
      SplitBalances(l, e, q, Fresh(q, now), q[..n]);
      if c.Sweep? {
        SweepAfter(s, now, k);
      } else {
        QueueAfter(s, c, now);
        OperationBalances(e, s, c, now, k);
      }
    }
  }

  /** In a queue in arrival order, the old are the prefix that expiry drops. */
  lemma OutlivedIsPrefix(q: Queue, now: Time)
    requires AllEarlier(q)
    ensures Outlived(q, now) == RecSet(q[..OldPrefix(q, now)])
  {
    hide OldPrefix, IdOf, AllEarlier;
    var n := OldPrefix(q, now);
    forall r | r in Outlived(q, now) ensures r in RecSet(q[..n]) {
      var i :| 0 <= i < |q| && TooOld(q[i], now) && q[i].rec == r;
      YoungSuffix(q, now, i);
      assert Recs(q[..n])[i] == r;
    }
    forall r | r in RecSet(q[..n]) ensures r in Outlived(q, now) {
      var i :| 0 <= i < n && Recs(q[..n])[i] == r;
      assert q[i] in q;
    }
  }

  /** Expired and released, a queue holds under a lease exactly what the lease still holds. */
  lemma UnderMeans(q: Queue, id: string, now: Time, m: Message)
    requires AllEarlier(q) && id != ""
    ensures m in Under(Release(Fresh(q, now), now), id)
       <==> m in q && !TooOld(m, now) && m.lease == id && m.until > now
  {
    hide OldPrefix, Under, AllEarlier, TooOld;
    var n, f := OldPrefix(q, now), Fresh(q, now);
    var released := Release(f, now);
    UnderMembers(released, id);
    if m in released && m.lease == id {
      var i :| 0 <= i < |f| && released[i] == m;
      YoungSuffix(q, now, n + i);
      assert f[i] == q[n + i] == m;
    }
    if m in q && !TooOld(m, now) && m.lease == id && m.until > now {
      var i :| 0 <= i < |q| && q[i] == m;
      assert i >= n && released[i - n] == ReleaseOne(f[i - n], now) == m;
    }
  }

  /** What an acknowledgement deletes is what the lease still holds. */
  lemma HeldByIsUnder(q: Queue, id: string, now: Time)
    requires AllEarlier(q) && id != ""
    ensures HeldBy(q, id, now) == RecSet(Under(Release(Fresh(q, now), now), id))
  {
    hide Under, AllEarlier, Release, Fresh, TooOld, RecSet, Recs;
    var under := Under(Release(Fresh(q, now), now), id);
    forall m: Message ensures m in under <==> m in q && !TooOld(m, now) && m.lease == id && m.until > now {
      UnderMeans(q, id, now, m);
    }
    RecSetMeans(under);
  }

  lemma RecSetMeans(q: Queue)
    ensures RecSet(q) == set m | m in q :: m.rec
  {
    forall m | m in q ensures m.rec in RecSet(q) { InRecSet(q, m); }
    forall r | r in RecSet(q) ensures exists m :: m in q && m.rec == r {
      var i :| 0 <= i < |q| && Recs(q)[i] == r;
      assert q[i] in q;
    }
  }

  lemma InRecSet(q: Queue, m: Message)
    requires m in q
    ensures m.rec in RecSet(q)
  {
    var i :| 0 <= i < |q| && q[i] == m;
    assert Recs(q)[i] == m.rec;
  }

  lemma YoungSuffix(q: Queue, now: Time, i: nat)
    requires AllEarlier(q) && i < |q|
    ensures OldPrefix(q, now) <= i ==> !TooOld(q[i], now)
  {
    hide IdOf;
    var n := OldPrefix(q, now);
    assert n < i ==> Earlier(q[n].rec, q[i].rec);
  }

  lemma NoteIsPosted(l: Ledger, s: Store, c: Call, now: Time, clock: Time, k: string)
    requires StoreOk(s, clock)
    ensures Note(l, s, c, now, k) == Posted(l, s, c, now, k)
  {
    hide Apply, Key, Blank, Under, Taken, Held, RecSet, OldPrefix, Outlived, HeldBy, AllEarlier, Numbered,
      LeasesIssued, LeaseId;
    assert RouteOk(s, k, clock);
    OutlivedIsPrefix(At(s, k), now);
    HandedOver(s, c, now);
    if c.Ack? && Reject(c).None? {
      assert c.id != "" by { BlankEmpty(); }
      HeldByIsUnder(At(s, k), c.id, now);
    }
  }

  lemma SameRecsBalance(l: Ledger, a: Queue, b: Queue)
    requires Balanced(l, a) && SameRecs(a, b)
    ensures Balanced(l, b)
  {
    assert Recs(a) == Recs(b);
  }

  /** The operation itself, after expiry has been booked in `e`. */
  lemma OperationBalances(e: Ledger, s: Store, c: Call, now: Time, k: string)
    requires Reject(c).None? && !c.Sweep? && k == Key(c.route)
    requires Balanced(e, Fresh(At(s, k), now)) && History(e.accepted, s.ids)
    requires AllEarlier(Seen(s, k, now)) && SameRecs(Fresh(At(s, k), now), Seen(s, k, now))
    ensures var l := match c
                     case Put(_, _, _, _) =>
                       var a := Apply(s, c, now).answer;
                       if a.Accepted? then e.(accepted := e.accepted + [a.rec]) else e
                     case Take(_, limit) => e.(collected := e.collected + RecSet(Taken(Seen(s, k, now), limit, 0)))
                     case Ack(_, id) => e.(acked := e.acked + RecSet(Under(Seen(s, k, now), id)))
                     case _ => e;
            Balanced(l, After(s, c, now)) && History(l.accepted, Apply(s, c, now).store.ids)
  {
    hide Balanced, History, Apply, Key, AllEarlier, Seen, Blank, Merge, Taken, Kept, Under, NotUnder, RecSet, Marked,
      LeaseId, Fresh;
    var q := Seen(s, k, now);
    Counters(s, c, now);
    HistoryLater(e.accepted, s.ids, Apply(s, c, now).store.ids);
    SameRecsBalance(e, Fresh(At(s, k), now), q);
    match c
    case Take(_, limit) =>
      TakeMerges(q, limit, 0);
      SplitBalances(e, e.(collected := e.collected + RecSet(Taken(q, limit, 0))), q, Kept(q, limit, 0),
        Taken(q, limit, 0));
    case Ack(_, id) =>
      AckMerges(q, id);
      SplitBalances(e, e.(acked := e.acked + RecSet(Under(q, id))), q, NotUnder(q, id), Under(q, id));
    case TakeLeased(_, limit, d) =>
      var lease := LeaseId(s.epoch, s.leases + 1);
      MarkedShape(q, limit, 0, lease, now + d);
      SameRecsBalance(e, q, Marked(q, limit, 0, lease, now + d));
    case Put(_, _, _, _) => PutBalances(e, s, c, now, k);
    case Depth(_) =>
  }

  lemma PutBalances(e: Ledger, s: Store, c: Call, now: Time, k: string)
    requires Reject(c).None? && c.Put? && k == Key(c.route)
    requires Balanced(e, Fresh(At(s, k), now)) && History(e.accepted, s.ids)
    ensures var a := Apply(s, c, now).answer;
            var l := if a.Accepted? then e.(accepted := e.accepted + [a.rec]) else e;
            Balanced(l, After(s, c, now)) && History(l.accepted, Apply(s, c, now).store.ids)
  {
    hide Balanced, History, Key, Fresh, MessageId;
    var q := Fresh(At(s, k), now);
    assert At(Prepared(s, c, now), k) == q;
    HistoryLater(e.accepted, s.ids, s.ids + 1);
    if c.file.Some? && |q| < MAX_QUEUE {
      AcceptBalances(e, q, Message(Record(MessageId(s.ids + 1), c.route, c.seqno, c.body, now), c.file.value, "", 0),
        s.ids);
    }
  }

  /**
   At every moment of a run, and for every route: each accepted message is in the queue or in
   exactly one of collected, acknowledged and expired, and the queue is the accepted messages
   without those three, in the order they were put. Leases, however they end, reorder nothing.
   */
  lemma {:induction false} Conservation(run: Run, k: string, i: nat)
    requires Sound(run) && i <= |run.cs|
    ensures Balanced(Book(run, k, i), At(StateAt(run, i), k))
    ensures History(Book(run, k, i).accepted, StateAt(run, i).ids)
  {
    hide Apply, StateAt, Note, Posted, StoreOk;
    if i == 0 {
      StartBalances(run, k);
    } else {
      Conservation(run, k, i - 1);
      RunOk(run, i - 1);
      StateStep(run, i - 1);
      NoteIsPosted(Book(run, k, i - 1), StateAt(run, i - 1), run.cs[i - 1].call, run.cs[i - 1].now,
        ClockAt(run, i - 1), k);
      PostedBalances(Book(run, k, i - 1), StateAt(run, i - 1), run.cs[i - 1].call, run.cs[i - 1].now,
        ClockAt(run, i - 1), k);
    }
  }

  lemma StartBalances(run: Run, k: string)
    requires Sound(run)
    ensures Balanced(Book(run, k, 0), At(StateAt(run, 0), k)) && History(Book(run, k, 0).accepted, StateAt(run, 0).ids)
  {
    hide IdOf;
    assert run.cs[..0] == [];
    assert RouteOk(run.start, k, run.t0);
    var q := At(run.start, k);
    NothingGone(Recs(q));
    assert forall i :: 0 <= i < |q| ==> q[i] in q;
  }
}
