/**
 The Go store as the code runs it (relay.go, lease.go): a map of queues, three counters and an
 optional spool, updated in place. Each method is proved to compute the function `Stores` gives
 for it; with a spool, its file operations extend the spool's machine run.
 */
module Relay {
  import opened Text
  import opened Messages
  import opened SpoolCodec
  import opened Queues
  import G = Stores
  import M = SpoolMachine
  import SpoolDir
  import Restart = SpoolRestart
  import Order = SpoolOrder
  import Disks

  class Store {
    var q: map<string, Queue>
    var ids: nat
    var leases: nat
    const epoch: string
    var spool: SpoolDir.Spool?

    ghost function View(): G.Store
      reads this
    {
      G.Store(q, ids, leases, epoch)
    }

    /** No queue is kept empty, and what the spool's process remembers is what is here. */
    ghost predicate Valid()
      reads this, spool
    {
      && (forall k :: k in q ==> q[k] != [])
      && (spool != null ==> spool.Valid() && spool.Mem().q == q && spool.Mem().ids == ids)
    }

    /** The clock has not gone back since the spool last saw it. */
    ghost predicate Forward(now: Time)
      reads this, spool
    {
      Valid() && (spool != null ==> spool.Last().clock <= now)
    }

    /** The spool is the same object, and its history has only grown. */
    twostate predicate Continues()
      reads this, spool
    {
      spool == old(spool) && (spool != null ==> old(spool.trail) <= spool.trail)
    }

    /** An internal step: the spool's clock and file counter stay where they are. */
    twostate predicate Steady()
      reads this, spool
    {
      && Continues()
      && (spool != null && old(spool.Valid()) && spool.Valid() ==>
            spool.Last().clock == old(spool.Last().clock) && spool.next == old(spool.next))
    }

    constructor (name: string)
      ensures Valid() && View() == G.NewStore(name) && spool == null
    {
      q, ids, leases, epoch, spool := map[], 0, 0, name, null;
    }

    /**
     `OpenSpool` on a store that has served nothing yet: reads what an earlier process left,
     queues it by route in file order, and restarts the id counter from the highest id found.
     */
    method OpenSpool(sp: SpoolDir.Spool)
      returns (messages: nat, quarantined: seq<string>, ghost listed: Disks.Disk, ghost names: seq<string>)
      requires View() == G.NewStore(epoch) && spool == null && sp.Closed()
      modifies this, sp
      ensures Valid() && spool == sp && old(sp.trail) <= sp.trail && leases == 0
      ensures Disks.WellFormed(listed) && M.Listing(listed, names)
      ensures sp.Mem() == M.Recovered(M.Loaded(listed, names)) && quarantined == M.Quarantined(listed, names)
      ensures messages == |M.Loaded(listed, names)|
      ensures SpoolDir.Tidied(old(sp.disk), sp.disk) && (!sp.env.removalsFail ==> SpoolDir.NoneUnfinished(sp.disk))
    {
      hide M.Recovered, M.Loaded, M.Quarantined, M.MoveAside, M.Listing, Disks.WellFormed, M.IsRun, M.Enqueue,
        M.HighestId, SpoolDir.Tidied, SpoolDir.NoneUnfinished;
      var msgs: seq<Message>;
      msgs, quarantined, listed, names := sp.Open();
      Requeue(msgs);
      RecoveredParts(msgs);
      messages := |msgs|;
      spool := sp;
    }

    /** The loop of `OpenSpool`, whatever the store already holds. */
    method Requeue(msgs: seq<Message>)
      requires forall k :: k in q ==> q[k] != []
      modifies this`q, this`ids
      ensures q == M.Enqueue(old(q), msgs) && ids == SpoolDir.Max(old(ids), M.HighestId(msgs))
      ensures forall k :: k in q ==> q[k] != []
    {
      hide Key, MessageNumber, M.HighestId, M.Enqueue, QueueAt;
      var i := 0;
      assert msgs[0..] == msgs;
      while i < |msgs|
        invariant 0 <= i <= |msgs|
        invariant M.Enqueue(q, msgs[i..]) == M.Enqueue(old(q), msgs)
        invariant SpoolDir.Max(ids, M.HighestId(msgs[i..])) == SpoolDir.Max(old(ids), M.HighestId(msgs))
      {
        RequeueStep(q, msgs, i);
        var k := Key(msgs[i].rec.route);
        q := q[k := QueueAt(q, k) + [msgs[i]]];
        var n := MessageNumber(msgs[i].rec.id);
        if n.Some? && n.value > ids {
          ids := n.value;
        }
        i := i + 1;
      }
      assert msgs[i..] == [];
      NothingRequeued(q);
      Order.EnqueueNonempty(old(q), msgs);
    }

    // ---- Expiry ----

    /** `dropDurableLocked`: the files of the messages `out`, which are leaving the queue. */
    method DropDurable(k: string, out: Queue, ghost kept: Queue)
      requires Valid() && Merge(QueueAt(q, k), kept, out)
      modifies spool
      ensures spool != null ==>
                && spool.Valid() && Steady()
                && spool.Mem() == old(spool.Mem()).(q := SetQueue(q, k, kept))
    {
      if spool == null {
        return;
      }
      FilesApart(spool, k);
      SplitByFile(QueueAt(q, k), kept, out);
      MergeMembers(QueueAt(q, k), kept, out);
      SpoolDir.AllFiled(out);
      spool.Remove(out, k);
    }

    /** `expireLocked`: the loop that finds where the young messages start. */
    method ExpireLocked(k: string, now: Time)
      requires Valid()
      modifies this`q, spool
      ensures Valid() && Steady() && View() == G.Expire(old(View()), k, now)
    {
      var msgs := QueueAt(q, k);
      if |msgs| == 0 {
        return;
      }
      var i := 0;
      while i < |msgs| && TooOld(msgs[i], now)
        invariant 0 <= i <= OldPrefix(msgs, now)
      {
        i := i + 1;
      }
      if i == 0 {
        return;
      }
      ExpiryMerges(msgs, i);
      DropDurable(k, msgs[..i], msgs[i..]);
      if i == |msgs| {
        q := q - {k};
      } else {
        q := q[k := msgs[i..]];
      }
    }

    /** `expireLeasesLocked`: lifts the leases that have ended, in place. */
    method ExpireLeasesLocked(k: string, now: Time)
      requires Valid()
      modifies this`q, spool
      ensures Valid() && Steady() && View() == old(View()).(q := SetQueue(old(q), k, Release(QueueAt(old(q), k), now)))
    {
      if k !in q {
        return;
      }
      var msgs := q[k];
      var i := 0;
      while i < |msgs|
        invariant 0 <= i <= |msgs| && |msgs| == |q[k]|
        invariant forall j :: 0 <= j < i ==> msgs[j] == ReleaseOne(q[k][j], now)
        invariant forall j :: i <= j < |msgs| ==> msgs[j] == q[k][j]
      {
        if msgs[i].lease != "" && msgs[i].until <= now {
          msgs := msgs[i := msgs[i].(lease := "", until := 0)];
        }
        i := i + 1;
      }
      assert msgs == Release(q[k], now);
      Relabel(k, msgs);
    }

    /** Replaces one queue by itself with other lease marks. */
    method Relabel(k: string, msgs: Queue)
      requires Valid() && k in q && M.SameButLeases(q[k], msgs)
      modifies this`q, spool
      ensures Valid() && Steady() && q == old(q)[k := msgs]
    {
      q := q[k := msgs];
      if spool != null {
        spool.Relabel(q);
      }
    }

    /** Both expiries, as every collection starts. */
    method Settle(k: string, now: Time)
      requires Valid()
      modifies this`q, spool
      ensures Valid() && Steady() && View() == old(View()).(q := SetQueue(old(q), k, G.Seen(old(View()), k, now)))
    {
      hide Fresh, Release, M.IsRun;
      ExpireLocked(k, now);
      ExpireLeasesLocked(k, now);
    }

    /** Replaces the queue by what is left once `out` has gone. */
    method Shrink(k: string, kept: Queue, out: Queue)
      requires Valid() && Merge(QueueAt(q, k), kept, out)
      modifies this`q, spool
      ensures Valid() && Steady() && q == SetQueue(old(q), k, kept)
    {
      DropDurable(k, out, kept);
      if |kept| == 0 {
        q := q - {k};
      } else {
        q := q[k := kept];
      }
    }

    // ---- Operations ----

    /** What a durable Put needs: counters and numbers that fit the widths the source gives them. */
    ghost predicate CanSpool(r: Route, seqno: nat, now: Time)
      reads this, spool
    {
      spool != null ==>
        && ids + 1 < UINT64_LIMIT && spool.next < UINT64_LIMIT
        && InRange(Record("", r, seqno, "", now))
    }

    /** Numbers the message and, over a spool, writes it before anyone is told it is accepted. */
    method Persist(rec: Record, now: Time) returns (file: Option<string>)
      requires Forward(now) && CanSpool(rec.route, rec.seqno, now)
      requires ValidRoute(rec.route) && rec.id == MessageId(ids + 1) && rec.at == now
      modifies this`ids, spool
      ensures ids == old(ids) + 1 && Continues()
      ensures file.None? ==> Valid()
      ensures spool == null ==> file == Some("")
      ensures spool != null && file.Some? ==>
                && spool.Valid() && spool.Mem().ids == ids
                && spool.Mem().q == SpoolDir.Appended(q, Message(rec, file.value, "", 0))
                && file.value in spool.Last().owed && spool.Last().owed[file.value] == rec
    {
      hide Key, MessageId, M.Storable, M.IsRun;
      ids := ids + 1;
      if spool == null {
        return Some("");
      }
      M.NewRecordStorable(rec, ids);
      spool.Tick(now);
      file := spool.Write(rec);
    }

    /** `Put`. `file` is what the spool answered, Some("") when there is none. */
    method Put(r: Route, seqno: nat, body: string, now: Time) returns (a: G.Answer, ghost file: Option<string>)
      requires Forward(now) && CanSpool(r, seqno, now)
      modifies this, spool
      ensures Valid() && Continues()
      ensures G.Apply(old(View()), G.Put(r, seqno, body, file), now) == G.Outcome(View(), a)
      ensures spool == null ==> file == Some("")
      ensures spool != null && a.Accepted? ==> file.value in spool.Last().owed && spool.Last().owed[file.value] == a.rec
    {
      hide Key, MessageId, IdNumber, MessageNumber, FileName, M.Storable, G.Apply, Fresh, M.IsRun;
      file := Some("");
      forall f: Option<string>
        ensures G.Apply(View(), G.Put(r, seqno, body, f), now) == PutOutcome(View(), r, seqno, body, f, now)
      {
        PutOn(View(), r, seqno, body, f, now);
      }
      if !ValidRoute(r) {
        return G.Refused(G.BadRoute), file;
      }
      if |body| > MAX_BODY {
        return G.Refused(G.TooLarge), file;
      }
      var k := Key(r);
      ExpireLocked(k, now);
      if |QueueAt(q, k)| >= MAX_QUEUE {
        return G.Refused(G.QueueFull), file;
      }
      var rec := Record(MessageId(ids + 1), r, seqno, body, now);
      var path := Persist(rec, now);
      file := path;
      if path.None? {
        return G.Refused(G.NotDurable), file;
      }
      q := q[k := QueueAt(q, k) + [Message(rec, path.value, "", 0)]];
      a := G.Accepted(rec);
    }

    /** `Take`. */
    method Take(r: Route, limit: int, now: Time) returns (a: G.Answer)
      requires Valid()
      modifies this, spool
      ensures Valid() && Continues()
      ensures G.Apply(old(View()), G.Take(r, limit), now) == G.Outcome(View(), a)
    {
      hide Key, G.Apply, Merge, Taken, Kept, G.Seen, M.IsRun;
      OperationOn(View(), G.Take(r, limit), now);
      if !ValidRoute(r) {
        return G.Refused(G.BadRoute);
      }
      var k := Key(r);
      Settle(k, now);
      var msgs := QueueAt(q, k);
      var taken, kept := SplitTaken(msgs, limit);
      TakeMerges(msgs, limit, 0);
      if |taken| == 0 {
        KeptWhole(msgs, kept, taken);
        return G.Delivered([]);
      }
      Shrink(k, kept, taken);
      a := G.Delivered(taken);
    }

    /** `TakeLeased`. */
    method TakeLeased(r: Route, limit: int, d: Time, now: Time) returns (a: G.Answer)
      requires Valid()
      modifies this, spool
      ensures Valid() && Continues()
      ensures G.Apply(old(View()), G.TakeLeased(r, limit, d), now) == G.Outcome(View(), a)
    {
      hide Key, LeaseId, G.Apply, Marked, Held, G.Seen, M.IsRun;
      OperationOn(View(), G.TakeLeased(r, limit, d), now);
      if !ValidRoute(r) {
        return G.Refused(G.BadRoute);
      }
      if d <= 0 {
        return G.Refused(G.BadLease);
      }
      if d > MAX_LEASE {
        return G.Refused(G.LeaseTooLong);
      }
      var k := Key(r);
      Settle(k, now);
      leases := leases + 1;
      var id := LeaseId(epoch, leases);
      var msgs := QueueAt(q, k);
      var marked, held := MarkHeld(msgs, limit, id, now + d);
      MarkedShape(msgs, limit, 0, id, now + d);
      if k in q {
        Relabel(k, marked);
      }
      if |held| == 0 {
        return G.Leased("", 0, []);
      }
      a := G.Leased(id, now + d, held);
    }

    /** `Ack`. */
    method Ack(r: Route, id: string, now: Time) returns (a: G.Answer)
      requires Valid()
      modifies this, spool
      ensures Valid() && Continues()
      ensures G.Apply(old(View()), G.Ack(r, id), now) == G.Outcome(View(), a)
    {
      hide Key, Blank, G.Apply, Merge, Under, NotUnder, G.Seen, M.IsRun;
      OperationOn(View(), G.Ack(r, id), now);
      if !ValidRoute(r) {
        return G.Refused(G.BadRoute);
      }
      if Blank(id) {
        return G.Refused(G.NoSuchLease);
      }
      var k := Key(r);
      Settle(k, now);
      var msgs := QueueAt(q, k);
      var acked, kept := SplitAcked(msgs, id);
      AckMerges(msgs, id);
      if |acked| == 0 {
        KeptWhole(msgs, kept, acked);
        return G.Refused(G.NoSuchLease);
      }
      Shrink(k, kept, acked);
      a := G.Deleted(|acked|);
    }

    /** `Sweep`: returns how many messages it removed. */
    method Sweep(now: Time) returns (removed: nat)
      requires Valid()
      modifies this`q, spool
      ensures Valid() && Continues()
      ensures G.Apply(old(View()), G.Sweep, now).store == View()
      ensures removed == Total(old(q)) - Total(q)
    {
      hide Fresh, M.IsRun, G.SweepAll, Total;
      var before := Count();
      var start := q;
      var todo := q.Keys;
      while todo != {}
        invariant Valid() && Continues() && todo <= start.Keys
        invariant View() == old(View()).(q := q)
        invariant q.Keys <= start.Keys
        invariant forall k :: k in todo ==> k in q && q[k] == start[k]
        invariant forall k :: k in start && k !in todo ==> QueueAt(q, k) == Fresh(start[k], now)
      {
        var k :| k in todo;
        todo := todo - {k};
        ExpireLocked(k, now);
      }
      AllSwept(start, q, now);
      var after := Count();
      SweepShrinks(start, now);
      removed := before - after;
    }

    /** The loops of `Sweep` that add up the queues. */
    method Count() returns (n: nat)
      ensures n == Total(q)
    {
      n := 0;
      var rest := q;
      while rest != map[]
        invariant n + Total(rest) == Total(q)
        decreases |rest|
      {
        var k :| k in rest;
        TotalSplits(rest, k);
        n := n + |rest[k]|;
        rest := rest - {k};
      }
    }

    /** `Depth`. */
    method Depth(r: Route, now: Time) returns (n: nat)
      requires Valid()
      modifies this`q, spool
      ensures Valid() && Continues()
      ensures G.Apply(old(View()), G.Depth(r), now) == G.Outcome(View(), G.Waiting(n))
    {
      hide Key, M.IsRun;
      ExpireLocked(Key(r), now);
      n := |QueueAt(q, Key(r))|;
    }
  }

  /** What a Put does to an expired store. */
  function PutOutcome(s: G.Store, r: Route, seqno: nat, body: string, file: Option<string>, now: Time): G.Outcome {
    if !ValidRoute(r) then G.Outcome(s, G.Refused(G.BadRoute))
    else if |body| > MAX_BODY then G.Outcome(s, G.Refused(G.TooLarge))
    else
      var t := G.Expire(s, Key(r), now);
      if |G.At(t, Key(r))| >= MAX_QUEUE then G.Outcome(t, G.Refused(G.QueueFull))
      else if file.None? then G.Outcome(t.(ids := t.ids + 1), G.Refused(G.NotDurable))
      else
        var rec := Record(MessageId(t.ids + 1), r, seqno, body, now);
        G.Outcome(t.(ids := t.ids + 1, q := SpoolDir.Appended(t.q, Message(rec, file.value, "", 0))), G.Accepted(rec))
  }

  lemma PutOn(s: G.Store, r: Route, seqno: nat, body: string, file: Option<string>, now: Time)
    ensures G.Apply(s, G.Put(r, seqno, body, file), now) == PutOutcome(s, r, seqno, body, file, now)
  {
    hide Key, MessageId, Fresh;
  }

  /** What a collection or acknowledgement does, in one map update. */
  lemma OperationOn(s: G.Store, c: G.Call, now: Time)
    requires c.Take? || c.TakeLeased? || c.Ack?
    ensures var k := Key(c.route);
            var msgs := G.Seen(s, k, now);
            G.Apply(s, c, now) ==
              if G.Reject(c).Some? then G.Outcome(s, G.Refused(G.Reject(c).value))
              else match c
                case Take(_, limit) =>
                  G.Outcome(s.(q := SetQueue(s.q, k, Kept(msgs, limit, 0))), G.Delivered(Taken(msgs, limit, 0)))
                case TakeLeased(_, limit, d) =>
                  var id := LeaseId(s.epoch, s.leases + 1);
                  var held := Held(msgs, limit, 0, id, now + d);
                  G.Outcome(s.(q := SetQueue(s.q, k, Marked(msgs, limit, 0, id, now + d)), leases := s.leases + 1),
                            if held == [] then G.Leased("", 0, []) else G.Leased(id, now + d, held))
                case Ack(_, id) =>
                  var acked := Under(msgs, id);
                  G.Outcome(s.(q := SetQueue(s.q, k, NotUnder(msgs, id))),
                            if acked == [] then G.Refused(G.NoSuchLease) else G.Deleted(|acked|))
                case _ => G.Outcome(s, G.Swept)
  {
    hide Key, LeaseId, Fresh, Release, Kept, Taken, Marked, Held, Under, NotUnder, Blank;
    var k := Key(c.route);
    assert G.At(G.Prepared(s, c, now), k) == Fresh(G.At(s, k), now);
    forall b: Queue ensures SetQueue(G.Prepared(s, c, now).q, k, b) == SetQueue(s.q, k, b) { }
  }

  /** What the i-th message adds to a store being rebuilt. */
  lemma RequeueStep(q: map<string, Queue>, msgs: seq<Message>, i: nat)
    requires i < |msgs|
    ensures var k := Key(msgs[i].rec.route);
            M.Enqueue(q, msgs[i..]) == M.Enqueue(q[k := QueueAt(q, k) + [msgs[i]]], msgs[i + 1..])
    ensures var n := MessageNumber(msgs[i].rec.id);
            M.HighestId(msgs[i..]) == SpoolDir.Max(if n.Some? then n.value else 0, M.HighestId(msgs[i + 1..]))
  {
    hide Key, MessageNumber;
    assert msgs[i..][0] == msgs[i] && msgs[i..][1..] == msgs[i + 1..];
  }

  lemma NothingRequeued(q: map<string, Queue>)
    ensures M.HighestId([]) == 0 && M.Enqueue(q, []) == q
  {
  }

  lemma RecoveredParts(msgs: seq<Message>)
    ensures M.Recovered(msgs).q == M.Enqueue(map[], msgs) && M.Recovered(msgs).ids == M.HighestId(msgs)
  {
  }

  // ---- Counting ----

  /** How many messages all the queues hold. */
  ghost function Total(q: map<string, Queue>): nat
    decreases |q|
  {
    if q == map[] then 0
    else
      var k :| k in q;
      |q[k]| + Total(q - {k})
  }

  lemma {:induction false} TotalSplits(q: map<string, Queue>, k: string)
    requires k in q
    ensures Total(q) == |q[k]| + Total(q - {k})
    decreases |q|
  {
    var j :| j in q && Total(q) == |q[j]| + Total(q - {j});
    if j != k {
      TotalSplits(q - {j}, k);
      TotalSplits(q - {k}, j);
      assert q - {j} - {k} == q - {k} - {j};
    }
  }

  /** Every queue expired, and none kept empty, is a sweep. */
  lemma AllSwept(start: map<string, Queue>, q: map<string, Queue>, now: Time)
    requires q.Keys <= start.Keys && (forall k :: k in q ==> q[k] != [])
    requires forall k :: k in start ==> QueueAt(q, k) == Fresh(start[k], now)
    ensures q == G.SweepAll(start, now)
  {
    hide Fresh;
  }

  /** Expiring can only remove. */
  lemma {:induction false} SweepShrinks(q: map<string, Queue>, now: Time)
    ensures Total(G.SweepAll(q, now)) <= Total(q)
    decreases |q|
  {
    hide Fresh;
    if q != map[] {
      var k :| k in q;
      var swept := G.SweepAll(q, now);
      SweepShrinks(q - {k}, now);
      TotalSplits(q, k);
      assert G.SweepAll(q - {k}, now) == swept - {k};
      FreshShorter(q[k], now);
      if k in swept {
        TotalSplits(swept, k);
      } else {
        assert swept - {k} == swept;
      }
    }
  }

  lemma FreshShorter(q: Queue, now: Time)
    ensures |Fresh(q, now)| <= |q|
  {
  }

  // ---- The loops over one queue ----

  /** The loop of `Take`. */
  method SplitTaken(msgs: Queue, limit: int) returns (taken: Queue, kept: Queue)
    ensures taken == Taken(msgs, limit, 0) && kept == Kept(msgs, limit, 0)
  {
    taken, kept := [], [];
    var i := 0;
    assert msgs[0..] == msgs;
    while i < |msgs|
      invariant 0 <= i <= |msgs|
      invariant taken + Taken(msgs[i..], limit, |taken|) == Taken(msgs, limit, 0)
      invariant kept + Kept(msgs[i..], limit, |taken|) == Kept(msgs, limit, 0)
    {
      assert msgs[i..][0] == msgs[i] && msgs[i..][1..] == msgs[i + 1..];
      if msgs[i].lease != "" || Enough(limit, |taken|) {
        kept := kept + [msgs[i]];
      } else {
        taken := taken + [msgs[i]];
      }
      i := i + 1;
    }
  }

  /** What the next message of the queue contributes to a leased collection. */
  lemma MarkStep(msgs: Queue, i: nat, limit: int, n: nat, id: string, until: Time)
    requires i < |msgs|
    ensures var free, m := msgs[i].lease == "", MarkOne(msgs[i], id, until);
            if free && Enough(limit, n) then
              Marked(msgs[i..], limit, n, id, until) == msgs[i..] && Held(msgs[i..], limit, n, id, until) == []
            else if free then
              && Marked(msgs[i..], limit, n, id, until) == [m] + Marked(msgs[i + 1..], limit, n + 1, id, until)
              && Held(msgs[i..], limit, n, id, until) == [m] + Held(msgs[i + 1..], limit, n + 1, id, until)
            else
              && Marked(msgs[i..], limit, n, id, until) == [msgs[i]] + Marked(msgs[i + 1..], limit, n, id, until)
              && Held(msgs[i..], limit, n, id, until) == Held(msgs[i + 1..], limit, n, id, until)
  {
    hide Enough;
    assert msgs[i..][0] == msgs[i] && msgs[i..][1..] == msgs[i + 1..];
  }

  /** The loop of `TakeLeased`, which marks in place and stops at the limit. */
  method MarkHeld(msgs: Queue, limit: int, id: string, until: Time) returns (marked: Queue, held: Queue)
    ensures marked == Marked(msgs, limit, 0, id, until) && held == Held(msgs, limit, 0, id, until)
  {
    hide Enough, Marked, Held, MarkOne;
    marked, held := [], [];
    var i := 0;
    assert msgs[0..] == msgs;
    while i < |msgs|
      invariant 0 <= i <= |msgs|
      invariant marked + Marked(msgs[i..], limit, |held|, id, until) == Marked(msgs, limit, 0, id, until)
      invariant held + Held(msgs[i..], limit, |held|, id, until) == Held(msgs, limit, 0, id, until)
    {
      MarkStep(msgs, i, limit, |held|, id, until);
      if msgs[i].lease == "" {
        if Enough(limit, |held|) {
          return marked + msgs[i..], held;
        }
        var m := MarkOne(msgs[i], id, until);
        marked, held := marked + [m], held + [m];
      } else {
        marked := marked + [msgs[i]];
      }
      i := i + 1;
    }
    MarksNothing(limit, |held|, id, until);
    assert msgs[i..] == [];
  }

  lemma MarksNothing(limit: int, n: nat, id: string, until: Time)
    ensures Marked([], limit, n, id, until) == [] && Held([], limit, n, id, until) == []
  {
  }

  /** The loop of `Ack`. */
  method SplitAcked(msgs: Queue, id: string) returns (acked: Queue, kept: Queue)
    ensures acked == Under(msgs, id) && kept == NotUnder(msgs, id)
  {
    acked, kept := [], [];
    var i := 0;
    assert msgs[0..] == msgs;
    while i < |msgs|
      invariant 0 <= i <= |msgs|
      invariant acked + Under(msgs[i..], id) == Under(msgs, id)
      invariant kept + NotUnder(msgs[i..], id) == NotUnder(msgs, id)
    {
      assert msgs[i..][0] == msgs[i] && msgs[i..][1..] == msgs[i + 1..];
      if msgs[i].lease == id {
        acked := acked + [msgs[i]];
      } else {
        kept := kept + [msgs[i]];
      }
      i := i + 1;
    }
  }

  /** A queue nothing was taken out of is unchanged. */
  lemma {:induction false} KeptWhole(q: Queue, kept: Queue, out: Queue)
    requires Merge(q, kept, out) && out == []
    ensures kept == q
  {
    if q != [] {
      KeptWhole(q[1..], kept[1..], out);
    }
  }

  // ---- Files of a queue ----

  /** Over a live spool, the messages of a queue have files, all different. */
  lemma FilesApart(s: SpoolDir.Spool, k: string)
    requires s.Valid()
    ensures Distinct(SpoolDir.Files(QueueAt(s.Mem().q, k)))
    ensures forall m :: m in QueueAt(s.Mem().q, k) ==> m.file != ""
  {
    hide SpoolNumber;
    var w := s.Last();
    Restart.RunBacks(s.trail, s.env, |s.trail| - 1);
    assert Restart.Backed(w.disk, Restart.Live(w.proc.mem, w.proc.pc, k), k);
  }

  function FileSet(q: Queue): set<string> {
    set f | f in SpoolDir.Files(q)
  }

  lemma {:induction false} WithoutAgrees(q: Queue, a: set<string>, b: set<string>)
    requires forall m :: m in q ==> (m.file in a <==> m.file in b)
    ensures M.Without(q, a) == M.Without(q, b)
  {
    if q != [] {
      assert q[0] in q && forall m :: m in q[1..] ==> m in q;
      WithoutAgrees(q[1..], a, b);
    }
  }

  lemma FilesCons(q: Queue)
    requires q != []
    ensures FileSet(q) == {q[0].file} + FileSet(q[1..])
    ensures Distinct(SpoolDir.Files(q)) <==> q[0].file !in FileSet(q[1..]) && Distinct(SpoolDir.Files(q[1..]))
  {
    hide SpoolDir.Files;
    var all, tail := SpoolDir.Files(q), SpoolDir.Files(q[1..]);
    assert all == [q[0].file] + tail;
    DistinctCons(q[0].file, tail);
  }

  lemma DistinctCons(f: string, tail: seq<string>)
    ensures Distinct([f] + tail) <==> f !in tail && Distinct(tail)
  {
    var all := [f] + tail;
    assert forall i :: 0 <= i < |tail| ==> all[i + 1] == tail[i];
    if f in tail {
      var i :| 0 <= i < |tail| && tail[i] == f;
      assert all[0] == all[i + 1];
    }
  }

  lemma FileMembers(q: Queue)
    ensures forall m :: m in q ==> m.file in FileSet(q)
    ensures forall f :: f in FileSet(q) ==> M.HasFile(q, f)
  {
    forall m | m in q ensures m.file in FileSet(q) {
      var i :| 0 <= i < |q| && q[i] == m;
      assert SpoolDir.Files(q)[i] in SpoolDir.Files(q);
    }
    forall f | f in FileSet(q) ensures M.HasFile(q, f) {
      var i :| 0 <= i < |q| && SpoolDir.Files(q)[i] == f;
      assert q[i] in q;
    }
  }

  /** In a queue of distinct files, taking messages out is taking their files out. */
  lemma {:induction false} SplitByFile(q: Queue, kept: Queue, out: Queue)
    requires Merge(q, kept, out) && Distinct(SpoolDir.Files(q))
    ensures kept == M.Without(q, FileSet(out)) && Distinct(SpoolDir.Files(out))
    ensures FileSet(out) <= FileSet(q)
    ensures forall m :: m in out ==> M.HasFile(q, m.file)
  {
    hide FileSet, SpoolDir.Files, Distinct, M.HasFile;
    FileMembers(q);
    FileMembers(out);
    if q != [] {
      FilesCons(q);
      FileMembers(q[1..]);
      if kept != [] && q[0] == kept[0] && Merge(q[1..], kept[1..], out) {
        SplitByFile(q[1..], kept[1..], out);
      } else {
        SplitByFile(q[1..], kept, out[1..]);
        FilesCons(out);
        WithoutAgrees(q[1..], FileSet(out), FileSet(out[1..]));
      }
    } else {
      assert FileSet(out) == {} && Distinct(SpoolDir.Files(out)) by { NoFiles(); }
    }
  }

  lemma NoFiles()
    ensures FileSet([]) == {} && Distinct(SpoolDir.Files([]))
  {
  }
}
