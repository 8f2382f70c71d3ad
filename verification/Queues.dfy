/**
 One route's queue as the Go store keeps it, and what each operation does to it (relay.go,
 lease.go). The store's loops are proved against these functions in `Relay`.
 */
module Queues {
  import opened Messages

  const SECOND: Time := 1_000_000_000
  const TTL: Time := 7 * 24 * 3600 * SECOND
  const MAX_LEASE: Time := 5 * 60 * SECOND
  const MAX_QUEUE: nat := 256
  const MAX_BODY: nat := 8 * 1024 * 1024

  type Queue = seq<Message>

  function QueueAt(q: map<string, Queue>, k: string): Queue {
    if k in q then q[k] else []
  }

  /** The map with one queue replaced; an empty queue has no entry. */
  function SetQueue(q: map<string, Queue>, k: string, msgs: Queue): map<string, Queue> {
    if msgs == [] then q - {k} else q[k := msgs]
  }

  // ---- Expiry ----

  predicate TooOld(m: Message, now: Time) {
    m.rec.at < now - TTL
  }

  /** How many messages at the front have outlived the store: what `expireLocked` counts. */
  function OldPrefix(q: Queue, now: Time): (n: nat)
    ensures n <= |q|
    ensures forall i :: 0 <= i < n ==> TooOld(q[i], now)
    ensures n < |q| ==> !TooOld(q[n], now)
  {
    if q != [] && TooOld(q[0], now) then 1 + OldPrefix(q[1..], now) else 0
  }

  function Fresh(q: Queue, now: Time): Queue {
    q[OldPrefix(q, now)..]
  }

  /** The Worker's rule: keep whatever is young enough, wherever it stands. */
  function FilterFresh(q: Queue, now: Time): Queue {
    if q == [] then []
    else if TooOld(q[0], now) then FilterFresh(q[1..], now)
    else [q[0]] + FilterFresh(q[1..], now)
  }

  predicate InArrivalOrder(q: Queue) {
    forall i, j :: 0 <= i < j < |q| ==> q[i].rec.at <= q[j].rec.at
  }

  /** No old message stands behind a young one. */
  predicate OldFirst(q: Queue, now: Time) {
    forall i, j :: 0 <= i < j < |q| && TooOld(q[j], now) ==> TooOld(q[i], now)
  }

  lemma {:induction false} FilterFreshMembers(q: Queue, now: Time)
    ensures forall m :: m in FilterFresh(q, now) <==> m in q && !TooOld(m, now)
  {
    if q != [] {
      FilterFreshMembers(q[1..], now);
    }
  }

  /** What is kept has been held for at most seven days. */
  lemma FreshForSevenDays(q: Queue, now: Time, m: Message)
    ensures m in FilterFresh(q, now) <==> m in q && now - m.rec.at <= 7 * 24 * 60 * 60 * 1_000_000_000
  {
    hide FilterFresh;
    FilterFreshMembers(q, now);
  }

  lemma {:induction false} OldFirstFilters(q: Queue, now: Time)
    requires OldFirst(q, now)
    ensures Fresh(q, now) == FilterFresh(q, now)
  {
    if q != [] {
      assert |q| > 1 && TooOld(q[1], now) ==> TooOld(q[0], now);
      OldFirstFilters(q[1..], now);
    }
  }

  /** Dropping the too-old prefix equals filtering by age exactly when the old stand first. */
  lemma PrefixExpiryIsFilter(q: Queue, now: Time)
    ensures Fresh(q, now) == FilterFresh(q, now) <==> OldFirst(q, now)
  {
    if OldFirst(q, now) {
      OldFirstFilters(q, now);
    } else {
      hide FilterFresh, TooOld;
      var i, j :| 0 <= i < j < |q| && TooOld(q[j], now) && !TooOld(q[i], now);
      FilterFreshMembers(q, now);
      assert Fresh(q, now)[j - OldPrefix(q, now)] == q[j];
    }
  }

  /** A queue in arrival order always qualifies. */
  lemma ArrivalOrderExpires(q: Queue, now: Time)
    requires InArrivalOrder(q)
    ensures Fresh(q, now) == FilterFresh(q, now)
  {
    PrefixExpiryIsFilter(q, now);
  }

  function ReleaseOne(m: Message, now: Time): Message {
    if m.lease != "" && m.until <= now then m.(lease := "", until := 0) else m
  }

  /** Leases whose deadline has passed are lifted, in place. */
  function Release(q: Queue, now: Time): (r: Queue)
    ensures |r| == |q| && forall i :: 0 <= i < |q| ==> r[i] == ReleaseOne(q[i], now)
  {
    seq(|q|, i requires 0 <= i < |q| => ReleaseOne(q[i], now))
  }

  // ---- Collection ----

  /** Whether a collector that already has `n` messages may have no more. */
  predicate Enough(limit: int, n: nat) {
    limit > 0 && n >= limit
  }

  /** What `Take` hands over, having handed over `n` already. */
  function Taken(q: Queue, limit: int, n: nat): Queue {
    if q == [] then []
    else if q[0].lease != "" || Enough(limit, n) then Taken(q[1..], limit, n)
    else [q[0]] + Taken(q[1..], limit, n + 1)
  }

  /** What `Take` leaves behind. */
  function Kept(q: Queue, limit: int, n: nat): Queue {
    if q == [] then []
    else if q[0].lease != "" || Enough(limit, n) then [q[0]] + Kept(q[1..], limit, n)
    else Kept(q[1..], limit, n + 1)
  }

  function MarkOne(m: Message, id: string, until: Time): Message {
    m.(lease := id, until := until)
  }

  /** The queue after `TakeLeased` has marked what it hands out, stopping at the limit. */
  function Marked(q: Queue, limit: int, n: nat, id: string, until: Time): Queue {
    if q == [] then []
    else if q[0].lease != "" then [q[0]] + Marked(q[1..], limit, n, id, until)
    else if Enough(limit, n) then q
    else [MarkOne(q[0], id, until)] + Marked(q[1..], limit, n + 1, id, until)
  }

  function Held(q: Queue, limit: int, n: nat, id: string, until: Time): Queue {
    if q == [] then []
    else if q[0].lease != "" then Held(q[1..], limit, n, id, until)
    else if Enough(limit, n) then []
    else [MarkOne(q[0], id, until)] + Held(q[1..], limit, n + 1, id, until)
  }

  /** What `Ack` deletes. */
  function Under(q: Queue, id: string): Queue {
    if q == [] then [] else if q[0].lease == id then [q[0]] + Under(q[1..], id) else Under(q[1..], id)
  }

  /** What `Ack` leaves. */
  function NotUnder(q: Queue, id: string): Queue {
    if q == [] then [] else if q[0].lease == id then NotUnder(q[1..], id) else [q[0]] + NotUnder(q[1..], id)
  }

  // ---- What collection means ----

  /** The messages nobody holds, in order. */
  function Available(q: Queue): Queue {
    if q == [] then [] else if q[0].lease == "" then [q[0]] + Available(q[1..]) else Available(q[1..])
  }

  function Room(limit: int, n: nat, have: nat): nat {
    if limit > 0 && have > limit - n then if limit > n then limit - n else 0 else have
  }

  /** A collector gets the first messages available, as many as its limit allows. */
  lemma {:induction false} TakenIsFirstAvailable(q: Queue, limit: int, n: nat)
    ensures Taken(q, limit, n) == Available(q)[..Room(limit, n, |Available(q)|)]
  {
    if q != [] {
      if q[0].lease != "" || Enough(limit, n) {
        TakenIsFirstAvailable(q[1..], limit, n);
      } else {
        TakenIsFirstAvailable(q[1..], limit, n + 1);
      }
    }
  }

  /** A leased collection hands out what a destructive one would take, marked. */
  lemma {:induction false} HeldIsTakenMarked(q: Queue, limit: int, n: nat, id: string, until: Time)
    ensures |Held(q, limit, n, id, until)| == |Taken(q, limit, n)|
    ensures forall i :: 0 <= i < |Taken(q, limit, n)| ==>
              Held(q, limit, n, id, until)[i] == MarkOne(Taken(q, limit, n)[i], id, until)
  {
    if q != [] {
      if q[0].lease != "" {
        HeldIsTakenMarked(q[1..], limit, n, id, until);
      } else if Enough(limit, n) {
        TakesNoMore(q, limit, n);
      } else {
        HeldIsTakenMarked(q[1..], limit, n + 1, id, until);
      }
    }
  }

  lemma {:induction false} TakesNoMore(q: Queue, limit: int, n: nat)
    requires Enough(limit, n)
    ensures Taken(q, limit, n) == [] && Kept(q, limit, n) == q
  {
    if q != [] {
      TakesNoMore(q[1..], limit, n);
    }
  }

  lemma {:induction false} TakenMembers(q: Queue, limit: int, n: nat)
    ensures forall m :: m in Taken(q, limit, n) ==> m in q && m.lease == ""
    ensures forall m :: m in Kept(q, limit, n) ==> m in q
    ensures forall m :: m in q ==> m in Taken(q, limit, n) || m in Kept(q, limit, n)
    ensures |q| == |Taken(q, limit, n)| + |Kept(q, limit, n)|
  {
    if q != [] {
      TakenMembers(q[1..], limit, if q[0].lease != "" || Enough(limit, n) then n else n + 1);
    }
  }

  /** Marking changes nothing but leases, and those only from free to the new one. */
  lemma {:induction false} MarkedShape(q: Queue, limit: int, n: nat, id: string, until: Time)
    ensures |Marked(q, limit, n, id, until)| == |q|
    ensures forall i :: 0 <= i < |q| ==>
              var m := Marked(q, limit, n, id, until)[i];
              m == q[i] || (q[i].lease == "" && m == MarkOne(q[i], id, until))
  {
    if q != [] {
      if q[0].lease != "" {
        MarkedShape(q[1..], limit, n, id, until);
      } else if !Enough(limit, n) {
        MarkedShape(q[1..], limit, n + 1, id, until);
      }
    }
  }

  lemma {:induction false} HeldIsMarked(q: Queue, limit: int, n: nat, id: string, until: Time)
    ensures forall m :: m in Held(q, limit, n, id, until) ==>
              m in Marked(q, limit, n, id, until) && m.lease == id && m.until == until
  {
    if q != [] && (q[0].lease != "" || !Enough(limit, n)) {
      HeldIsMarked(q[1..], limit, if q[0].lease != "" then n else n + 1, id, until);
    }
  }

  lemma {:induction false} UnderMembers(q: Queue, id: string)
    ensures forall m :: m in Under(q, id) <==> m in q && m.lease == id
    ensures forall m :: m in NotUnder(q, id) <==> m in q && m.lease != id
    ensures |q| == |Under(q, id)| + |NotUnder(q, id)|
  {
    if q != [] {
      UnderMembers(q[1..], id);
    }
  }

  // ---- Splitting a queue ----

  /** `q` is `kept` and `out` dealt together: nothing lost, nothing added, both in order. */
  predicate Merge(q: Queue, kept: Queue, out: Queue) {
    if q == [] then kept == [] && out == []
    else
      || (kept != [] && q[0] == kept[0] && Merge(q[1..], kept[1..], out))
      || (out != [] && q[0] == out[0] && Merge(q[1..], kept, out[1..]))
  }

  lemma {:induction false} TakeMerges(q: Queue, limit: int, n: nat)
    ensures Merge(q, Kept(q, limit, n), Taken(q, limit, n))
  {
    if q != [] {
      TakeMerges(q[1..], limit, if q[0].lease != "" || Enough(limit, n) then n else n + 1);
    }
  }

  lemma {:induction false} AckMerges(q: Queue, id: string)
    ensures Merge(q, NotUnder(q, id), Under(q, id))
  {
    if q != [] {
      AckMerges(q[1..], id);
    }
  }

  lemma {:induction false} AllKept(q: Queue)
    ensures Merge(q, q, [])
  {
    if q != [] {
      AllKept(q[1..]);
    }
  }

  lemma {:induction false} ExpiryMerges(q: Queue, n: nat)
    requires n <= |q|
    ensures Merge(q, q[n..], q[..n])
  {
    if n == 0 {
      assert q[0..] == q && q[..0] == [];
      AllKept(q);
    } else {
      ExpiryMerges(q[1..], n - 1);
      assert q[1..][n - 1..] == q[n..] && q[1..][..n - 1] == q[..n][1..];
    }
  }

  /** Every pair in queue order is in order of id and of arrival. */
  predicate AllEarlier(q: Queue) {
    forall i, j :: 0 <= i < j < |q| ==> Earlier(q[i].rec, q[j].rec)
  }

  lemma {:induction false} MergeMembers(q: Queue, kept: Queue, out: Queue)
    requires Merge(q, kept, out)
    ensures forall m :: m in q <==> m in kept || m in out
  {
    if q != [] {
      if kept != [] && q[0] == kept[0] && Merge(q[1..], kept[1..], out) {
        MergeMembers(q[1..], kept[1..], out);
        assert forall m :: m in kept <==> m == kept[0] || m in kept[1..];
      } else {
        MergeMembers(q[1..], kept, out[1..]);
        assert forall m :: m in out <==> m == out[0] || m in out[1..];
      }
      assert forall m :: m in q <==> m == q[0] || m in q[1..];
    }
  }

  /** What is kept stays in order. */
  lemma {:induction false} MergeOrdered(q: Queue, kept: Queue, out: Queue)
    requires Merge(q, kept, out) && AllEarlier(q)
    ensures AllEarlier(kept)
  {
    hide Earlier;
    if q != [] {
      if kept != [] && q[0] == kept[0] && Merge(q[1..], kept[1..], out) {
        MergeOrdered(q[1..], kept[1..], out);
        MergeMembers(q[1..], kept[1..], out);
        assert forall m :: m in kept[1..] ==> Earlier(kept[0].rec, m.rec);
      } else {
        MergeOrdered(q[1..], kept, out[1..]);
      }
    }
  }

  function Recs(q: Queue): (r: seq<Record>)
    ensures |r| == |q| && forall i :: 0 <= i < |q| ==> r[i] == q[i].rec
  {
    seq(|q|, i requires 0 <= i < |q| => q[i].rec)
  }

  function RecSet(q: Queue): set<Record> {
    set r | r in Recs(q)
  }

  /** The records not in `gone`, in order. */
  function Remaining(rs: seq<Record>, gone: set<Record>): seq<Record> {
    if rs == [] then []
    else if rs[0] in gone then Remaining(rs[1..], gone)
    else [rs[0]] + Remaining(rs[1..], gone)
  }

  lemma {:induction false} RemainingAgrees(rs: seq<Record>, a: set<Record>, b: set<Record>)
    requires forall r :: r in rs ==> (r in a <==> r in b)
    ensures Remaining(rs, a) == Remaining(rs, b)
  {
    if rs != [] {
      assert rs[0] in rs && forall r :: r in rs[1..] ==> r in rs;
      RemainingAgrees(rs[1..], a, b);
    }
  }

  lemma {:induction false} RemainingTwice(rs: seq<Record>, a: set<Record>, b: set<Record>)
    ensures Remaining(Remaining(rs, a), b) == Remaining(rs, a + b)
  {
    if rs != [] {
      RemainingTwice(rs[1..], a, b);
    }
  }

  lemma {:induction false} RemainingLast(rs: seq<Record>, r: Record, gone: set<Record>)
    requires r !in gone
    ensures Remaining(rs + [r], gone) == Remaining(rs, gone) + [r]
  {
    if rs == [] {
      assert rs + [r] == [r];
    } else {
      RemainingLast(rs[1..], r, gone);
      assert (rs + [r])[0] == rs[0] && (rs + [r])[1..] == rs[1..] + [r];
    }
  }

  /** Splitting a queue removes exactly the records of the part taken out. */
  lemma {:induction false} MergeRemaining(q: Queue, kept: Queue, out: Queue)
    requires Merge(q, kept, out) && AllEarlier(q)
    ensures Recs(kept) == Remaining(Recs(q), RecSet(out))
    ensures RecSet(kept) !! RecSet(out)
  {
    hide Earlier, Recs;
    if q != [] {
      var r := q[0].rec;
      RecsCons(q);
      assert forall m :: m in q[1..] ==> Earlier(r, m.rec);
      if kept != [] && q[0] == kept[0] && Merge(q[1..], kept[1..], out) {
        MergeRemaining(q[1..], kept[1..], out);
        MergeMembers(q[1..], kept[1..], out);
        NotEarlierThanItself(r, out);
        RecsCons(kept);
      } else {
        MergeRemaining(q[1..], kept, out[1..]);
        MergeMembers(q[1..], kept, out[1..]);
        NotEarlierThanItself(r, kept);
        NotEarlierThanItself(r, q[1..]);
        RecsCons(out);
        RemainingAgrees(Recs(q[1..]), RecSet(out), RecSet(out[1..]));
      }
    }
  }

  lemma RecsCons(q: Queue)
    requires q != []
    ensures Recs(q) == [q[0].rec] + Recs(q[1..]) && Recs(q)[1..] == Recs(q[1..])
    ensures RecSet(q) == RecSet(q[1..]) + {q[0].rec}
  {
    assert Recs(q) == [q[0].rec] + Recs(q[1..]);
  }

  lemma NotEarlierThanItself(r: Record, q: Queue)
    requires forall m :: m in q ==> Earlier(r, m.rec)
    ensures r !in Recs(q) && r !in RecSet(q)
  {
  }
}
