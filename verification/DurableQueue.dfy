/** The Worker's Durable Object as the code runs it, over one stored value. */
module DurableQueue {
  import opened Text
  import opened Messages
  import opened Worker
  import Js

  class RelayQueue {
    var storage: Stored

    constructor ()
      ensures storage == Nothing
    {
      storage := Nothing;
    }

    /** The record the stored value stands for. */
    ghost function Held(): Queue
      reads this
    {
      View(storage)
    }

    /**
     `load`: upgrades an old shape, expires by age, releases ended leases. `changed` says whether
     what it returns has still to be stored.
     */
    method Load(now: int) returns (q: Queue, changed: bool)
      ensures q == Loaded(Held(), now)
      ensures changed <==> storage.Legacy? || q != Held()
    {
      hide Young, Release, Upgrade;
      changed := false;
      match storage {
        case Nothing => q := Queue(1, 1, []);
        case Legacy(bare) =>
          q := UpgradeLoop(bare);
          changed := true;
        case Current(stored) => q := stored;
      }
      assert q == Held();
      var live := Young(q.msgs, now);
      YoungLength(q.msgs, now);
      if |live| != |q.msgs| {
        changed := true;
      }
      var msgs, released := ReleaseLoop(live, now);
      changed := changed || released;
      q := q.(msgs := msgs);
    }

    /** Ids for messages stored before there were any, in the order they were queued. */
    method UpgradeLoop(bare: seq<OldMsg>) returns (q: Queue)
      ensures q == View(Legacy(bare))
    {
      hide MessageId, IdNumber;
      var n: nat := 1;
      var msgs: seq<Msg> := [];
      assert bare[0..] == bare;
      for i := 0 to |bare|
        invariant n == i + 1 && msgs + Upgrade(bare[i..], n) == Upgrade(bare, 1)
      {
        assert bare[i..][0] == bare[i] && bare[i..][1..] == bare[i + 1..];
        msgs := msgs + [UpgradeOne(bare[i], n)];
        n := n + 1;
      }
      assert bare[|bare|..] == [];
      q := Queue(n, 1, msgs);
    }

    method ReleaseLoop(live: seq<Msg>, now: int) returns (msgs: seq<Msg>, released: bool)
      ensures msgs == Release(live, now) && (released <==> msgs != live)
    {
      msgs, released := live, false;
      for i := 0 to |live|
        invariant |msgs| == |live|
        invariant forall j :: 0 <= j < i ==> msgs[j] == ReleaseOne(live[j], now)
        invariant forall j :: i <= j < |live| ==> msgs[j] == live[j]
        invariant !released ==> msgs == live
        invariant released ==> exists j :: 0 <= j < i && msgs[j] != live[j]
      {
        if msgs[i].lease.Some? && Deadline(msgs[i]) <= now {
          msgs := msgs[i := msgs[i].(lease := None, until := None)];
          released := true;
        }
      }
    }

    method Save(q: Queue)
      modifies this
      ensures storage == Current(q)
    {
      storage := Current(q);
    }

    method Put(seqno: nat, body: string, fits: bool, now: int) returns (a: Answer)
      modifies this
      ensures Outcome(Held(), a) == Worker.Put(old(Held()), seqno, body, fits, now)
      ensures a.Refused? ==> storage == old(storage)
    {
      hide MessageId, IdNumber;
      if !fits {
        return Refused(TooLarge);
      }
      var q, changed := Load(now);
      if |q.msgs| >= MAX_QUEUE {
        return Refused(QueueFull);
      }
      q := q.(msgs := q.msgs + [Msg(MessageId(q.n), Js.Nearest(seqno), body, now, None, None)], n := q.n + 1);
      Save(q);
      a := Accepted;
    }

    /**
     `take`. When there is nothing to hand out and the client will wait, the request is parked;
     other requests run, and it starts over at `later` on what they have left, `meanwhile`.
     `held` is what `parseLease` made of the request, `parked` what is stored while it waits.
     */
    method Take(limit: int, held: Option<nat>, wait: bool, now: int, meanwhile: Stored, later: int)
      returns (a: Answer, ghost parked: Stored)
      modifies this
      ensures var r := Loaded(old(Held()), now);
              if held.Some? && wait && Available(r.msgs, limit, 0) == []
              then View(parked) == r && Outcome(Held(), a) == Worker.Take(View(meanwhile), limit, held, later)
              else Outcome(Held(), a) == Worker.Take(old(Held()), limit, held, now)
    {
      hide LeaseName, Available, Marked, NotIn, Ids, Young, Release, Places, MarkAll;
      parked := storage;
      if held.None? {
        return Refused(BadLease), parked;
      }
      var q, changed := Load(now);
      var at := Positions(q.msgs, limit);
      if |at| == 0 && wait {
        if changed {
          Save(q);
        }
        parked := storage;
        storage := meanwhile;
        q, changed := Load(later);
        a := HandOut(q, changed, limit, held.value, later);
      } else {
        a := HandOut(q, changed, limit, held.value, now);
      }
    }

    /** The rest of `take`, on the record it has loaded. */
    method HandOut(q: Queue, changed: bool, limit: int, held: nat, now: int) returns (a: Answer)
      requires q == Loaded(Held(), now) && (!changed ==> q == Held())
      modifies this
      ensures Outcome(Held(), a) == Worker.Take(old(Held()), limit, Some(held), now)
      ensures Handed(a) == [] && !changed ==> storage == old(storage)
    {
      hide LeaseName, Available, Marked, NotIn, Ids, Young, Release, Places, MarkAll;
      var at := Positions(q.msgs, limit);
      var out := Pick(q.msgs, at);
      if held == 0 {
        a := TakeAway(q, changed, out);
      } else if |out| == 0 {
        if changed {
          Save(q);
        }
        a := Leased("", 0, []);
      } else {
        var lease, until := LeaseName(q.l), now + held;
        var marked := MarkAt(q.msgs, at, lease, until);
        MarkAtIsMarked(q.msgs, limit, lease, until, at, marked);
        Save(q.(msgs := marked, l := q.l + 1));
        a := Leased(lease, until, Pick(marked, at));
      }
    }

    /** Delete on collection. */
    method TakeAway(q: Queue, changed: bool, out: seq<Msg>) returns (a: Answer)
      requires !changed ==> q == Held()
      modifies this
      ensures Held() == q.(msgs := NotIn(q.msgs, Ids(out))) && a == Delivered(out)
      ensures out == [] && !changed ==> storage == old(storage)
    {
      if |out| > 0 {
        Save(q.(msgs := NotIn(q.msgs, Ids(out))));
      } else {
        NothingTaken(q.msgs);
        if changed {
          Save(q);
        }
      }
      a := Delivered(out);
    }

    method Ack(id: string, now: int) returns (a: Answer)
      modifies this
      ensures Outcome(Held(), a) == Worker.Ack(old(Held()), id, now)
      ensures a.Refused? && !old(storage).Legacy? && Held() == old(Held()) ==> storage == old(storage)
    {
      hide TrimSpace, Under, NotUnder, Young, Release;
      var lease := TrimSpace(id);
      var q, changed := Load(now);
      var acked := if lease == "" then [] else Under(q.msgs, lease);
      if |acked| == 0 {
        if changed {
          Save(q);
        }
        return Refused(NoSuchLease);
      }
      q := q.(msgs := NotUnder(q.msgs, lease));
      Save(q);
      a := Deleted(|acked|);
    }
  }

  lemma {:induction false} YoungLength(msgs: seq<Msg>, now: int)
    ensures |Young(msgs, now)| <= |msgs| && (|Young(msgs, now)| == |msgs| ==> Young(msgs, now) == msgs)
  {
    if msgs != [] {
      YoungLength(msgs[1..], now);
    }
  }

  lemma NothingTaken(msgs: seq<Msg>)
    ensures NotIn(msgs, Ids([])) == msgs
  {
    assert Ids([]) == {};
    NotInNothing(msgs);
  }

  // ---- Messages by position ----

  /** Where the available messages stand, having `n` already. */
  function Places(msgs: seq<Msg>, limit: int, n: nat, base: nat): (r: seq<nat>)
    ensures forall i :: 0 <= i < |r| ==> base <= r[i] < base + |msgs|
    ensures forall i, j :: 0 <= i < j < |r| ==> r[i] < r[j]
  {
    if msgs == [] then []
    else if msgs[0].lease.Some? then Places(msgs[1..], limit, n, base + 1)
    else if Full(limit, n) then []
    else [base] + Places(msgs[1..], limit, n + 1, base + 1)
  }

  /** The messages at these places; marking them marks the queue's own, as references do. */
  function Pick(msgs: seq<Msg>, at: seq<nat>): (r: seq<Msg>)
    requires forall i :: 0 <= i < |at| ==> at[i] < |msgs|
    ensures |r| == |at| && forall i :: 0 <= i < |at| ==> r[i] == msgs[at[i]]
  {
    seq(|at|, i requires 0 <= i < |at| => msgs[at[i]])
  }

  lemma PlacesStep(msgs: seq<Msg>, i: nat, limit: int, n: nat)
    requires i < |msgs|
    ensures Places(msgs[i..], limit, n, i) ==
              if msgs[i].lease.Some? then Places(msgs[i + 1..], limit, n, i + 1)
              else if Full(limit, n) then []
              else [i] + Places(msgs[i + 1..], limit, n + 1, i + 1)
  {
    hide Full;
    assert msgs[i..][0] == msgs[i] && msgs[i..][1..] == msgs[i + 1..];
  }

  lemma NoPlaces(limit: int, n: nat, base: nat)
    ensures Places([], limit, n, base) == []
  {
  }

  /** The loop of `available`. */
  method Positions(msgs: seq<Msg>, limit: int) returns (at: seq<nat>)
    ensures at == Places(msgs, limit, 0, 0)
    ensures forall i :: 0 <= i < |at| ==> at[i] < |msgs|
    ensures Pick(msgs, at) == Available(msgs, limit, 0)
  {
    hide Full, Available, Places;
    at := [];
    assert msgs[0..] == msgs;
    var i := 0;
    while i < |msgs|
      invariant 0 <= i <= |msgs|
      invariant at + Places(msgs[i..], limit, |at|, i) == Places(msgs, limit, 0, 0)
      invariant i == |msgs| ==> msgs[i..] == []
    {
      PlacesStep(msgs, i, limit, |at|);
      if msgs[i].lease.None? {
        if Full(limit, |at|) {
          break;
        }
        at := at + [i];
      }
      i := i + 1;
    }
    NoPlaces(limit, |at|, i);
    assert at == Places(msgs, limit, 0, 0);
    PlacesAvailable(msgs, [], msgs, limit, 0);
  }

  lemma {:induction false} PlacesAvailable(all: seq<Msg>, front: seq<Msg>, msgs: seq<Msg>, limit: int, n: nat)
    requires all == front + msgs
    ensures Pick(all, Places(msgs, limit, n, |front|)) == Available(msgs, limit, n)
    decreases |msgs|
  {
    hide Full;
    if msgs != [] && (msgs[0].lease.Some? || !Full(limit, n)) {
      var next := if msgs[0].lease.Some? then n else n + 1;
      assert all == (front + [msgs[0]]) + msgs[1..];
      PlacesAvailable(all, front + [msgs[0]], msgs[1..], limit, next);
    }
  }

  /** The loop that marks what is handed out. */
  method MarkAt(msgs: seq<Msg>, at: seq<nat>, lease: string, until: int) returns (marked: seq<Msg>)
    requires forall i :: 0 <= i < |at| ==> at[i] < |msgs|
    ensures |marked| == |msgs|
    ensures forall j :: 0 <= j < |msgs| ==> marked[j] == if j in at then MarkOne(msgs[j], lease, until) else msgs[j]
  {
    marked := msgs;
    for i := 0 to |at|
      invariant |marked| == |msgs|
      invariant forall j :: 0 <= j < |msgs| ==>
                  marked[j] == if j in at[..i] then MarkOne(msgs[j], lease, until) else msgs[j]
    {
      marked := marked[at[i] := MarkOne(marked[at[i]], lease, until)];
      assert at[..i + 1] == at[..i] + [at[i]];
    }
    assert at[..|at|] == at;
  }

  /** How the first message decides places and marks. */
  lemma FirstPlace(msgs: seq<Msg>, limit: int, n: nat, base: nat, lease: string, until: int)
    requires msgs != []
    ensures var m, tail := msgs[0], msgs[1..];
            if m.lease.Some? then
              && Places(msgs, limit, n, base) == Places(tail, limit, n, base + 1)
              && Marked(msgs, limit, n, lease, until) == [m] + Marked(tail, limit, n, lease, until)
            else if Full(limit, n) then
              Places(msgs, limit, n, base) == [] && Marked(msgs, limit, n, lease, until) == msgs
            else
              && Places(msgs, limit, n, base) == [base] + Places(tail, limit, n + 1, base + 1)
              && Marked(msgs, limit, n, lease, until)
                 == [MarkOne(m, lease, until)] + Marked(tail, limit, n + 1, lease, until)
  {
    hide Full, MarkOne;
  }

  lemma PlaceBeyond(places: seq<nat>, base: nat)
    requires forall i :: 0 <= i < |places| ==> base < places[i]
    ensures base !in places
  {
  }

  /** The message at place `j` is marked exactly when it is one of the available ones. */
  lemma {:induction false} MarkedPlace(msgs: seq<Msg>, limit: int, n: nat, base: nat, lease: string, until: int, j: nat)
    requires j < |msgs|
    ensures |Marked(msgs, limit, n, lease, until)| == |msgs|
    ensures Marked(msgs, limit, n, lease, until)[j] ==
              if base + j in Places(msgs, limit, n, base) then MarkOne(msgs[j], lease, until) else msgs[j]
  {
    hide Full, MarkOne, Marked, Places;
    MarkedIds(msgs, limit, n, lease, until);
    FirstPlace(msgs, limit, n, base, lease, until);
    if msgs[0].lease.Some? || !Full(limit, n) {
      var next := if msgs[0].lease.Some? then n else n + 1;
      PlaceBeyond(Places(msgs[1..], limit, next, base + 1), base);
      if j > 0 {
        MarkedPlace(msgs[1..], limit, next, base + 1, lease, until, j - 1);
        assert msgs[1..][j - 1] == msgs[j] && base + 1 + (j - 1) == base + j;
      }
    }
  }

  lemma MarkAtIsMarked(msgs: seq<Msg>, limit: int, lease: string, until: int, at: seq<nat>, marked: seq<Msg>)
    requires at == Places(msgs, limit, 0, 0) && |marked| == |msgs|
    requires forall j :: 0 <= j < |msgs| ==> marked[j] == if j in at then MarkOne(msgs[j], lease, until) else msgs[j]
    ensures marked == Marked(msgs, limit, 0, lease, until)
    ensures Pick(marked, at) == MarkAll(Pick(msgs, at), lease, until)
  {
    hide Marked, Places;
    MarkedIds(msgs, limit, 0, lease, until);
    forall j | 0 <= j < |msgs| ensures marked[j] == Marked(msgs, limit, 0, lease, until)[j] {
      MarkedPlace(msgs, limit, 0, 0, lease, until, j);
    }
  }
}
