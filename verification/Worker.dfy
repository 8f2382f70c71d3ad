/**
 The Worker's queue (edge/src/worker.ts, RelayQueue): one stored record per route, holding the
 messages and the counters that name them.
 */
module Worker {
  import opened Text
  import opened Messages
  import Js

  const TTL_MS: int := 7 * 24 * 60 * 60 * 1000
  const MAX_LEASE_MS: int := 5 * 60 * 1000
  const MAX_QUEUE: nat := 256

  /** Times are in milliseconds, `seqno` is a JavaScript number, `lease` and `until` are the optional fields. */
  datatype Msg = Msg(id: string, seqno: nat, body: string, at: int, lease: Option<string>, until: Option<int>)

  /** The stored shape: next message number, next lease number, messages. */
  datatype Queue = Queue(n: nat, l: nat, msgs: seq<Msg>)

  /** A message stored before there were leases. */
  datatype OldMsg = OldMsg(seqno: nat, body: string, at: int)

  datatype Stored = Nothing | Legacy(bare: seq<OldMsg>) | Current(q: Queue)

  datatype Reason = TooLarge | QueueFull | BadLease | NoSuchLease

  datatype Answer =
    | Accepted
    | Refused(why: Reason)
    | Delivered(msgs: seq<Msg>)
    | Leased(lease: string, until: int, msgs: seq<Msg>)
    | Deleted(count: nat)

  datatype Outcome = Outcome(q: Queue, answer: Answer)

  function LeaseName(l: nat): (name: string)
    ensures LeaseNumber(name) == Some(l)
  {
    var name := "L" + Dec(l);
    assert name[1..] == Dec(l);
    name
  }

  /** The counter inside a lease name. */
  function LeaseNumber(name: string): Option<nat> {
    if HasPrefix(name, "L") && |name| > 1 && AllDigits(name[1..]) then Some(Text.Value(name[1..])) else None
  }

  // ---- Loading ----

  /** A bare message, given the id it would have had. */
  function UpgradeOne(m: OldMsg, n: nat): Msg {
    Msg(MessageId(n), m.seqno, m.body, m.at, None, None)
  }

  function Upgrade(msgs: seq<OldMsg>, n: nat): seq<Msg> {
    if msgs == [] then [] else [UpgradeOne(msgs[0], n)] + Upgrade(msgs[1..], n + 1)
  }

  /** The record a stored value stands for. */
  function View(s: Stored): Queue {
    match s
    case Nothing => Queue(1, 1, [])
    case Legacy(msgs) => Queue(|msgs| + 1, 1, Upgrade(msgs, 1))
    case Current(q) => q
  }

  function Young(msgs: seq<Msg>, now: int): seq<Msg> {
    if msgs == [] then []
    else if msgs[0].at >= now - TTL_MS then [msgs[0]] + Young(msgs[1..], now)
    else Young(msgs[1..], now)
  }

  function Deadline(m: Msg): int {
    if m.until.Some? then m.until.value else 0
  }

  function ReleaseOne(m: Msg, now: int): Msg {
    if m.lease.Some? && Deadline(m) <= now then m.(lease := None, until := None) else m
  }

  function Release(msgs: seq<Msg>, now: int): (r: seq<Msg>)
    ensures |r| == |msgs| && forall i :: 0 <= i < |msgs| ==> r[i] == ReleaseOne(msgs[i], now)
  {
    seq(|msgs|, i requires 0 <= i < |msgs| => ReleaseOne(msgs[i], now))
  }

  function Loaded(q: Queue, now: int): Queue {
    q.(msgs := Release(Young(q.msgs, now), now))
  }

  // ---- Operations on a loaded record ----

  /** Whether a collector that already has `n` messages may have no more. */
  predicate Full(limit: int, n: nat) {
    limit > 0 && n >= limit
  }

  /** The messages a collector may have, having `n` already. */
  function Available(msgs: seq<Msg>, limit: int, n: nat): seq<Msg> {
    if msgs == [] then []
    else if msgs[0].lease.Some? then Available(msgs[1..], limit, n)
    else if Full(limit, n) then []
    else [msgs[0]] + Available(msgs[1..], limit, n + 1)
  }

  function MarkOne(m: Msg, lease: string, until: int): Msg {
    m.(lease := Some(lease), until := Some(until))
  }

  /** The messages after marking the available ones in place. */
  function Marked(msgs: seq<Msg>, limit: int, n: nat, lease: string, until: int): seq<Msg> {
    if msgs == [] then []
    else if msgs[0].lease.Some? then [msgs[0]] + Marked(msgs[1..], limit, n, lease, until)
    else if Full(limit, n) then msgs
    else [MarkOne(msgs[0], lease, until)] + Marked(msgs[1..], limit, n + 1, lease, until)
  }

  function MarkAll(msgs: seq<Msg>, lease: string, until: int): (r: seq<Msg>)
    ensures |r| == |msgs| && forall i :: 0 <= i < |msgs| ==> r[i] == MarkOne(msgs[i], lease, until)
  {
    seq(|msgs|, i requires 0 <= i < |msgs| => MarkOne(msgs[i], lease, until))
  }

  function Ids(msgs: seq<Msg>): set<string> {
    set m | m in msgs :: m.id
  }

  /** Deletion by id set. */
  function NotIn(msgs: seq<Msg>, ids: set<string>): seq<Msg> {
    if msgs == [] then []
    else if msgs[0].id in ids then NotIn(msgs[1..], ids)
    else [msgs[0]] + NotIn(msgs[1..], ids)
  }

  function Under(msgs: seq<Msg>, lease: string): seq<Msg> {
    if msgs == [] then []
    else if msgs[0].lease == Some(lease) then [msgs[0]] + Under(msgs[1..], lease)
    else Under(msgs[1..], lease)
  }

  function NotUnder(msgs: seq<Msg>, lease: string): seq<Msg> {
    if msgs == [] then []
    else if msgs[0].lease == Some(lease) then NotUnder(msgs[1..], lease)
    else [msgs[0]] + NotUnder(msgs[1..], lease)
  }

  /** `fits` is the size check, which is on the encoded body. A refused put stores nothing. */
  function Put(q: Queue, seqno: nat, body: string, fits: bool, now: int): Outcome {
    if !fits then Outcome(q, Refused(TooLarge))
    else
      var r := Loaded(q, now);
      if |r.msgs| >= MAX_QUEUE then Outcome(q, Refused(QueueFull))
      else
        var m := Msg(MessageId(r.n), Js.Nearest(seqno), body, now, None, None);
        Outcome(r.(msgs := r.msgs + [m], n := r.n + 1), Accepted)
  }

  /** `held` is what `parseLease` made of the request: None when it refused it, 0 for no lease. */
  function Take(q: Queue, limit: int, held: Option<nat>, now: int): Outcome {
    if held.None? then Outcome(q, Refused(BadLease))
    else
      var r := Loaded(q, now);
      var out := Available(r.msgs, limit, 0);
      if held.value == 0 then Outcome(r.(msgs := NotIn(r.msgs, Ids(out))), Delivered(out))
      else if out == [] then Outcome(r, Leased("", 0, []))
      else
        var lease, until := LeaseName(r.l), now + held.value;
        Outcome(r.(msgs := Marked(r.msgs, limit, 0, lease, until), l := r.l + 1),
                Leased(lease, until, MarkAll(out, lease, until)))
  }

  function Ack(q: Queue, id: string, now: int): Outcome {
    var lease := TrimSpace(id);
    var r := Loaded(q, now);
    var acked := if lease == "" then [] else Under(r.msgs, lease);
    if acked == [] then Outcome(r, Refused(NoSuchLease))
    else Outcome(r.(msgs := NotUnder(r.msgs, lease)), Deleted(|acked|))
  }

  /** The messages an answer hands over. */
  function Handed(a: Answer): seq<Msg> {
    match a
    case Delivered(msgs) => msgs
    case Leased(_, _, msgs) => msgs
    case _ => []
  }

  /** A leased collection takes the next lease number if it hands anything over, and no number otherwise. */
  lemma LeaseNaming(q: Queue, limit: int, ms: nat, now: int)
    requires ms > 0
    ensures var o, free := Take(q, limit, Some(ms), now), Available(Loaded(q, now).msgs, limit, 0);
            && o.answer.Leased? && |o.answer.msgs| == |free| && o.q.n == q.n
            && (free == [] ==> o.q.l == q.l && o.answer.lease == "")
            && (free != [] ==> o.q.l == q.l + 1 && o.answer.lease == "L" + Dec(q.l) && o.answer.until == now + ms)
  {
    hide Young, Available, Marked, Dec;
  }

  /** What the Worker refuses, and why; a refused put or a refused duration stores nothing. */
  lemma RefusalsExactly(q: Queue, seqno: nat, body: string, fits: bool, limit: int, held: Option<nat>, now: int)
    ensures var o, young := Put(q, seqno, body, fits, now), Young(q.msgs, now);
            && (o.answer == Refused(TooLarge) <==> !fits)
            && (o.answer == Refused(QueueFull) <==> fits && |young| >= 256)
            && (o.answer.Refused? ==> o.q == q) && (o.answer.Accepted? <==> fits && |young| < 256)
    ensures var o := Take(q, limit, held, now);
            (o.answer == Refused(BadLease) <==> held.None?) && (held.None? ==> o.q == q)
  {
    hide Young, Available, Marked, NotIn, Ids, MarkAll, LeaseName;
  }

  // ---- Ids ----

  function Number(m: Msg): nat {
    if IdNumber(m.id).Some? then IdNumber(m.id).value else 0
  }

  /** Ids increase along the queue and stay below the counter. */
  predicate Numbered(q: Queue) {
    && (forall i :: 0 <= i < |q.msgs| ==> IdNumber(q.msgs[i].id).Some? && Number(q.msgs[i]) < q.n)
    && (forall i, j :: 0 <= i < j < |q.msgs| ==> Number(q.msgs[i]) < Number(q.msgs[j]))
  }

  /** `a` is some of the messages of `b`, in order, whatever their leases. */
  predicate Thinned(a: seq<Msg>, b: seq<Msg>) {
    if a == [] then true
    else b != [] && ((a[0].id == b[0].id && Thinned(a[1..], b[1..])) || Thinned(a, b[1..]))
  }

  lemma {:induction false} ThinnedMembers(a: seq<Msg>, b: seq<Msg>, i: nat)
    requires Thinned(a, b) && i < |a|
    ensures exists j :: 0 <= j < |b| && a[i].id == b[j].id
    decreases |b|
  {
    if a[0].id == b[0].id && Thinned(a[1..], b[1..]) {
      if i > 0 {
        ThinnedMembers(a[1..], b[1..], i - 1);
        var j :| 0 <= j < |b[1..]| && a[i].id == b[1..][j].id;
        assert b[j + 1].id == a[i].id;
      }
    } else {
      ThinnedMembers(a, b[1..], i);
      var j :| 0 <= j < |b[1..]| && a[i].id == b[1..][j].id;
      assert b[j + 1].id == a[i].id;
    }
  }

  lemma {:induction false} ThinnedNumbered(a: seq<Msg>, q: Queue)
    requires Numbered(q) && Thinned(a, q.msgs)
    ensures Numbered(q.(msgs := a))
    decreases |q.msgs|
  {
    hide IdNumber;
    if a != [] {
      var tail := q.(msgs := q.msgs[1..]);
      if a[0].id == q.msgs[0].id && Thinned(a[1..], q.msgs[1..]) {
        ThinnedNumbered(a[1..], tail);
        forall i | 0 <= i < |a[1..]|
          ensures Number(a[0]) < Number(a[1..][i])
        {
          ThinnedMembers(a[1..], q.msgs[1..], i);
        }
      } else {
        ThinnedNumbered(a, tail);
      }
    }
  }

  lemma {:induction false} SameIdsThinned(a: seq<Msg>, b: seq<Msg>)
    requires |a| == |b| && forall i :: 0 <= i < |a| ==> a[i].id == b[i].id
    ensures Thinned(a, b)
  {
    if a != [] {
      SameIdsThinned(a[1..], b[1..]);
    }
  }

  lemma {:induction false} YoungThinned(msgs: seq<Msg>, now: int)
    ensures Thinned(Young(msgs, now), msgs)
  {
    if msgs != [] {
      YoungThinned(msgs[1..], now);
    }
  }

  lemma {:induction false} NotInThinned(msgs: seq<Msg>, ids: set<string>)
    ensures Thinned(NotIn(msgs, ids), msgs)
  {
    if msgs != [] {
      NotInThinned(msgs[1..], ids);
    }
  }

  lemma {:induction false} NotUnderThinned(msgs: seq<Msg>, lease: string)
    ensures Thinned(NotUnder(msgs, lease), msgs)
  {
    if msgs != [] {
      NotUnderThinned(msgs[1..], lease);
    }
  }

  lemma {:induction false} MarkedIds(msgs: seq<Msg>, limit: int, n: nat, lease: string, until: int)
    ensures var r := Marked(msgs, limit, n, lease, until);
            |r| == |msgs| && forall i :: 0 <= i < |r| ==> r[i].id == msgs[i].id
  {
    if msgs != [] && (msgs[0].lease.Some? || !Full(limit, n)) {
      MarkedIds(msgs[1..], limit, if msgs[0].lease.Some? then n else n + 1, lease, until);
    }
  }

  lemma LoadedNumbered(q: Queue, now: int)
    requires Numbered(q)
    ensures Numbered(Loaded(q, now)) && Loaded(q, now).n == q.n
  {
    hide Numbered;
    YoungThinned(q.msgs, now);
    ThinnedNumbered(Young(q.msgs, now), q);
    var young := q.(msgs := Young(q.msgs, now));
    SameIdsThinned(Release(young.msgs, now), young.msgs);
    ThinnedNumbered(Release(young.msgs, now), young);
  }

  lemma {:induction false} UpgradeNumbers(msgs: seq<OldMsg>, n: nat)
    ensures |Upgrade(msgs, n)| == |msgs|
    ensures forall i :: 0 <= i < |msgs| ==> IdNumber(Upgrade(msgs, n)[i].id) == Some(n + i)
  {
    hide IdNumber, MessageId;
    if msgs != [] {
      UpgradeNumbers(msgs[1..], n + 1);
    }
  }

  /** An upgrade keeps every message as it was and gives the i-th the id m<i>. */
  lemma {:induction false} UpgradeKeeps(bare: seq<OldMsg>, n: nat)
    ensures |Upgrade(bare, n)| == |bare|
    ensures forall i :: 0 <= i < |bare| ==>
              var m := Upgrade(bare, n)[i];
              && m.seqno == bare[i].seqno && m.body == bare[i].body && m.at == bare[i].at
              && m.lease.None? && m.until.None? && m.id == "m" + Dec(n + i)
  {
    hide IdNumber, MessageNumber, Dec;
    if bare != [] {
      UpgradeKeeps(bare[1..], n + 1);
      assert forall i :: 1 <= i < |bare| ==> Upgrade(bare, n)[i] == Upgrade(bare[1..], n + 1)[i - 1];
    }
  }

  /** The legacy messages of at most seven days, in order. */
  function YoungBare(bare: seq<OldMsg>, now: int): seq<OldMsg> {
    if bare == [] then []
    else if now - bare[0].at <= 7 * 24 * 60 * 60 * 1000 then [bare[0]] + YoungBare(bare[1..], now)
    else YoungBare(bare[1..], now)
  }

  predicate SameContents(msgs: seq<Msg>, bare: seq<OldMsg>) {
    && |msgs| == |bare|
    && forall i :: 0 <= i < |msgs| ==>
         && msgs[i].seqno == bare[i].seqno && msgs[i].body == bare[i].body && msgs[i].at == bare[i].at
         && msgs[i].lease.None?
  }

  lemma {:induction false} YoungContents(msgs: seq<Msg>, bare: seq<OldMsg>, now: int)
    requires SameContents(msgs, bare)
    ensures SameContents(Young(msgs, now), YoungBare(bare, now))
  {
    if msgs != [] {
      YoungContents(msgs[1..], bare[1..], now);
    }
  }

  lemma {:induction false} AllAvailable(msgs: seq<Msg>, n: nat)
    requires forall i :: 0 <= i < |msgs| ==> msgs[i].lease.None?
    ensures Available(msgs, 0, n) == msgs
  {
    if msgs != [] {
      AllAvailable(msgs[1..], n + 1);
    }
  }

  /** Loading a legacy record, and collecting it for the first time, gives its young messages as they were stored. */
  lemma LegacySurvives(bare: seq<OldMsg>, now: int)
    ensures SameContents(Loaded(View(Legacy(bare)), now).msgs, YoungBare(bare, now))
    ensures var o := Take(View(Legacy(bare)), 0, Some(0), now);
            o.answer.Delivered? && SameContents(o.answer.msgs, YoungBare(bare, now))
  {
    hide Upgrade, Young, YoungBare, Available;
    var q := View(Legacy(bare));
    UpgradeKeeps(bare, 1);
    YoungContents(q.msgs, bare, now);
    var young := Young(q.msgs, now);
    assert Release(young, now) == young;
    AllAvailable(young, 0);
  }

  /** Whatever is stored, legacy shape included, its ids increase and stay below its counter. */
  lemma ViewNumbered(s: Stored)
    requires s.Current? ==> Numbered(s.q)
    ensures Numbered(View(s))
  {
    hide IdNumber, Upgrade;
    if s.Legacy? {
      UpgradeNumbers(s.bare, 1);
    }
  }

  /** Every operation keeps ids increasing below the counter, and never moves the counter back. */
  lemma OperationsNumbered(q: Queue, seqno: nat, body: string, fits: bool, limit: int, held: Option<nat>, id: string,
                           now: int)
    requires Numbered(q)
    ensures Numbered(Put(q, seqno, body, fits, now).q) && Put(q, seqno, body, fits, now).q.n >= q.n
    ensures Numbered(Take(q, limit, held, now).q) && Take(q, limit, held, now).q.n == q.n
    ensures Numbered(Ack(q, id, now).q) && Ack(q, id, now).q.n == q.n
  {
    hide IdNumber, MessageId, Number, TrimSpace, Numbered, Loaded, Thinned;
    LoadedNumbered(q, now);
    var r := Loaded(q, now);
    PutNumbered(r, Js.Nearest(seqno), body, now);
    var out := Available(r.msgs, limit, 0);
    NotInThinned(r.msgs, Ids(out));
    ThinnedNumbered(NotIn(r.msgs, Ids(out)), r);
    if held.Some? {
      var marked := Marked(r.msgs, limit, 0, LeaseName(r.l), now + held.value);
      MarkedIds(r.msgs, limit, 0, LeaseName(r.l), now + held.value);
      SameIdsThinned(marked, r.msgs);
      ThinnedNumbered(marked, r);
      LeaseCounterIrrelevant(r.(msgs := marked), r.l + 1);
    }
    NotUnderThinned(r.msgs, TrimSpace(id));
    ThinnedNumbered(NotUnder(r.msgs, TrimSpace(id)), r);
  }

  lemma LeaseCounterIrrelevant(q: Queue, l: nat)
    requires Numbered(q)
    ensures Numbered(q.(l := l))
  {
  }

  lemma PutNumbered(r: Queue, seqno: nat, body: string, now: int)
    requires Numbered(r)
    ensures Numbered(r.(msgs := r.msgs + [Msg(MessageId(r.n), seqno, body, now, None, None)], n := r.n + 1))
  {
    hide IdNumber, MessageId;
  }

  // ---- Whole lives of a queue ----

  datatype Op =
    | Putting(seqno: nat, body: string, fits: bool)
    | Taking(limit: int, held: Option<nat>)
    | Acking(id: string)

  datatype Timed = Timed(now: int, op: Op)

  function Do(q: Queue, t: Timed): Outcome {
    match t.op
    case Putting(seqno, body, fits) => Put(q, seqno, body, fits, t.now)
    case Taking(limit, held) => Take(q, limit, held, t.now)
    case Acking(id) => Ack(q, id, t.now)
  }

  /** The record after a history that begins with whatever is stored. */
  function After(s: Stored, ts: seq<Timed>): Queue {
    if ts == [] then View(s) else Do(After(s, ts[..|ts| - 1]), ts[|ts| - 1]).q
  }

  predicate AcceptedAt(s: Stored, ts: seq<Timed>, i: nat)
    requires i < |ts|
  {
    Do(After(s, ts[..i]), ts[i]).answer.Accepted?
  }

  lemma AfterStep(s: Stored, ts: seq<Timed>, i: nat)
    requires i < |ts|
    ensures After(s, ts[..i + 1]) == Do(After(s, ts[..i]), ts[i]).q
  {
    assert ts[..i + 1][..i] == ts[..i];
  }

  /** Through emptying, eviction and upgrade, ids stay increasing below a counter that never goes back. */
  lemma {:induction false} LifeNumbered(s: Stored, ts: seq<Timed>, i: nat, j: nat)
    requires (s.Current? ==> Numbered(s.q)) && i <= j <= |ts|
    ensures Numbered(After(s, ts[..i])) && Numbered(After(s, ts[..j])) && After(s, ts[..i]).n <= After(s, ts[..j]).n
    decreases j
  {
    hide Numbered, Put, Take, Ack, After, View;
    if j == 0 {
      assert After(s, ts[..0]) == View(s) by { assert ts[..0] == []; Start(s, ts[..0]); }
      ViewNumbered(s);
    } else {
      var p := if i == j then j - 1 else i;
      LifeNumbered(s, ts, p, j - 1);
      AfterStep(s, ts, j - 1);
      var q, t := After(s, ts[..j - 1]), ts[j - 1];
      match t.op
      case Putting(seqno, body, fits) => OperationsNumbered(q, seqno, body, fits, 0, None, "", t.now);
      case Taking(limit, held) => OperationsNumbered(q, 0, "", false, limit, held, "", t.now);
      case Acking(id) => OperationsNumbered(q, 0, "", false, 0, None, id, t.now);
    }
  }

  lemma Start(s: Stored, ts: seq<Timed>)
    requires ts == []
    ensures After(s, ts) == View(s)
  {
  }

  lemma PutTakesNext(q: Queue, t: Timed)
    requires Do(q, t).answer.Accepted?
    ensures var r := Do(q, t).q; r.n == q.n + 1 && r.msgs != [] && r.msgs[|r.msgs| - 1].id == MessageId(q.n)
  {
    hide MessageId, Young, Release, TrimSpace, Under, NotUnder, Available, NotIn, Ids, Marked, LeaseName;
  }

  /** The id of an accepted message is larger than that of every message accepted before it. */
  lemma IdsNeverReused(s: Stored, ts: seq<Timed>, i: nat, j: nat)
    requires (s.Current? ==> Numbered(s.q)) && i < j < |ts| && AcceptedAt(s, ts, i) && AcceptedAt(s, ts, j)
    ensures var a, b := After(s, ts[..i + 1]).msgs, After(s, ts[..j + 1]).msgs;
            && a != [] && b != []
            && IdNumber(a[|a| - 1].id).Some? && IdNumber(b[|b| - 1].id).Some?
            && Number(a[|a| - 1]) < Number(b[|b| - 1])
  {
    hide Do, After, IdNumber, MessageId, Numbered;
    LifeNumbered(s, ts, i + 1, j);
    AfterStep(s, ts, i);
    AfterStep(s, ts, j);
    PutTakesNext(After(s, ts[..i]), ts[i]);
    PutTakesNext(After(s, ts[..j]), ts[j]);
  }

  /** What `available` leaves behind, by position. */
  function Rest(msgs: seq<Msg>, limit: int, n: nat): seq<Msg> {
    if msgs == [] then []
    else if msgs[0].lease.Some? then [msgs[0]] + Rest(msgs[1..], limit, n)
    else if Full(limit, n) then msgs
    else Rest(msgs[1..], limit, n + 1)
  }

  lemma {:induction false} AvailableMembers(msgs: seq<Msg>, limit: int, n: nat)
    ensures forall m :: m in Available(msgs, limit, n) ==> m in msgs
  {
    if msgs != [] && (msgs[0].lease.Some? || !Full(limit, n)) {
      AvailableMembers(msgs[1..], limit, if msgs[0].lease.Some? then n else n + 1);
    }
  }

  lemma {:induction false} NotInAgrees(msgs: seq<Msg>, a: set<string>, b: set<string>)
    requires forall m :: m in msgs ==> (m.id in a <==> m.id in b)
    ensures NotIn(msgs, a) == NotIn(msgs, b)
  {
    if msgs != [] {
      assert msgs[0] in msgs && forall m :: m in msgs[1..] ==> m in msgs;
      NotInAgrees(msgs[1..], a, b);
    }
  }

  lemma {:induction false} NotInNothing(msgs: seq<Msg>)
    ensures NotIn(msgs, {}) == msgs
  {
    if msgs != [] {
      NotInNothing(msgs[1..]);
    }
  }

  lemma FirstIdUnique(q: Queue)
    requires Numbered(q) && q.msgs != []
    ensures Numbered(q.(msgs := q.msgs[1..])) && forall m :: m in q.msgs[1..] ==> m.id != q.msgs[0].id
  {
    hide IdNumber;
    assert forall i :: 1 <= i < |q.msgs| ==> Number(q.msgs[0]) < Number(q.msgs[i]);
  }

  /** Deleting by id set removes exactly the messages handed out, because ids are unique. */
  lemma {:induction false} DeletesExactlyTaken(q: Queue, limit: int, n: nat)
    requires Numbered(q)
    ensures NotIn(q.msgs, Ids(Available(q.msgs, limit, n))) == Rest(q.msgs, limit, n)
    decreases |q.msgs|
  {
    hide Numbered;
    if q.msgs != [] {
      var m, tail := q.msgs[0], q.(msgs := q.msgs[1..]);
      FirstIdUnique(q);
      if m.lease.Some? {
        AvailableMembers(tail.msgs, limit, n);
        DeletesExactlyTaken(tail, limit, n);
      } else if Full(limit, n) {
        assert Ids(Available(q.msgs, limit, n)) == {};
        NotInNothing(q.msgs);
      } else {
        var rest := Available(tail.msgs, limit, n + 1);
        DeletesExactlyTaken(tail, limit, n + 1);
        assert Ids([m] + rest) == Ids(rest) + {m.id};
        NotInAgrees(tail.msgs, Ids([m] + rest), Ids(rest));
      }
    }
  }
}
