/**
 The Go store as a value, and each of its operations as a function of the store and the
 moment it runs at. `Relay` proves the store's methods compute these functions; `Runs` proves
 what they guarantee together.
 */
module Stores {
  import opened Text
  import opened Messages
  import opened Queues

  datatype Store = Store(q: map<string, Queue>, ids: nat, leases: nat, epoch: string)

  function NewStore(epoch: string): Store {
    Store(map[], 0, 0, epoch)
  }

  function At(s: Store, k: string): Queue {
    QueueAt(s.q, k)
  }

  datatype Refusal = BadRoute | TooLarge | QueueFull | NotDurable | BadLease | LeaseTooLong | NoSuchLease

  /** `file` is what the spool answered a Put: None for an error, Some("") for no spool at all. */
  datatype Call =
    | Put(route: Route, seqno: nat, body: string, file: Option<string>)
    | Take(route: Route, limit: int)
    | TakeLeased(route: Route, limit: int, d: Time)
    | Ack(route: Route, id: string)
    | Depth(route: Route)
    | Sweep

  datatype Answer =
    | Accepted(rec: Record)
    | Refused(why: Refusal)
    | Delivered(msgs: Queue)
    | Leased(lease: string, until: Time, msgs: Queue)
    | Deleted(count: nat)
    | Waiting(count: nat)
    | Swept

  datatype Outcome = Outcome(store: Store, answer: Answer)

  /** What an operation refuses before it takes the lock. */
  function Reject(c: Call): Option<Refusal> {
    match c
    case Put(r, _, body, _) =>
      if !ValidRoute(r) then Some(BadRoute) else if |body| > MAX_BODY then Some(TooLarge) else None
    case Take(r, _) => if !ValidRoute(r) then Some(BadRoute) else None
    case TakeLeased(r, _, d) =>
      if !ValidRoute(r) then Some(BadRoute)
      else if d <= 0 then Some(BadLease) else if d > MAX_LEASE then Some(LeaseTooLong) else None
    case Ack(r, id) => if !ValidRoute(r) then Some(BadRoute) else if Blank(id) then Some(NoSuchLease) else None
    case Depth(_) => None
    case Sweep => None
  }

  /** `expireLocked` on one queue. */
  function Expire(s: Store, k: string, now: Time): Store {
    s.(q := SetQueue(s.q, k, Fresh(At(s, k), now)))
  }

  /** `Sweep`: every queue expired, the empty ones gone. */
  function SweepAll(q: map<string, Queue>, now: Time): map<string, Queue> {
    map k | k in q && Fresh(q[k], now) != [] :: Fresh(q[k], now)
  }

  /** The store as an operation finds it once the lock is held and expiry is done. */
  function Prepared(s: Store, c: Call, now: Time): Store {
    if c.Sweep? then s.(q := SweepAll(s.q, now)) else Expire(s, Key(c.route), now)
  }

  /** What an operation does to a prepared store. */
  function Core(s: Store, c: Call, now: Time): Outcome {
    match c
    case Put(r, seqno, body, file) =>
      var k := Key(r);
      if |At(s, k)| >= MAX_QUEUE then Outcome(s, Refused(QueueFull))
      else
        var t := s.(ids := s.ids + 1);
        var rec := Record(MessageId(t.ids), r, seqno, body, now);
        if file.None? then Outcome(t, Refused(NotDurable))
        else Outcome(t.(q := t.q[k := At(t, k) + [Message(rec, file.value, "", 0)]]), Accepted(rec))
    case Take(r, limit) =>
      var k := Key(r);
      var msgs := Release(At(s, k), now);
      Outcome(s.(q := SetQueue(s.q, k, Kept(msgs, limit, 0))), Delivered(Taken(msgs, limit, 0)))
    case TakeLeased(r, limit, d) =>
      var k := Key(r);
      var msgs := Release(At(s, k), now);
      var id := LeaseId(s.epoch, s.leases + 1);
      var held := Held(msgs, limit, 0, id, now + d);
      Outcome(s.(q := SetQueue(s.q, k, Marked(msgs, limit, 0, id, now + d)), leases := s.leases + 1),
              if held == [] then Leased("", 0, []) else Leased(id, now + d, held))
    case Ack(r, id) =>
      var k := Key(r);
      var msgs := Release(At(s, k), now);
      var acked := Under(msgs, id);
      Outcome(s.(q := SetQueue(s.q, k, NotUnder(msgs, id))),
              if acked == [] then Refused(NoSuchLease) else Deleted(|acked|))
    case Depth(r) => Outcome(s, Waiting(|At(s, Key(r))|))
    case Sweep => Outcome(s, Swept)
  }

  /** One operation of the store, at one moment. */
  function Apply(s: Store, c: Call, now: Time): Outcome {
    match Reject(c)
    case Some(why) => Outcome(s, Refused(why))
    case None => Core(Prepared(s, c, now), c, now)
  }

  // ---- Shape ----

  /** Each operation changes only its own queue. */
  lemma OneQueue(s: Store, c: Call, now: Time, k: string)
    requires !c.Sweep? && k != Key(c.route)
    ensures At(Apply(s, c, now).store, k) == At(s, k)
  {
  }

  /** How each operation moves the counters. */
  lemma Counters(s: Store, c: Call, now: Time)
    ensures var t := Apply(s, c, now).store;
            && t.epoch == s.epoch
            && s.ids <= t.ids <= s.ids + 1 && (t.ids != s.ids ==> c.Put?)
            && t.leases == if c.TakeLeased? && Reject(c).None? then s.leases + 1 else s.leases
  {
    hide Key, LeaseId, MessageId, Fresh, Release, Blank, Kept, Taken, Marked, Held, Under, NotUnder, SweepAll;
  }

  /** What a queue looks like to an operation on its route: expired, and for a collector, released. */
  function Seen(s: Store, k: string, now: Time): Queue {
    Release(Fresh(At(s, k), now), now)
  }

  /** The queue of the operation's route afterwards. */
  function After(s: Store, c: Call, now: Time): Queue
    requires Reject(c).None? && !c.Sweep?
  {
    var k := Key(c.route);
    var msgs := Seen(s, k, now);
    match c
    case Put(r, seqno, body, file) =>
      var q := Fresh(At(s, k), now);
      if |q| >= MAX_QUEUE || file.None? then q
      else q + [Message(Record(MessageId(s.ids + 1), r, seqno, body, now), file.value, "", 0)]
    case Take(_, limit) => Kept(msgs, limit, 0)
    case TakeLeased(_, limit, d) => Marked(msgs, limit, 0, LeaseId(s.epoch, s.leases + 1), now + d)
    case Ack(_, id) => NotUnder(msgs, id)
    case Depth(_) => Fresh(At(s, k), now)
  }

  lemma QueueAfter(s: Store, c: Call, now: Time)
    requires Reject(c).None? && !c.Sweep?
    ensures At(Apply(s, c, now).store, Key(c.route)) == After(s, c, now)
  {
    hide Key, LeaseId, MessageId, Fresh, Release, Blank, Kept, Taken, Marked, Held, Under, NotUnder;
    assert At(Prepared(s, c, now), Key(c.route)) == Fresh(At(s, Key(c.route)), now);
  }

  lemma SweepAfter(s: Store, now: Time, k: string)
    ensures At(Apply(s, Sweep, now).store, k) == Fresh(At(s, k), now)
  {
  }

  /** The messages an answer hands over. */
  function Handed(a: Answer): Queue {
    match a
    case Delivered(msgs) => msgs
    case Leased(_, _, msgs) => msgs
    case _ => []
  }

  /** A collection hands over messages of the queue it sees; nothing else hands over anything. */
  lemma HandedOver(s: Store, c: Call, now: Time)
    ensures Handed(Apply(s, c, now).answer)
         == if Reject(c).Some? then []
            else if c.Take? then Taken(Seen(s, Key(c.route), now), c.limit, 0)
            else if c.TakeLeased? then
              Held(Seen(s, Key(c.route), now), c.limit, 0, LeaseId(s.epoch, s.leases + 1), now + c.d)
            else []
  {
    hide Key, LeaseId, MessageId, Fresh, Release, Blank, Kept, Taken, Marked, Held, Under, NotUnder, SweepAll;
    if !c.Sweep? {
      assert At(Prepared(s, c, now), Key(c.route)) == Fresh(At(s, Key(c.route)), now);
    }
  }

  /** A refused request changes nothing and hands over nothing. */
  lemma RefusalChangesNothing(s: Store, c: Call, now: Time)
    requires Reject(c).Some?
    ensures Apply(s, c, now).store == s && Handed(Apply(s, c, now).answer) == []
  {
  }
}
