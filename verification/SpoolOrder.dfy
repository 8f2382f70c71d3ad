/**
 The joint order of the spool: file numbers, message ids and arrival times increase together,
 through restarts that restart both counters from what survived.
 */
module SpoolOrder {
  import opened Text
  import opened Messages
  import opened Disks
  import opened SpoolCodec
  import opened Queues
  import opened SpoolMachine
  import opened SpoolSafety
  import opened SpoolRestart
  import Runs
  import Stores

  /** The directory holds the record in this message file. */
  ghost predicate Holds(d: Disk, name: string, r: Record)
    requires WellFormed(d)
  {
    name in d.dir && IsMessageFile(name) && Decode(DataAt(d, name)) == Some(r)
  }

  function FileNumber(name: string): nat {
    if SpoolNumber(name).Some? then SpoolNumber(name).value else 0
  }

  ghost predicate FilesOrdered(d: Disk)
    requires WellFormed(d)
  {
    forall a, b, r, s :: Holds(d, a, r) && Holds(d, b, s) && FileNumber(a) < FileNumber(b) ==> Earlier(r, s)
  }

  /** The counter and the clock are ahead of everything in the directory. */
  ghost predicate Bounded(d: Disk, ids: nat, clock: Time)
    requires WellFormed(d)
  {
    forall a, r :: Holds(d, a, r) ==> IdOf(r) <= ids && r.at <= clock
  }

  /** The message being written comes after everything in the directory. */
  ghost predicate WriteOrdered(w: World, rec: Record)
    requires WellFormed(w.disk) && w.proc.Up?
  {
    && IdOf(rec) == w.proc.mem.ids && rec.at <= w.clock
    && forall a, r :: Holds(w.disk, a, r) ==> Earlier(r, rec)
  }

  ghost predicate Ordered(w: World) {
    && Inv(w)
    && FilesOrdered(w.disk)
    && (forall a, r :: Holds(w.disk, a, r) ==> r.at <= w.clock)
    && (w.proc.Up? ==>
          && Bounded(w.disk, w.proc.mem.ids, w.clock)
          && (w.proc.pc.Filling? || w.proc.pc.Settled? ==> WriteOrdered(w, w.proc.pc.rec)))
  }

  /** Every file of `e` is already in `d`. */
  ghost predicate Shrinks(d: Disk, e: Disk)
    requires WellFormed(d) && WellFormed(e)
  {
    forall a, r :: Holds(e, a, r) ==> Holds(d, a, r)
  }

  lemma StepShrinks(w: World, v: World, s: Step, mode: Mode)
    requires Inv(w) && Inv(v) && NextStep(w, v, s, mode) && !s.RenameFinal? && !s.PowerCut?
    ensures Shrinks(w.disk, v.disk)
  {
    hide Decode, Encode, FileName, SpoolNumber, IsMessageFile, IsTemp, Storable, Key, OwedOk, MessageId, Recovered,
      Without, QueueAt, Loaded;
    TempIsNoMessage();
    forall a, r | Holds(v.disk, a, r)
      ensures Holds(w.disk, a, r)
    {
      if s.Open? {
        OpenKeeps(w, v, s.names, mode);
      } else {
        assert Entry(w.disk, a) in Possible(w.disk, a);
      }
    }
  }

  lemma QuietOrder(w: World, v: World, s: Step, mode: Mode)
    requires Ordered(w) && Inv(v) && NextStep(w, v, s, mode) && Shrinks(w.disk, v.disk)
    requires !s.RenameFinal? && !s.PowerCut? && !s.BeginPut? && !s.Open?
    ensures Ordered(v)
  {
    hide Decode, Encode, FileName, SpoolNumber, IsMessageFile, IsTemp, Storable, Key, OwedOk, Holds, PcOk, IdOf,
      MessageId, Without, QueueAt;
  }

  lemma BeginOrder(w: World, v: World, s: Step, mode: Mode)
    requires Ordered(w) && Inv(v) && NextStep(w, v, s, mode) && Shrinks(w.disk, v.disk) && s.BeginPut?
    ensures Ordered(v)
  {
    hide Decode, Encode, FileName, SpoolNumber, IsMessageFile, IsTemp, Storable, Key, OwedOk, Holds, PcOk, IdNumber,
      MessageId;
    assert IdOf(s.rec) == w.proc.mem.ids + 1;
  }

  lemma RenameOrder(w: World, v: World, s: Step, mode: Mode)
    requires Ordered(w) && Inv(v) && NextStep(w, v, s, mode) && s.RenameFinal?
    ensures Ordered(v)
  {
    hide Decode, Encode, FileName, SpoolNumber, IsMessageFile, IsTemp, Storable, Key, OwedOk, IdOf, Sanitized;
    TempIsNoMessage();
    var pc, next := w.proc.pc, w.proc.mem.next;
    var name := FileName(next);
    RenameKeeps(w, v, mode);
    StorableReads(pc.rec);
    SanitizedNumber(pc.rec);
    assert forall a, r :: Holds(v.disk, a, r) ==> Holds(w.disk, a, r) || (a == name && r == Sanitized(pc.rec));
    assert forall a, r :: Holds(w.disk, a, r) ==> FileNumber(a) < next;
    assert FileNumber(name) == next;
  }

  lemma OpenOrder(w: World, v: World, names: seq<string>, mode: Mode)
    requires Ordered(w) && Inv(v) && NextStep(w, v, Open(names), mode)
    ensures Ordered(v)
  {
    hide Decode, Encode, FileName, SpoolNumber, IsMessageFile, IsTemp, Storable, Key, OwedOk, PcOk, Loaded, HighestId,
      HighestFile, Enqueue, MessageNumber, IdNumber, GoodFile, Sanitized;
    OpenKeeps(w, v, names, mode);
    forall a, r | Holds(v.disk, a, r)
      ensures IdOf(r) <= v.proc.mem.ids
    {
      var m := LoadedMessage(w.disk, names, w.submitted, a);
      StorableId(m.rec);
    }
  }

  lemma StorableId(r: Record)
    requires Storable(r)
    ensures MessageNumber(r.id) == Some(IdOf(r))
  {
  }

  /** Sanitising moves a record nowhere in the order. */
  lemma SanitizedNumber(r: Record)
    requires Storable(r)
    ensures IdOf(Sanitized(r)) == IdOf(r) && Sanitized(r).at == r.at
  {
    hide Storable, Sanitized, IdNumber, Decode, Encode;
    StorableReads(r);
  }

  lemma StepOrder(w: World, v: World, s: Step, mode: Mode)
    requires Ordered(w) && NextStep(w, v, s, mode) && !s.PowerCut?
    ensures Ordered(v)
  {
    hide Inv, PcOk, Listing, Loaded, Recovered, Storable, Holds, FilesOrdered, Bounded;
    assert Inv(v) by { StepKeeps(w, v, s, mode); }
    if s.RenameFinal? {
      RenameOrder(w, v, s, mode);
    } else if s.Open? {
      OpenOrder(w, v, s.names, mode);
    } else {
      StepShrinks(w, v, s, mode);
      if s.BeginPut? { BeginOrder(w, v, s, mode); } else { QuietOrder(w, v, s, mode); }
    }
  }

  lemma StartsOrdered(w: World)
    requires Starts(w)
    ensures Ordered(w)
  {
    assert WellFormed(EMPTY) && forall a: string, r :: !Holds(EMPTY, a, r);
  }

  // ---- What order on disk means for the queues ----

  /** A live message is what its file holds, up to sanitising. */
  lemma LiveHeld(w: World, k: string, m: Message)
    requires Ordered(w) && MemoryOk(w) && w.proc.Up? && m in Live(w.proc.mem, w.proc.pc, k)
    ensures Holds(w.disk, m.file, Sanitized(m.rec)) && FileNumber(m.file) == Num(m) && Storable(m.rec)
    ensures IdOf(Sanitized(m.rec)) == IdOf(m.rec) && Sanitized(m.rec).at == m.rec.at && Num(m) < w.proc.mem.next
  {
    hide Decode, SpoolNumber, IsMessageFile, Storable, Key, OwedOk, PcOk, Live, IdOf, BatchOk, Sanitized, GoodFile,
      FilesApart, FilesOrdered, Bounded;
    assert Backed(w.disk, Live(w.proc.mem, w.proc.pc, k), k) && OnDisk(w.disk, m, k);
    SanitizedNumber(m.rec);
  }

  /** One order for position, file number, id and arrival. */
  ghost predicate InJointOrder(w: World, live: seq<Message>)
    requires w.proc.Up?
  {
    && (forall a, b :: 0 <= a < b < |live| ==> Num(live[a]) < Num(live[b]) && Earlier(live[a].rec, live[b].rec))
    && (forall m :: m in live ==> Num(m) < w.proc.mem.next && IdOf(m.rec) <= w.proc.mem.ids && m.rec.at <= w.clock)
  }

  lemma LiveOrdered(w: World, k: string)
    requires Ordered(w) && MemoryOk(w) && w.proc.Up?
    ensures InJointOrder(w, Live(w.proc.mem, w.proc.pc, k))
  {
    hide Decode, Storable, SpoolNumber, IsMessageFile, Key, OwedOk, PcOk, Live, IdOf, BatchOk, Sanitized, GoodFile,
      Holds, FilesApart, OnDisk;
    var live := Live(w.proc.mem, w.proc.pc, k);
    assert Backed(w.disk, live, k);
    forall m | m in live
      ensures Num(m) < w.proc.mem.next && IdOf(m.rec) <= w.proc.mem.ids && m.rec.at <= w.clock
    {
      LiveHeld(w, k, m);
    }
    forall a, b | 0 <= a < b < |live| ensures Earlier(live[a].rec, live[b].rec) {
      LiveHeld(w, k, live[a]);
      LiveHeld(w, k, live[b]);
    }
  }

  /** Two live messages of different routes stand in one order by file, id and arrival. */
  lemma LiveOrderedAcross(w: World, j: string, k: string, m: Message, n: Message)
    requires Ordered(w) && MemoryOk(w) && w.proc.Up? && j != k
    requires m in Live(w.proc.mem, w.proc.pc, j) && n in Live(w.proc.mem, w.proc.pc, k)
    ensures (Num(m) < Num(n) && Earlier(m.rec, n.rec)) || (Num(n) < Num(m) && Earlier(n.rec, m.rec))
  {
    hide Decode, Storable, SpoolNumber, IsMessageFile, Key, OwedOk, PcOk, Live, IdOf, BatchOk, Sanitized, DiskOk,
      Backed;
    LiveHeld(w, j, m);
    LiveHeld(w, k, n);
    if Num(m) == Num(n) {
      NumberNamesFile(w, m.file, n.file);
    }
  }

  /** Two message files with one number are one file. */
  lemma NumberNamesFile(w: World, a: string, b: string)
    requires Inv(w) && a in w.disk.dir && b in w.disk.dir && IsMessageFile(a) && IsMessageFile(b)
    requires FileNumber(a) == FileNumber(b)
    ensures a == b
  {
    hide IsMessageFile, FileName, SpoolNumber, OwedOk, PcOk, Complete;
    assert Entry(w.disk, a) in Possible(w.disk, a) && Entry(w.disk, b) in Possible(w.disk, b);
    assert GoodFile(w.disk, a, w.disk.dir[a], w.submitted) && GoodFile(w.disk, b, w.disk.dir[b], w.submitted);
  }

  // ---- The recovered store ----

  lemma {:induction false} EnqueueNonempty(q: map<string, Queue>, msgs: seq<Message>)
    requires forall k :: k in q ==> q[k] != []
    ensures forall k :: k in Enqueue(q, msgs) ==> Enqueue(q, msgs)[k] != []
    decreases |msgs|
  {
    hide Key;
    if msgs != [] {
      var k := Key(msgs[0].rec.route);
      EnqueueNonempty(q[k := QueueAt(q, k) + [msgs[0]]], msgs[1..]);
    }
  }

  /** The store a process starts with once it has recovered this memory. */
  function StoreOf(mem: Memory, epoch: string): Stores.Store {
    Stores.Store(mem.q, mem.ids, 0, epoch)
  }

  /** Opening a directory in order gives a store that the guarantees of process runs start from. */
  lemma OpenedIsSound(w: World, v: World, names: seq<string>, mode: Mode, epoch: string)
    requires Ordered(w) && MemoryOk(w) && NextStep(w, v, Open(names), mode)
    ensures Runs.StoreOk(StoreOf(v.proc.mem, epoch), v.clock) && Runs.IdsApart(StoreOf(v.proc.mem, epoch))
  {
    hide Decode, Encode, FileName, SpoolNumber, IsMessageFile, Key, OwedOk, PcOk, Loaded, HighestId, HighestFile,
      Enqueue, Num, IdOf, Ordered, MemoryOk, Live, Storable, DiskOk;
    assert Inv(w) by { OrderedInv(w); }
    StepKeeps(w, v, Open(names), mode);
    OpenOrder(w, v, names, mode);
    OpenBacks(w, v, names, mode);
    EnqueueNonempty(map[], Loaded(w.disk, names));
    forall k: string
      ensures Runs.RouteOk(StoreOf(v.proc.mem, epoch), k, v.clock)
    {
      OpenedRouteIsSound(w, v, names, mode, epoch, k);
    }
    OpenedApart(v, epoch);
  }

  lemma OrderedInv(w: World)
    requires Ordered(w)
    ensures Inv(w)
  {
    hide Inv;
  }

  lemma OpenedRouteIsSound(w: World, v: World, names: seq<string>, mode: Mode, epoch: string, k: string)
    requires Inv(w) && Ordered(v) && MemoryOk(v) && NextStep(w, v, Open(names), mode)
    ensures Runs.RouteOk(StoreOf(v.proc.mem, epoch), k, v.clock)
  {
    hide Decode, Encode, FileName, SpoolNumber, IsMessageFile, Key, OwedOk, PcOk, Loaded, Recovered, Num, IdOf,
      Ordered, Storable, DiskOk, MemoryOk;
    var q := QueueAt(v.proc.mem.q, k);
    assert Live(v.proc.mem, v.proc.pc, k) == q;
    LiveOrdered(v, k);
    forall m | m in q ensures IdNumber(m.rec.id).Some? && m.lease == "" && Key(m.rec.route) == k {
      LiveStorable(v, k, m);
      StorableNumber(m.rec);
      RecoveredUnleased(w, v, names, mode, k, m);
    }
  }

  lemma StorableNumber(r: Record)
    requires Storable(r)
    ensures IdNumber(r.id).Some?
  {
  }

  lemma RecoveredUnleased(w: World, v: World, names: seq<string>, mode: Mode, k: string, m: Message)
    requires Inv(w) && NextStep(w, v, Open(names), mode) && m in QueueAt(v.proc.mem.q, k)
    ensures m.lease == ""
  {
    hide Loaded, Enqueue, GoodFile, OwedOk, PcOk, Sanitized, ReadFrom, HighestId, HighestFile, Quarantined, MoveAside;
    EnqueueByRoute(map[], Loaded(w.disk, names), k);
    LoadsEverything(w.disk, names, w.submitted);
  }

  lemma OpenedApart(v: World, epoch: string)
    requires Ordered(v) && MemoryOk(v) && v.proc.Up? && v.proc.pc.Idle?
    ensures Runs.IdsApart(StoreOf(v.proc.mem, epoch))
  {
    hide Ordered, MemoryOk, Key, IdOf, Num;
    var s := StoreOf(v.proc.mem, epoch);
    forall j: string, k: string, m, n | j != k && m in Stores.At(s, j) && n in Stores.At(s, k)
      ensures m.rec.id != n.rec.id
    {
      assert Live(v.proc.mem, v.proc.pc, j) == Stores.At(s, j) && Live(v.proc.mem, v.proc.pc, k) == Stores.At(s, k);
      LiveOrderedAcross(v, j, k, m, n);
      SameIdSameNumber(m.rec, n.rec);
    }
  }

  lemma SameIdSameNumber(r: Record, s: Record)
    ensures r.id == s.id ==> IdOf(r) == IdOf(s)
  {
  }
}
