/**
 Process-restart exactness of the spool: when file removals succeed, the directory always
 rebuilds exactly the queues in memory, up to the one operation in progress.
 */
module SpoolRestart {
  import opened Text
  import opened Messages
  import opened Disks
  import opened SpoolCodec
  import opened Queues
  import opened SpoolMachine
  import opened SpoolSafety

  /**
   The queue of a route as the disk should hold it: the queue in memory, plus the complete
   message of a `Put` that has been renamed but not acknowledged, or, while a batch is being
   removed, the queue before the batch without the files already gone.
   */
  function Live(mem: Memory, pc: Pc, k: string): seq<Message> {
    match pc
    case Renamed(rec, name) => QueueAt(mem.q, k) + if k == Key(rec.route) then [Message(rec, name, "", 0)] else []
    case Undoing(rec, name) => QueueAt(mem.q, k) + if k == Key(rec.route) then [Message(rec, name, "", 0)] else []
    case Removing(key, before, _, gone, _) => if k == key then Without(before, gone) else QueueAt(mem.q, k)
    case _ => QueueAt(mem.q, k)
  }

  function Num(m: Message): nat {
    if SpoolNumber(m.file).Some? then SpoolNumber(m.file).value else 0
  }

  ghost predicate OnDisk(d: Disk, m: Message, k: string)
    requires WellFormed(d)
  {
    && m.file in d.dir && IsMessageFile(m.file)
    && Storable(m.rec) && Key(m.rec.route) == k && Decode(DataAt(d, m.file)) == Some(Sanitized(m.rec))
  }

  predicate Increasing(msgs: seq<Message>) {
    forall i, j :: 0 <= i < j < |msgs| ==> Num(msgs[i]) < Num(msgs[j])
  }

  /** Every message of the queue is on the disk, in file order. */
  ghost predicate Backed(d: Disk, msgs: seq<Message>, k: string)
    requires WellFormed(d)
  {
    Increasing(msgs) && forall m :: m in msgs ==> OnDisk(d, m, k)
  }

  /** A file that the queues account for. */
  ghost predicate Accounted(mem: Memory, pc: Pc, name: string) {
    exists k: string, m :: m in Live(mem, pc, k) && m.file == name
  }

  /** No two routes have a message in one file. */
  ghost predicate FilesApart(mem: Memory, pc: Pc) {
    forall j: string, k: string, m, n :: j != k && m in Live(mem, pc, j) && n in Live(mem, pc, k) ==> m.file != n.file
  }

  /** While a batch is removed, the queue in memory is what will remain. */
  predicate BatchOk(mem: Memory, pc: Pc) {
    pc.Removing? ==>
      && QueueAt(mem.q, pc.key) == Without(pc.before, pc.out)
      && pc.gone <= pc.out && Distinct(pc.rest)
      && (forall f :: f in pc.rest ==> f in pc.out && f !in pc.gone && HasFile(pc.before, f))
  }

  ghost predicate MemoryOk(w: World) {
    && Inv(w)
    && (w.proc.Up? ==>
          && BatchOk(w.proc.mem, w.proc.pc) && FilesApart(w.proc.mem, w.proc.pc)
          && forall k: string :: Backed(w.disk, Live(w.proc.mem, w.proc.pc, k), k))
  }

  /** With removals that succeed, no file is left over either. */
  ghost predicate NothingStray(w: World)
    requires WellFormed(w.disk)
  {
    w.proc.Up? ==>
      && (w.proc.pc.Removing? ==> w.proc.pc.out == w.proc.pc.gone + set f | f in w.proc.pc.rest)
      && forall name :: name in w.disk.dir && IsMessageFile(name) ==> Accounted(w.proc.mem, w.proc.pc, name)
  }

  // ---- Filtering ----

  lemma {:induction false} WithoutMembers(msgs: seq<Message>, out: set<string>)
    ensures forall m :: m in Without(msgs, out) <==> m in msgs && m.file !in out
  {
    if msgs != [] {
      WithoutMembers(msgs[1..], out);
    }
  }

  lemma {:induction false} WithoutTwice(msgs: seq<Message>, a: set<string>, b: set<string>)
    ensures Without(Without(msgs, a), b) == Without(msgs, a + b)
  {
    if msgs != [] {
      WithoutTwice(msgs[1..], a, b);
    }
  }

  lemma {:induction false} WithoutNothing(msgs: seq<Message>)
    ensures Without(msgs, {}) == msgs
  {
    if msgs != [] {
      WithoutNothing(msgs[1..]);
    }
  }

  lemma {:induction false} WithoutIncreasing(msgs: seq<Message>, out: set<string>)
    requires Increasing(msgs)
    ensures Increasing(Without(msgs, out))
  {
    hide SpoolNumber;
    if msgs != [] {
      WithoutIncreasing(msgs[1..], out);
      WithoutMembers(msgs[1..], out);
      var rest := Without(msgs[1..], out);
      assert forall m :: m in rest ==> Num(msgs[0]) < Num(m);
    }
  }

  // ---- How steps change what is on disk ----

  /** The two disks hold the same message files. */
  ghost predicate SameMessages(d: Disk, e: Disk)
    requires WellFormed(d) && WellFormed(e)
  {
    && (forall name :: IsMessageFile(name) ==> (name in d.dir <==> name in e.dir))
    && (forall name :: IsMessageFile(name) && name in d.dir ==> DataAt(d, name) == DataAt(e, name))
  }

  /** Removing a file backs exactly the messages that are not in it. */
  lemma BackedUnlink(d: Disk, msgs: seq<Message>, k: string, name: string)
    requires WellFormed(d) && Backed(d, msgs, k)
    ensures WellFormed(Unlink(d, name))
    ensures Backed(Unlink(d, name), Without(msgs, {name}), k)
  {
    hide Decode, Key, Storable, IsMessageFile, SpoolNumber, Sanitized;
    var e := Unlink(d, name);
    assert forall n: string, v :: v in Possible(e, n) ==> v in Possible(d, n) || v == None;
    WithoutIncreasing(msgs, {name});
    WithoutMembers(msgs, {name});
  }

  lemma {:induction false} WithoutMissing(msgs: seq<Message>, out: set<string>)
    requires forall m :: m in msgs ==> m.file !in out
    ensures Without(msgs, out) == msgs
  {
    if msgs != [] {
      assert msgs[0] in msgs;
      assert forall m :: m in msgs[1..] ==> m in msgs;
      WithoutMissing(msgs[1..], out);
    }
  }

  // ---- Preservation ----

  /** The live queues of `v` are those of `w`, whatever their leases. */
  ghost predicate SameLive(w: World, v: World)
    requires w.proc.Up? && v.proc.Up?
  {
    forall k: string :: SameButLeases(Live(w.proc.mem, w.proc.pc, k), Live(v.proc.mem, v.proc.pc, k))
  }

  /** A live message of `v` stands in the same file as one of `w`. */
  lemma SameLiveFile(w: World, v: World, k: string, n: Message) returns (m: Message)
    requires w.proc.Up? && v.proc.Up? && (SameLive(w, v) || SameLive(v, w)) && n in Live(v.proc.mem, v.proc.pc, k)
    ensures m in Live(w.proc.mem, w.proc.pc, k) && m.file == n.file
  {
    hide Live;
    var a, b := Live(w.proc.mem, w.proc.pc, k), Live(v.proc.mem, v.proc.pc, k);
    assert SameButLeases(a, b) || SameButLeases(b, a);
    var i :| 0 <= i < |b| && b[i] == n;
    m := a[i];
  }

  /** Live queues that only lose messages stay in separate files. */
  lemma FewerApart(w: World, v: World)
    requires w.proc.Up? && v.proc.Up? && FilesApart(w.proc.mem, w.proc.pc)
    requires forall k: string, m :: m in Live(v.proc.mem, v.proc.pc, k) ==> m in Live(w.proc.mem, w.proc.pc, k)
    ensures FilesApart(v.proc.mem, v.proc.pc)
  {
    hide Live;
  }

  lemma SteadyApart(w: World, v: World)
    requires w.proc.Up? && v.proc.Up? && FilesApart(w.proc.mem, w.proc.pc) && SameLive(w, v)
    ensures FilesApart(v.proc.mem, v.proc.pc)
  {
    hide Live, SameLive;
    forall j: string, k: string, m, n | j != k && m in Live(v.proc.mem, v.proc.pc, j) &&
      n in Live(v.proc.mem, v.proc.pc, k)
      ensures m.file != n.file
    {
      var m' := SameLiveFile(w, v, j, m);
      var n' := SameLiveFile(w, v, k, n);
    }
  }

  /** Steps that change no message file and no live queue. */
  lemma SteadyKeeps(w: World, v: World)
    requires MemoryOk(w) && Inv(v) && w.proc.Up? && v.proc.Up? && SameMessages(w.disk, v.disk)
    requires BatchOk(v.proc.mem, v.proc.pc) && SameLive(w, v)
    requires v.proc.pc.Removing? && v.proc.pc != w.proc.pc ==>
               v.proc.pc.gone == {} && v.proc.pc.out == set f | f in v.proc.pc.rest
    ensures MemoryOk(v) && (NothingStray(w) ==> NothingStray(v))
  {
    hide Encode, Decode, Key, Storable, IsMessageFile, SpoolNumber, Live, PcOk, OwedOk, Sanitized, FilesApart;
    SteadyApart(w, v);
    forall k: string
      ensures Backed(v.disk, Live(v.proc.mem, v.proc.pc, k), k)
    {
      var a, b := Live(w.proc.mem, w.proc.pc, k), Live(v.proc.mem, v.proc.pc, k);
      assert Backed(w.disk, a, k);
      assert forall i :: 0 <= i < |b| ==> a[i] in a && Num(a[i]) == Num(b[i]);
    }
    if NothingStray(w) {
      forall name | name in v.disk.dir && IsMessageFile(name)
        ensures Accounted(v.proc.mem, v.proc.pc, name)
      {
        assert Accounted(w.proc.mem, w.proc.pc, name);
        var k: string, m :| m in Live(w.proc.mem, w.proc.pc, k) && m.file == name;
        var n := SameLiveFile(v, w, k, m);
      }
    }
  }

  /** Giving the message its final name adds it at the end of its route's queue. */
  lemma RenameBacks(w: World, v: World, mode: Mode)
    requires MemoryOk(w) && Inv(v) && NextStep(w, v, RenameFinal, mode)
    ensures MemoryOk(v) && (NothingStray(w) ==> NothingStray(v))
  {
    hide Encode, Decode, Key, Storable, IsMessageFile, IsTemp, SpoolNumber, FileName, OwedOk, Sanitized;
    TempIsNoMessage();
    var pc, mem, name := w.proc.pc, w.proc.mem, FileName(w.proc.mem.next);
    RenameKeeps(w, v, mode);
    StorableReads(pc.rec);
    assert forall n :: IsMessageFile(n) && n != name ==> (n in w.disk.dir <==> n in v.disk.dir);
    forall k: string
      ensures Backed(v.disk, Live(v.proc.mem, v.proc.pc, k), k)
    {
      var a, b := Live(mem, pc, k), Live(v.proc.mem, v.proc.pc, k);
      assert Backed(w.disk, a, k);
      assert a <= b;
      forall m | m in a ensures Num(m) < mem.next {
        assert OnDisk(w.disk, m, k);
      }
    }
    RenameApart(w, v, mode);
    if NothingStray(w) {
      forall n | n in v.disk.dir && IsMessageFile(n)
        ensures Accounted(v.proc.mem, v.proc.pc, n)
      {
        if n == name {
          assert Message(pc.rec, name, "", 0) in Live(v.proc.mem, v.proc.pc, Key(pc.rec.route));
        } else {
          assert Accounted(mem, pc, n);
          var k: string, m :| m in Live(mem, pc, k) && m.file == n;
          assert m in Live(v.proc.mem, v.proc.pc, k);
        }
      }
    }
  }

  lemma RenameApart(w: World, v: World, mode: Mode)
    requires MemoryOk(w) && NextStep(w, v, RenameFinal, mode)
    ensures FilesApart(v.proc.mem, v.proc.pc)
  {
    hide Encode, Decode, Key, Storable, IsMessageFile, IsTemp, SpoolNumber, FileName, OwedOk, Sanitized, PcOk, GoodFile;
    var name := FileName(w.proc.mem.next);
    assert name !in w.disk.dir by { RenameKeeps(w, v, mode); }
    forall j: string, k: string, m, n | j != k && m in Live(v.proc.mem, v.proc.pc, j) &&
      n in Live(v.proc.mem, v.proc.pc, k)
      ensures m.file != n.file
    {
      assert Backed(w.disk, Live(w.proc.mem, w.proc.pc, j), j) && Backed(w.disk, Live(w.proc.mem, w.proc.pc, k), k);
      assert m in Live(w.proc.mem, w.proc.pc, j) || (j == Key(w.proc.pc.rec.route) && m.file == name);
      assert n in Live(w.proc.mem, w.proc.pc, k) || (k == Key(w.proc.pc.rec.route) && n.file == name);
    }
  }

  /** A removal that takes one file off the disk and its message off the live queue. */
  lemma UnlinkBacks(w: World, v: World, name: string)
    requires MemoryOk(w) && Inv(v) && w.proc.Up? && v.proc.Up? && v.disk == Unlink(w.disk, name)
    requires BatchOk(v.proc.mem, v.proc.pc)
    requires forall k: string :: Live(v.proc.mem, v.proc.pc, k) == Without(Live(w.proc.mem, w.proc.pc, k), {name})
    requires v.proc.pc.Removing? && NothingStray(w) ==>
               v.proc.pc.out == v.proc.pc.gone + set f | f in v.proc.pc.rest
    ensures MemoryOk(v) && (NothingStray(w) ==> NothingStray(v))
  {
    hide Encode, Decode, Key, Storable, IsMessageFile, SpoolNumber, Live, PcOk, OwedOk, Sanitized, FilesApart;
    forall k: string
      ensures Backed(v.disk, Live(v.proc.mem, v.proc.pc, k), k)
    {
      BackedUnlink(w.disk, Live(w.proc.mem, w.proc.pc, k), k, name);
    }
    forall k: string
      ensures forall m :: m in Live(v.proc.mem, v.proc.pc, k) <==> m in Live(w.proc.mem, w.proc.pc, k) && m.file != name
    {
      WithoutMembers(Live(w.proc.mem, w.proc.pc, k), {name});
    }
    FewerApart(w, v);
    if NothingStray(w) {
      forall n | n in v.disk.dir && IsMessageFile(n)
        ensures Accounted(v.proc.mem, v.proc.pc, n)
      {
        assert Accounted(w.proc.mem, w.proc.pc, n);
        var k: string, m :| m in Live(w.proc.mem, w.proc.pc, k) && m.file == n;
        assert m in Live(v.proc.mem, v.proc.pc, k);
      }
    }
  }

  /** A live queue that loses messages whose files stay behind is still backed. */
  lemma ShrinkBacks(w: World, v: World, out: set<string>)
    requires MemoryOk(w) && Inv(v) && w.proc.Up? && v.proc.Up? && v.disk == w.disk
    requires BatchOk(v.proc.mem, v.proc.pc)
    requires forall k: string :: Live(v.proc.mem, v.proc.pc, k) == Without(Live(w.proc.mem, w.proc.pc, k), out)
                              || Live(v.proc.mem, v.proc.pc, k) == Live(w.proc.mem, w.proc.pc, k)
    ensures MemoryOk(v)
  {
    hide Encode, Decode, Key, Storable, IsMessageFile, SpoolNumber, Live, PcOk, OwedOk, Sanitized, FilesApart;
    forall k: string
      ensures Backed(v.disk, Live(v.proc.mem, v.proc.pc, k), k)
    {
      var a := Live(w.proc.mem, w.proc.pc, k);
      assert Backed(w.disk, a, k);
      WithoutIncreasing(a, out);
      WithoutMembers(a, out);
    }
    forall k: string
      ensures forall m :: m in Live(v.proc.mem, v.proc.pc, k) ==> m in Live(w.proc.mem, w.proc.pc, k)
    {
      WithoutMembers(Live(w.proc.mem, w.proc.pc, k), out);
    }
    FewerApart(w, v);
  }

  // ---- Recovery ----

  function OnRoute(msgs: seq<Message>, k: string): (r: seq<Message>)
    ensures forall m :: m in r <==> m in msgs && Key(m.rec.route) == k
  {
    if msgs == [] then []
    else (if Key(msgs[0].rec.route) == k then [msgs[0]] else []) + OnRoute(msgs[1..], k)
  }

  /** Loading appends to each route's queue its own messages, in order. */
  lemma {:induction false} EnqueueByRoute(q: map<string, seq<Message>>, msgs: seq<Message>, k: string)
    ensures QueueAt(Enqueue(q, msgs), k) == QueueAt(q, k) + OnRoute(msgs, k)
    decreases |msgs|
  {
    hide Key;
    if msgs != [] {
      var j := Key(msgs[0].rec.route);
      EnqueueByRoute(q[j := QueueAt(q, j) + [msgs[0]]], msgs[1..], k);
    }
  }

  lemma {:induction false} OnRouteIncreasing(msgs: seq<Message>, k: string)
    requires Increasing(msgs)
    ensures Increasing(OnRoute(msgs, k))
  {
    hide Key, SpoolNumber;
    if msgs != [] {
      OnRouteIncreasing(msgs[1..], k);
      var rest := OnRoute(msgs[1..], k);
      assert forall m :: m in rest ==> Num(msgs[0]) < Num(m);
    }
  }

  /** Two increasing sequences with the same members are the same sequence. */
  lemma {:induction false} IncreasingUnique(a: seq<Message>, b: seq<Message>)
    requires Increasing(a) && Increasing(b) && forall m :: m in a <==> m in b
    ensures a == b
  {
    hide Num;
    assert (|a| > 0 ==> a[0] in a) && (|b| > 0 ==> b[0] in b);
    if |a| > 0 {
      assert a[0] in b && b[0] in a;
      assert a[0] == b[0];
      forall m | m in a[1..] ensures m in b[1..] { assert m in b && m != b[0]; }
      forall m | m in b[1..] ensures m in a[1..] { assert m in a && m != a[0]; }
      IncreasingUnique(a[1..], b[1..]);
    }
  }

  /** What a listing loads is in file order. */
  lemma LoadedIncreasing(d: Disk, names: seq<string>, submitted: set<Record>)
    requires DiskOk(d, submitted) && Listing(d, names)
    ensures |Loaded(d, names)| == |names| && Increasing(Loaded(d, names))
  {
    hide Decode, Encode, FileName, SpoolNumber, IsMessageFile, IsTemp, Storable, Loaded, Complete, Sanitized, ReadFrom;
    LoadsEverything(d, names, submitted);
    var msgs := Loaded(d, names);
    forall i, j | 0 <= i < j < |msgs|
      ensures Num(msgs[i]) < Num(msgs[j])
    {
      assert names[i] in names && names[j] in names;
      assert Entry(d, names[i]) in Possible(d, names[i]) && Entry(d, names[j]) in Possible(d, names[j]);
      assert GoodFile(d, names[i], d.dir[names[i]], submitted) && GoodFile(d, names[j], d.dir[names[j]], submitted);
      FileNameOrder(SpoolNumber(names[i]).value, SpoolNumber(names[j]).value);
    }
  }

  /** A loaded message and its file say the same thing. */
  lemma LoadedMessage(d: Disk, names: seq<string>, submitted: set<Record>, name: string) returns (m: Message)
    requires DiskOk(d, submitted) && Listing(d, names) && name in d.dir && IsMessageFile(name)
    ensures m in Loaded(d, names) && m.file == name && OnDisk(d, m, Key(m.rec.route))
    ensures Decode(DataAt(d, name)) == Some(m.rec) && Sanitized(m.rec) == m.rec && m == Cleared(m)
  {
    hide Decode, Encode, FileName, SpoolNumber, IsMessageFile, IsTemp, Storable, Loaded, Key, Complete, Sanitized,
      ReadFrom;
    LoadsEverything(d, names, submitted);
    var i :| 0 <= i < |names| && names[i] == name;
    m := Loaded(d, names)[i];
  }

  /** Opening the spool queues each loaded message by its route, in file order. */
  lemma OpenQueues(w: World, v: World, names: seq<string>, mode: Mode, k: string)
    requires Inv(w) && NextStep(w, v, Open(names), mode)
    ensures v.disk == w.disk && Live(v.proc.mem, v.proc.pc, k) == OnRoute(Loaded(w.disk, names), k)
    ensures WellFormed(v.disk) && Backed(v.disk, OnRoute(Loaded(w.disk, names), k), k)
  {
    hide Decode, Encode, FileName, SpoolNumber, IsMessageFile, IsTemp, Storable, Loaded, Key, Enqueue, HighestFile,
      HighestId, OwedOk, Complete, Sanitized, ReadFrom;
    OpenKeeps(w, v, names, mode);
    LoadedIncreasing(w.disk, names, w.submitted);
    LoadsEverything(w.disk, names, w.submitted);
    EnqueueByRoute(map[], Loaded(w.disk, names), k);
    OnRouteIncreasing(Loaded(w.disk, names), k);
  }

  /** Opening the spool accounts for every file. */
  lemma OpenBacks(w: World, v: World, names: seq<string>, mode: Mode)
    requires MemoryOk(w) && Inv(v) && NextStep(w, v, Open(names), mode)
    ensures MemoryOk(v) && NothingStray(v)
  {
    hide Decode, Encode, FileName, SpoolNumber, IsMessageFile, IsTemp, Storable, Loaded, Key, Recovered, Live, PcOk,
      OwedOk, Complete, Sanitized, ReadFrom, GoodFile, NumbersBelow;
    var msgs := Loaded(w.disk, names);
    forall k: string
      ensures Live(v.proc.mem, v.proc.pc, k) == OnRoute(msgs, k) && Backed(v.disk, OnRoute(msgs, k), k)
    {
      OpenQueues(w, v, names, mode, k);
    }
    LoadedApart(w.disk, names, w.submitted);
    OpenKeeps(w, v, names, mode);
    forall name | name in v.disk.dir && IsMessageFile(name)
      ensures Accounted(v.proc.mem, v.proc.pc, name)
    {
      var m := LoadedMessage(w.disk, names, w.submitted, name);
      assert m in OnRoute(msgs, Key(m.rec.route));
    }
  }

  /** A listing loads one message from each file. */
  lemma LoadedApart(d: Disk, names: seq<string>, submitted: set<Record>)
    requires DiskOk(d, submitted) && Listing(d, names)
    ensures forall m, n :: m in Loaded(d, names) && n in Loaded(d, names) && m.file == n.file ==> m == n
  {
    hide Decode, FileName, SpoolNumber, IsMessageFile, Storable, Loaded, Complete, Sanitized, ReadFrom, GoodFile;
    LoadedIncreasing(d, names, submitted);
    var msgs := Loaded(d, names);
    forall m, n | m in msgs && n in msgs && m.file == n.file ensures m == n {
      var i :| 0 <= i < |msgs| && msgs[i] == m;
      var j :| 0 <= j < |msgs| && msgs[j] == n;
      assert Num(m) == Num(n);
    }
  }

  // ---- Every step ----

  /** Steps that create or write the temporary file. */
  lemma TempBacks(w: World, v: World, s: Step, mode: Mode)
    requires MemoryOk(w) && Inv(v) && NextStep(w, v, s, mode) && (s.BeginPut? || s.WriteChunk? || s.SyncContents?)
    ensures MemoryOk(v) && (NothingStray(w) ==> NothingStray(v))
  {
    hide Decode, Encode, FileName, SpoolNumber, IsMessageFile, IsTemp, Storable, Key, OwedOk, Backed;
    TempIsNoMessage();
    forall name | IsMessageFile(name) && name in w.disk.dir
      ensures name in v.disk.dir && DataAt(w.disk, name) == DataAt(v.disk, name)
    {
      assert Entry(w.disk, name) in Possible(w.disk, name);
    }
    assert SameMessages(w.disk, v.disk);
    SteadyKeeps(w, v);
  }

  /** Steps that change no file: failures, the directory fsync, lease marks and the clock. */
  lemma QuietBacks(w: World, v: World, s: Step, mode: Mode)
    requires MemoryOk(w) && Inv(v) && NextStep(w, v, s, mode)
    requires s.FailBegin? || s.FailWrite? || s.SyncDirectory? || s.FailSyncDirectory? || s.Mark? || s.Tick?
    ensures MemoryOk(v) && (NothingStray(w) ==> NothingStray(v))
  {
    hide Decode, Encode, FileName, SpoolNumber, IsMessageFile, IsTemp, Storable, Key, OwedOk, PcOk, Backed, Accounted;
    assert v.disk.dir == w.disk.dir && v.disk.inodes == w.disk.inodes;
    if w.proc.Up? {
      assert SameMessages(w.disk, v.disk);
      SteadyKeeps(w, v);
    }
  }

  lemma CleanUpBacks(w: World, v: World, s: Step, mode: Mode)
    requires MemoryOk(w) && Inv(v) && NextStep(w, v, s, mode) && s.CleanUp?
    ensures MemoryOk(v) && (NothingStray(w) && !mode.removalsFail ==> NothingStray(v))
  {
    hide Decode, Encode, FileName, SpoolNumber, IsMessageFile, IsTemp, Storable, Key, OwedOk;
    TempIsNoMessage();
    var pc, mem := w.proc.pc, w.proc.mem;
    if pc.Aborting? {
      SteadyKeeps(w, v);
    } else {
      forall k: string
        ensures Live(v.proc.mem, v.proc.pc, k) == Without(Live(mem, pc, k), {pc.name})
      {
        UndoneQueue(w, k);
      }
      if s.ok { UnlinkBacks(w, v, pc.name); } else { ShrinkBacks(w, v, {pc.name}); }
    }
  }

  /** Taking back the message in flight leaves the queue in memory. */
  lemma UndoneQueue(w: World, k: string)
    requires MemoryOk(w) && w.proc.Up? && w.proc.pc.Undoing?
    ensures QueueAt(w.proc.mem.q, k) == Without(Live(w.proc.mem, w.proc.pc, k), {w.proc.pc.name})
  {
    hide Decode, Encode, FileName, SpoolNumber, IsMessageFile, IsTemp, Storable, Key, OwedOk;
    var pc, mem := w.proc.pc, w.proc.mem;
    var home := Key(pc.rec.route);
    var mine := Message(pc.rec, pc.name, "", 0);
    var live, queue := Live(mem, pc, k), QueueAt(mem.q, k);
    assert Backed(w.disk, live, k) && Backed(w.disk, Live(mem, pc, home), home);
    assert mine in Live(mem, pc, home);
    forall m | m in queue
      ensures m.file != pc.name
    {
      if k == home {
        var i :| 0 <= i < |queue| && queue[i] == m;
        assert live[i] == m && live[|queue|] == mine;
      }
    }
    if k == home {
      WithoutLast(queue, mine, {pc.name});
    } else {
      assert live == queue;
      WithoutMissing(queue, {pc.name});
    }
  }

  lemma {:induction false} WithoutLast(a: seq<Message>, x: Message, out: set<string>)
    requires x.file in out && forall m :: m in a ==> m.file !in out
    ensures Without(a + [x], out) == a
  {
    if a == [] {
      assert a + [x] == [x];
    } else {
      assert a[0] in a && forall m :: m in a[1..] ==> m in a;
      WithoutLast(a[1..], x, out);
      assert (a + [x])[0] == a[0] && (a + [x])[1..] == a[1..] + [x];
    }
  }

  lemma DropBacks(w: World, v: World, s: Step, mode: Mode)
    requires MemoryOk(w) && Inv(v) && NextStep(w, v, s, mode) && s.Drop?
    ensures MemoryOk(v) && (NothingStray(w) ==> NothingStray(v))
  {
    hide Decode, Encode, FileName, SpoolNumber, IsMessageFile, IsTemp, Storable, Key, OwedOk, PcOk, Backed, Accounted,
      Without, HasFile;
    WithoutNothing(v.proc.pc.before);
    assert SameMessages(w.disk, v.disk);
    SteadyKeeps(w, v);
  }

  lemma RemoveBacks(w: World, v: World, s: Step, mode: Mode)
    requires MemoryOk(w) && Inv(v) && NextStep(w, v, s, mode) && s.RemoveFile?
    ensures MemoryOk(v) && (NothingStray(w) && !mode.removalsFail ==> NothingStray(v))
  {
    hide Decode, Encode, FileName, SpoolNumber, IsMessageFile, IsTemp, Storable, Key, OwedOk;
    var pc, mem := w.proc.pc, w.proc.mem;
    var f := pc.rest[0];
    assert f in pc.rest && forall g :: g in pc.rest <==> g == f || g in pc.rest[1..];
    if s.ok {
      forall k: string
        ensures Live(v.proc.mem, v.proc.pc, k) == Without(Live(mem, pc, k), {f})
      {
        RemovedQueue(w, k, f);
      }
      assert NothingStray(w) ==> v.proc.pc.out == v.proc.pc.gone + set g | g in v.proc.pc.rest;
      UnlinkBacks(w, v, f);
    } else {
      ShrinkBacks(w, v, {});
    }
  }

  /** Only the queue of the batch's own route has a message in the file being removed. */
  lemma RemovedQueue(w: World, k: string, f: string)
    requires MemoryOk(w) && w.proc.Up? && w.proc.pc.Removing? && f in w.proc.pc.rest
    ensures Without(Live(w.proc.mem, w.proc.pc, k), {f})
         == if k == w.proc.pc.key then Without(w.proc.pc.before, w.proc.pc.gone + {f}) else QueueAt(w.proc.mem.q, k)
  {
    hide Decode, Encode, FileName, SpoolNumber, IsMessageFile, IsTemp, Storable, Key, OwedOk;
    var pc, mem := w.proc.pc, w.proc.mem;
    if k == pc.key {
      WithoutTwice(pc.before, pc.gone, {f});
    } else {
      var m :| m in pc.before && m.file == f;
      WithoutMembers(pc.before, pc.gone);
      assert m in Live(mem, pc, pc.key);
      assert Backed(w.disk, Live(mem, pc, k), k) && Backed(w.disk, Live(mem, pc, pc.key), pc.key);
      WithoutMissing(QueueAt(mem.q, k), {f});
    }
  }

  lemma FinishBacks(w: World, v: World, s: Step, mode: Mode)
    requires MemoryOk(w) && Inv(v) && NextStep(w, v, s, mode) && s.FinishDrop?
    ensures MemoryOk(v) && (NothingStray(w) ==> NothingStray(v))
  {
    hide Decode, Encode, FileName, SpoolNumber, IsMessageFile, IsTemp, Storable, Key, OwedOk, PcOk, Backed, Without;
    var pc, mem := w.proc.pc, w.proc.mem;
    WithoutTwice(pc.before, pc.gone, pc.out);
    assert pc.gone + pc.out == pc.out;
    if NothingStray(w) {
      assert pc.out == pc.gone;
      SteadyKeeps(w, v);
    } else {
      ShrinkBacks(w, v, pc.out);
    }
  }

  lemma StepBacks(w: World, v: World, s: Step, mode: Mode)
    requires MemoryOk(w) && NextStep(w, v, s, mode)
    ensures MemoryOk(v) && (NothingStray(w) && !mode.removalsFail ==> NothingStray(v))
  {
    hide Inv, PcOk, Listing, Loaded, Recovered, Storable;
    assert Inv(v) by { StepKeeps(w, v, s, mode); }
    match s
    case BeginPut(_, _) => TempBacks(w, v, s, mode);
    case WriteChunk(_) => TempBacks(w, v, s, mode);
    case SyncContents => TempBacks(w, v, s, mode);
    case RenameFinal => RenameBacks(w, v, mode);
    case CleanUp(_) => CleanUpBacks(w, v, s, mode);
    case Drop(_, _) => DropBacks(w, v, s, mode);
    case RemoveFile(_) => RemoveBacks(w, v, s, mode);
    case FinishDrop => FinishBacks(w, v, s, mode);
    case Open(names) => OpenBacks(w, v, names, mode);
    case Kill => assert MemoryOk(v);
    case PowerCut(_) => assert MemoryOk(v);
    case LoseHome => assert MemoryOk(v);
    case SweepTemp(_) => assert MemoryOk(v);
    case _ => QuietBacks(w, v, s, mode);
  }

  lemma {:induction false} RunBacks(ws: seq<World>, mode: Mode, i: nat)
    requires IsRun(ws, mode) && i < |ws|
    ensures MemoryOk(ws[i]) && (!mode.removalsFail ==> NothingStray(ws[i]))
  {
    hide NextStep;
    if i > 0 {
      RunBacks(ws, mode, i - 1);
      assert Next(ws[i - 1], ws[i - 1 + 1], mode);
      var s :| NextStep(ws[i - 1], ws[i], s, mode);
      StepBacks(ws[i - 1], ws[i], s, mode);
    }
  }

  // ---- Theorem ----

  /** What a restart makes of a live message: its names made UTF-8, its lease gone. */
  function Restored(m: Message): Message {
    Message(Sanitized(m.rec), m.file, "", 0)
  }

  /** The message is live on some route, and a restart puts it on the route with key `k`. */
  ghost predicate RestoredTo(mem: Memory, pc: Pc, k: string, m: Message) {
    (exists j: string :: m in Live(mem, pc, j)) && Key(Restored(m).rec.route) == k
  }

  /** Every live message that is on this route, or that a restart puts there, has names in UTF-8. */
  ghost predicate NamesSurvive(mem: Memory, pc: Pc, k: string) {
    && (forall m :: m in Live(mem, pc, k) ==> WellFormedNames(m.rec))
    && (forall m :: RestoredTo(mem, pc, k, m) ==> WellFormedNames(m.rec))
  }

  /**
   At every moment of every run in which file removals succeed, with kills, power cuts and
   failing writes allowed throughout: stopping the process now and opening the spool again
   moves nothing aside, and fills each route with exactly the live messages whose names, made
   UTF-8, are that route's, in file order, leases cleared and all else as it was.
   */
  lemma RestartRebuilds(ws: seq<World>, mode: Mode, i: nat, names: seq<string>, k: string)
    requires IsRun(ws, mode) && !mode.removalsFail && i < |ws|
    requires ws[i].proc.Up? && Listing(ws[i].disk, names)
    ensures WellFormed(ws[i].disk) && Quarantined(ws[i].disk, names) == []
    ensures var q := QueueAt(Recovered(Loaded(ws[i].disk, names)).q, k);
            && Increasing(q)
            && (forall m :: RestoredTo(ws[i].proc.mem, ws[i].proc.pc, k, m) ==> Restored(m) in q)
            && (forall x :: x in q ==> exists m :: RestoredTo(ws[i].proc.mem, ws[i].proc.pc, k, m) && x == Restored(m))
  {
    hide Decode, Encode, IsMessageFile, Storable, Loaded, Key, Recovered, MemoryOk, NothingStray, Live, NextStep,
      Quarantined, RestoredTo, Restored, Increasing;
    RunBacks(ws, mode, i);
    var w := ws[i];
    assert WellFormed(w.disk) by { RunKeeps(ws, mode, i); }
    RebuiltShape(w, names, k);
    var q := QueueAt(Recovered(Loaded(w.disk, names)).q, k);
    forall m | RestoredTo(w.proc.mem, w.proc.pc, k, m) ensures Restored(m) in q { LiveIsLoaded(w, names, k, m); }
    forall x | x in q ensures exists m :: RestoredTo(w.proc.mem, w.proc.pc, k, m) && x == Restored(m) {
      var m := LoadedIsLive(w, names, k, x);
    }
  }

  lemma RebuiltShape(w: World, names: seq<string>, k: string)
    requires MemoryOk(w) && Listing(w.disk, names)
    ensures Quarantined(w.disk, names) == []
    ensures var q := QueueAt(Recovered(Loaded(w.disk, names)).q, k);
            q == OnRoute(Loaded(w.disk, names), k) && Increasing(q)
  {
    hide Decode, Encode, FileName, SpoolNumber, IsMessageFile, IsTemp, Storable, Loaded, Key, Enqueue, PcOk, OnRoute,
      Num, OwedOk, Live, Quarantined, Accounted, GoodFile, Complete, HighestId, HighestFile, BatchOk, Backed,
      Sanitized, ReadFrom;
    LoadsEverything(w.disk, names, w.submitted);
    LoadedIncreasing(w.disk, names, w.submitted);
    EnqueueByRoute(map[], Loaded(w.disk, names), k);
    OnRouteIncreasing(Loaded(w.disk, names), k);
  }

  lemma LoadedIsLive(w: World, names: seq<string>, k: string, x: Message) returns (m: Message)
    requires MemoryOk(w) && NothingStray(w) && w.proc.Up? && Listing(w.disk, names)
    requires x in QueueAt(Recovered(Loaded(w.disk, names)).q, k)
    ensures RestoredTo(w.proc.mem, w.proc.pc, k, m) && x == Restored(m)
  {
    hide Decode, Encode, FileName, SpoolNumber, IsMessageFile, IsTemp, Storable, Loaded, Key, PcOk, OwedOk, Live,
      Sanitized, Complete, BatchOk, Increasing, NumbersBelow, Recovered, ReadFrom, GoodFile, FilesApart;
    RebuiltShape(w, names, k);
    LoadsEverything(w.disk, names, w.submitted);
    var msgs := Loaded(w.disk, names);
    var i :| 0 <= i < |msgs| && msgs[i] == x;
    assert names[i] in names && Accounted(w.proc.mem, w.proc.pc, names[i]);
    var j: string, n :| n in Live(w.proc.mem, w.proc.pc, j) && n.file == names[i];
    assert Backed(w.disk, Live(w.proc.mem, w.proc.pc, j), j) && OnDisk(w.disk, n, j);
    m := n;
  }

  lemma LiveIsLoaded(w: World, names: seq<string>, k: string, m: Message)
    requires MemoryOk(w) && w.proc.Up? && Listing(w.disk, names) && RestoredTo(w.proc.mem, w.proc.pc, k, m)
    ensures Restored(m) in QueueAt(Recovered(Loaded(w.disk, names)).q, k)
  {
    hide Decode, Encode, FileName, SpoolNumber, IsMessageFile, IsTemp, Storable, Loaded, Key, PcOk, OwedOk, Live,
      Sanitized, Complete, BatchOk, Increasing, NumbersBelow, Recovered, FilesApart;
    RebuiltShape(w, names, k);
    var j: string :| m in Live(w.proc.mem, w.proc.pc, j);
    assert Backed(w.disk, Live(w.proc.mem, w.proc.pc, j), j) && OnDisk(w.disk, m, j);
    var n := LoadedMessage(w.disk, names, w.submitted, m.file);
  }

  /**
   A restart rebuilds a route's queue exactly, in order, with the same ids, sequence numbers,
   bodies and arrival times and with leases cleared, if and only if no message with malformed
   names is on the route or comes to it.
   */
  lemma RestartExactness(ws: seq<World>, mode: Mode, i: nat, names: seq<string>, k: string)
    requires IsRun(ws, mode) && !mode.removalsFail && i < |ws|
    requires ws[i].proc.Up? && Listing(ws[i].disk, names)
    ensures WellFormed(ws[i].disk)
    ensures QueueAt(Recovered(Loaded(ws[i].disk, names)).q, k) == ClearedAll(Live(ws[i].proc.mem, ws[i].proc.pc, k))
       <==> NamesSurvive(ws[i].proc.mem, ws[i].proc.pc, k)
  {
    hide IsMessageFile, Loaded, Key, Recovered, MemoryOk, Live, NextStep, RestoredTo, Restored, Increasing, ClearedAll,
      NamesSurvive, Quarantined;
    var w := ws[i];
    RestartRebuilds(ws, mode, i, names, k);
    assert MemoryOk(w) by { RunBacks(ws, mode, i); }
    var q := QueueAt(Recovered(Loaded(w.disk, names)).q, k);
    var cleared := ClearedAll(Live(w.proc.mem, w.proc.pc, k));
    if NamesSurvive(w.proc.mem, w.proc.pc, k) {
      forall x ensures x in q <==> x in cleared {
        if x in q { RestoredIsCleared(w, k, x); }
        if x in cleared { ClearedIsRestored(w, k, x); }
      }
      LiveIncreasing(w, k);
      IncreasingUnique(q, cleared);
    } else {
      MalformedDiffers(w, k, q);
    }
  }

  lemma LiveIncreasing(w: World, k: string)
    requires MemoryOk(w) && w.proc.Up?
    ensures Increasing(ClearedAll(Live(w.proc.mem, w.proc.pc, k)))
  {
    hide SpoolNumber, Live, ClearedAll, OnDisk, PcOk, OwedOk, GoodFile, BatchOk, FilesApart;
    assert Backed(w.disk, Live(w.proc.mem, w.proc.pc, k), k);
  }

  lemma LiveStorable(w: World, k: string, m: Message)
    requires MemoryOk(w) && w.proc.Up? && m in Live(w.proc.mem, w.proc.pc, k)
    ensures Storable(m.rec) && Key(m.rec.route) == k
  {
    hide Decode, SpoolNumber, Live, PcOk, OwedOk, GoodFile, BatchOk, Key, Storable, FilesApart, Sanitized;
    assert Backed(w.disk, Live(w.proc.mem, w.proc.pc, k), k) && OnDisk(w.disk, m, k);
  }

  lemma RestoredIsCleared(w: World, k: string, x: Message)
    requires MemoryOk(w) && w.proc.Up? && NamesSurvive(w.proc.mem, w.proc.pc, k)
    requires exists m :: RestoredTo(w.proc.mem, w.proc.pc, k, m) && x == Restored(m)
    ensures x in ClearedAll(Live(w.proc.mem, w.proc.pc, k))
  {
    hide Live, ClearedAll, MemoryOk, Key, Sanitized, WellFormedNames, Storable;
    var m :| RestoredTo(w.proc.mem, w.proc.pc, k, m) && x == Restored(m);
    var j: string :| m in Live(w.proc.mem, w.proc.pc, j);
    LiveStorable(w, j, m);
    SanitizedExactly(m.rec);
    var live := Live(w.proc.mem, w.proc.pc, k);
    var i :| 0 <= i < |live| && live[i] == m;
    assert ClearedAll(live)[i] == x;
  }

  lemma ClearedIsRestored(w: World, k: string, x: Message)
    requires MemoryOk(w) && w.proc.Up? && NamesSurvive(w.proc.mem, w.proc.pc, k)
    requires x in ClearedAll(Live(w.proc.mem, w.proc.pc, k))
    ensures exists m :: RestoredTo(w.proc.mem, w.proc.pc, k, m) && x == Restored(m)
  {
    hide Live, ClearedAll, MemoryOk, Key, Sanitized, WellFormedNames, Storable;
    var live := Live(w.proc.mem, w.proc.pc, k);
    var i :| 0 <= i < |live| && ClearedAll(live)[i] == x;
    var m := live[i];
    assert m in live;
    LiveStorable(w, k, m);
    SanitizedExactly(m.rec);
    assert RestoredTo(w.proc.mem, w.proc.pc, k, m) && x == Restored(m);
  }

  /** A message with malformed names is not what comes back, and takes no file of another route. */
  lemma MalformedDiffers(w: World, k: string, q: seq<Message>)
    requires MemoryOk(w) && w.proc.Up? && !NamesSurvive(w.proc.mem, w.proc.pc, k)
    requires forall m :: RestoredTo(w.proc.mem, w.proc.pc, k, m) ==> Restored(m) in q
    requires forall x :: x in q ==> exists m :: RestoredTo(w.proc.mem, w.proc.pc, k, m) && x == Restored(m)
    ensures q != ClearedAll(Live(w.proc.mem, w.proc.pc, k))
  {
    hide Live, ClearedAll, WellFormedNames, MemoryOk, RestoredTo, Restored;
    var mem, pc := w.proc.mem, w.proc.pc;
    var live := Live(mem, pc, k);
    if m :| m in live && !WellFormedNames(m.rec) {
      var i :| 0 <= i < |live| && live[i] == m;
      assert ClearedAll(live)[i] in ClearedAll(live) && ClearedAll(live)[i].rec == m.rec;
      LiveStorable(w, k, m);
      forall x | x in q ensures x.rec != m.rec { NeverRestored(w, k, x, m); }
    } else {
      var m :| RestoredTo(mem, pc, k, m) && !WellFormedNames(m.rec);
      Strange(w, k, m);
      assert Restored(m) in q;
    }
  }

  lemma NeverRestored(w: World, k: string, x: Message, m: Message)
    requires MemoryOk(w) && w.proc.Up? && Storable(m.rec) && !WellFormedNames(m.rec)
    requires exists n :: RestoredTo(w.proc.mem, w.proc.pc, k, n) && x == Restored(n)
    ensures x.rec != m.rec
  {
    hide Live, Key, Sanitized, WellFormedNames, Storable, MemoryOk;
    SanitizedExactly(m.rec);
    var n :| RestoredTo(w.proc.mem, w.proc.pc, k, n) && x == Restored(n);
    var j: string :| n in Live(w.proc.mem, w.proc.pc, j);
    LiveStorable(w, j, n);
    StorableReads(n.rec);
  }

  lemma Strange(w: World, k: string, m: Message)
    requires MemoryOk(w) && w.proc.Up? && RestoredTo(w.proc.mem, w.proc.pc, k, m) &&
             m !in Live(w.proc.mem, w.proc.pc, k)
    ensures Restored(m) !in ClearedAll(Live(w.proc.mem, w.proc.pc, k))
  {
    hide Live, Key, Sanitized, Inv, BatchOk, Backed;
    var live := Live(w.proc.mem, w.proc.pc, k);
    var j: string :| m in Live(w.proc.mem, w.proc.pc, j);
    forall i | 0 <= i < |live| ensures ClearedAll(live)[i].file != m.file { assert live[i] in live; }
  }
}
