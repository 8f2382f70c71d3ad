/**
 A run in which a power cut brings back a collected message next to a newer one with the same
 id. Two messages are accepted and collected; their removals are never fsynced; the process
 is killed and its successor, finding an empty directory, restarts both counters; one of its
 puts fails and the next is in flight when the power goes.
 */
module SpoolCutsCounterexample {
  import opened Text
  import opened Messages
  import opened Disks
  import opened SpoolCodec
  import opened Queues
  import opened SpoolMachine
  import opened SpoolRuns
  import Safety = SpoolSafety
  import Utf8

  const MODE := Mode(false, true)

  function First(): Record { Record(MessageId(1), ROUTE, 1, "", 0) }

  function Second(): Record { Record(MessageId(2), ROUTE, 2, "", 0) }

  /** Accepted later than `Second`, under the same id. */
  function Third(): Record { Record(MessageId(2), ROUTE, 3, "", 1) }

  /** Collecting the two messages: their files are unlinked, and nothing is fsynced. */
  lemma CollectBoth(ws: seq<World>, n1: string, n2: string) returns (r: seq<World>)
    requires IsRun(ws, MODE) && End(ws).proc.Up? && End(ws).proc.pc.Idle? && n1 != n2
    requires End(ws).disk.dir == map[n1 := 0, n2 := 1] && End(ws).disk.older == map[]
    requires exists m1, m2 :: QueueAt(End(ws).proc.mem.q, Key(ROUTE)) == [m1, m2] && m1.file == n1 && m2.file == n2
    ensures var w, v := End(ws), End(r);
            && IsRun(r, MODE) && v.proc.Up? && v.clock == w.clock
            && v.disk.inodes == w.disk.inodes && v.disk.dir == map[] && Some(1) in Possible(v.disk, n2)
  {
    hide Key, IsRun, Without, Unlink;
    var w := End(ws);
    var k := Key(ROUTE);
    var before, rest, out := QueueAt(w.proc.mem.q, k), [n1, n2], set f | f in [n1, n2];
    var m1, m2 :| before == [m1, m2] && m1.file == n1 && m2.file == n2;
    assert m1 in before && m2 in before;
    assert HasFile(before, n1) && HasFile(before, n2);
    var mem := w.proc.mem.(q := SetQueue(w.proc.mem.q, k, Without(before, out)));
    var pc := Removing(k, before, out, {}, rest);
    r := Advance(ws, MODE, Drop(k, rest), At(w, mem, pc, w.disk).(owed := w.owed - out));
    r := RemoveNext(r, MODE);
    assert rest[1..] == [n2];
    r := RemoveNext(r, MODE);
    UnlinkedBoth(w.disk, n1, n2);
  }

  lemma RemoveNext(ws: seq<World>, mode: Mode) returns (r: seq<World>)
    requires IsRun(ws, mode) && End(ws).proc.Up? && End(ws).proc.pc.Removing? && End(ws).proc.pc.rest != []
    ensures var w, v := End(ws), End(r);
            && IsRun(r, mode) && ws <= r && v.clock == w.clock && v.owed == w.owed
            && v.disk == Unlink(w.disk, w.proc.pc.rest[0])
            && v.proc.Up? && v.proc.pc.Removing? && v.proc.pc.rest == w.proc.pc.rest[1..]
  {
    hide IsRun;
    var w := End(ws);
    var pc := w.proc.pc;
    r := Advance(ws, mode, RemoveFile(true),
                 At(w, w.proc.mem, pc.(gone := pc.gone + {pc.rest[0]}, rest := pc.rest[1..]),
                   Unlink(w.disk, pc.rest[0])));
  }

  lemma UnlinkedBoth(d: Disk, n1: string, n2: string)
    requires n1 != n2 && d.dir == map[n1 := 0, n2 := 1]
    ensures var e := Unlink(Unlink(d, n1), n2);
            e.inodes == d.inodes && e.dir == map[] && Some(1) in Possible(e, n2)
  {
  }

  lemma ExampleStorable(n: nat, seqno: nat, at: Time)
    requires n < 10 && seqno < 10 && 0 <= at < 10
    ensures Storable(Record(MessageId(n), ROUTE, seqno, "", at))
  {
    hide MessageId, MessageNumber, IdNumber;
    NewRecordStorable(Record(MessageId(n), ROUTE, seqno, "", at), n);
  }

  lemma ExampleReads(n: nat, seqno: nat, at: Time)
    requires n < 10 && seqno < 10 && 0 <= at < 10
    ensures var r := Record(MessageId(n), ROUTE, seqno, "", at); Decode(Encode(r)) == Some(r)
  {
    hide MessageId, MessageNumber, IdNumber, Decode, Encode, Utf8.Valid;
    var r := Record(MessageId(n), ROUTE, seqno, "", at);
    NewRecordStorable(r, n);
    Safety.IdSanitizes(r.id);
    Utf8.AsciiValid("e");
    Utf8.AsciiValid("s");
    CodecExactness(r);
  }

  /** Up to the moment the power fails. */
  lemma Prelude() returns (ws: seq<World>)
    ensures var d, n1, n2 := End(ws).disk, FileName(1), FileName(2);
            && IsRun(ws, MODE)
            && d.inodes == [Inode(Encode(First()), true), Inode(Encode(Second()), true), Inode(Encode(Third()), true)]
            && d.dir == map[n1 := 2] && Some(1) in Possible(d, n2)
            && Third() in End(ws).submitted
  {
    hide Encode, FileName, MessageId, IsTemp, TempName, Key, Storable, IsRun, NextStep;
    var n1, n2, tmp := FileName(1), FileName(2), TempName(0);
    assert n1 != n2 by { assert SpoolNumber(n1) == Some(1) && SpoolNumber(n2) == Some(2); }
    assert tmp != n1 && tmp != n2 by { assert IsTemp(tmp) && !IsTemp(n1) && !IsTemp(n2); }
    ws := [INIT];
    assert IsRun(ws, MODE) by { StartsHere(); }
    ws := OpenEmpty(ws, MODE);
    ExampleStorable(1, 1, 0);
    ExampleStorable(2, 2, 0);
    ExampleStorable(2, 3, 1);
    ws := Accept(ws, MODE, First(), tmp);
    ws := Accept(ws, MODE, Second(), tmp);
    ws := CollectBoth(ws, n1, n2);
    ws := Killed(ws, MODE);
    ws := OpenEmpty(ws, MODE);
    ws := FailedPutLater(ws);
    ghost var w := End(ws);
    ws := Publish(ws, MODE, Third(), tmp);
    PublishedDisk(w, Third(), tmp);
  }

  lemma StartsHere()
    ensures IsRun([INIT], MODE)
  {
  }

  /** A put that fails at once uses up an id; then a moment passes. */
  lemma FailedPutLater(ws: seq<World>) returns (r: seq<World>)
    requires IsRun(ws, MODE) && End(ws).proc == Up(Memory(map[], 0, 1), Idle) && End(ws).clock == 0
    ensures IsRun(r, MODE) && End(r) == End(ws).(proc := Up(Memory(map[], 1, 1), Idle), clock := 1)
  {
    r := Advance(ws, MODE, FailBegin, At(End(ws), Memory(map[], 1, 1), Idle, End(ws).disk));
    r := Advance(r, MODE, Tick(1), End(r).(clock := 1));
  }

  /**
   After the power cut a restart recovers, in this order, a newer message and an older one that
   had been collected, two different messages under one id.
   */
  lemma PowerCutCanRepeatAnId() returns (ws: seq<World>, names: seq<string>)
    ensures IsRun(ws, MODE) && WellFormed(End(ws).disk) && Listing(End(ws).disk, names) && |names| == 2
    ensures Loaded(End(ws).disk, names) == [Message(Third(), names[0], "", 0), Message(Second(), names[1], "", 0)]
    ensures Third() != Second() && Third().id == Second().id && Second().at < Third().at
  {
    hide Encode, Decode, FileName, MessageId, IsMessageFile, Storable, IsRun, Loaded, Listing;
    var n1, n2 := FileName(1), FileName(2);
    ws := Prelude();
    var d := End(ws).disk;
    var e := Disk(d.inodes, map[n1 := 2, n2 := 1], map[]);
    assert n1 != n2 by { assert SpoolNumber(n1) == Some(1) && SpoolNumber(n2) == Some(2); }
    forall a: string ensures Entry(e, a) in Possible(d, a) { }
    ws := Advance(ws, MODE, PowerCut(e), End(ws).(disk := e, home := Found(End(ws).home), proc := Down));
    names := [n1, n2];
    assert WellFormed(e);
    RecoversBoth(e, n1, n2);
  }

  /** What a restart reads from the disk the power cut left. */
  lemma RecoversBoth(e: Disk, n1: string, n2: string)
    requires n1 == FileName(1) && n2 == FileName(2) && WellFormed(e) && |e.inodes| == 3 &&
             e.dir == map[n1 := 2, n2 := 1]
    requires e.inodes[1].data == Encode(Second()) && e.inodes[2].data == Encode(Third())
    ensures Listing(e, [n1, n2])
    ensures Loaded(e, [n1, n2]) == [Message(Third(), n1, "", 0), Message(Second(), n2, "", 0)]
  {
    hide Encode, Decode, FileName, MessageId, IsMessageFile, Storable, Sanitized;
    assert n1 != n2 by { assert SpoolNumber(n1) == Some(1) && SpoolNumber(n2) == Some(2); }
    FileNameOrder(1, 2);
    ExampleReads(2, 2, 0);
    ExampleReads(2, 3, 1);
    assert [n1, n2][1..] == [n2] && [n2][1..] == [];
    assert Loaded(e, []) == [];
    assert Loaded(e, [n2]) == [Message(Second(), n2, "", 0)];
  }

  /**
   The first run of a relay over a directory it made itself: a message is accepted, and the
   power cut that follows may leave no directory, so that a restart recovers nothing.
   */
  lemma FirstRunCanLoseEverything() returns (ws: seq<World>)
    ensures var w := End(ws);
            && IsRun(ws, MODE) && w.proc.Up? && w.owed == map[FileName(1) := First()]
            && Safety.Leaves(w, Gone(w.disk)) && WellFormed(Gone(w.disk))
            && Listing(Gone(w.disk), []) && Loaded(Gone(w.disk), []) == []
  {
    hide Encode, FileName, MessageId, IsTemp, TempName, Key, Storable, IsRun, NextStep;
    ws := [INIT];
    assert IsRun(ws, MODE) by { StartsHere(); }
    ws := OpenEmpty(ws, MODE);
    ExampleStorable(1, 1, 0);
    ws := Accept(ws, MODE, First(), TempName(0));
  }

  // ---- No power cut at all ----

  const STEADY := Mode(false, false)

  /** Accepted after `First` was collected and the process restarted, under the same id. */
  function Again(): Record { Record(MessageId(1), ROUTE, 2, "", 0) }

  lemma CollectOnly(ws: seq<World>, file: string) returns (r: seq<World>)
    requires IsRun(ws, STEADY) && End(ws).proc.Up? && End(ws).proc.pc.Idle? && End(ws).disk.dir == map[file := 0]
    requires exists m :: QueueAt(End(ws).proc.mem.q, Key(ROUTE)) == [m] && m.file == file
    ensures var w, v := End(ws), End(r);
            && IsRun(r, STEADY) && ws <= r && v.proc.Up? && v.clock == w.clock
            && v.disk.dir == map[] && v.owed == w.owed - {file}
  {
    hide Key, IsRun, Without;
    var w := End(ws);
    var k := Key(ROUTE);
    var before, rest, out := QueueAt(w.proc.mem.q, k), [file], set f | f in [file];
    var m :| before == [m] && m.file == file;
    assert m in before && HasFile(before, file) && out == {file};
    var mem := w.proc.mem.(q := SetQueue(w.proc.mem.q, k, Without(before, out)));
    var pc := Removing(k, before, out, {}, rest);
    r := Advance(ws, STEADY, Drop(k, rest), At(w, mem, pc, w.disk).(owed := w.owed - out));
    r := RemoveNext(r, STEADY);
  }

  /** A kill and a restart over a drained spool: the next message accepted repeats the id of the last. */
  lemma DrainedRestartRepeatsAnId() returns (early: seq<World>, late: seq<World>)
    ensures IsRun(late, STEADY) && early <= late
    ensures End(early).owed == map[FileName(1) := First()] && End(late).owed == map[FileName(1) := Again()]
    ensures First() != Again() && First().id == Again().id
  {
    hide Encode, FileName, MessageId, IsTemp, TempName, Key, Storable, IsRun, NextStep;
    var file, tmp := FileName(1), TempName(0);
    var ws := [INIT];
    assert IsRun(ws, STEADY) by { SteadyStart(); }
    ws := OpenEmpty(ws, STEADY);
    ExampleStorable(1, 1, 0);
    ExampleStorable(1, 2, 0);
    early := Accept(ws, STEADY, First(), tmp);
    var a := CollectOnly(early, file);
    var b := Killed(a, STEADY);
    var c := OpenEmpty(b, STEADY);
    late := Accept(c, STEADY, Again(), tmp);
    assert early <= a <= b <= c <= late;
  }

  lemma SteadyStart()
    ensures IsRun([INIT], STEADY)
  {
  }
}
