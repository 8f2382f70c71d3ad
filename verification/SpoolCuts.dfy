/**
 When the joint order of the spool survives power cuts. A removal is not followed by a directory
 fsync, so a file unlinked long ago may come back after a power cut, and the counters may have
 been restarted in between. `SpoolCutsExact` shows which moments are safe from that.
 */
module SpoolCuts {
  import opened Text
  import opened Messages
  import opened Disks
  import opened SpoolCodec
  import opened Queues
  import opened SpoolMachine
  import opened SpoolSafety
  import opened SpoolRestart
  import opened SpoolOrder

  /** A power cut may leave this record in this message file. */
  ghost predicate MayHold(d: Disk, name: string, i: nat, r: Record) {
    && Some(i) in Possible(d, name) && i < |d.inodes| && IsMessageFile(name)
    && Decode(d.inodes[i].data) == Some(r)
  }

  /**
   Every message file that a power cut may leave is accounted for by the counters: numbered below
   the next file with an id already used, or numbered next with an id at most the next one.
   */
  ghost predicate Ahead(d: Disk, ids: nat, next: nat) {
    forall a, i, r :: MayHold(d, a, i, r) ==>
      || (FileNumber(a) < next && IdOf(r) <= ids)
      || (FileNumber(a) == next && IdOf(r) <= ids + 1)
  }

  /** Every process of the run restarted its counters ahead of whatever a power cut may bring back. */
  ghost predicate OpensAhead(ws: seq<World>) {
    forall i {:trigger ws[i]} :: 0 <= i < |ws| - 1 && ws[i].proc.Down? && ws[i + 1].proc.Up? ==>
      Ahead(ws[i + 1].disk, ws[i + 1].proc.mem.ids, ws[i + 1].proc.mem.next)
  }

  /** Whatever a power cut leaves is in order. */
  ghost predicate CutsOrdered(d: Disk) {
    forall a, b, i, j, r, s :: MayHold(d, a, i, r) && MayHold(d, b, j, s) && FileNumber(a) < FileNumber(b) ==>
      Earlier(r, s)
  }

  /** The message being written comes after everything a power cut may leave in a lower file. */
  ghost predicate CutsBefore(d: Disk, rec: Record, next: nat) {
    forall a, i, r :: MayHold(d, a, i, r) && FileNumber(a) < next ==> Earlier(r, rec)
  }

  ghost predicate CutSafe(w: World) {
    && Inv(w)
    && CutsOrdered(w.disk)
    && (forall a, i, r :: MayHold(w.disk, a, i, r) ==> r.at <= w.clock)
    && (w.proc.Up? ==>
          && Ahead(w.disk, w.proc.mem.ids, w.proc.mem.next)
          && (w.proc.pc.Filling? || w.proc.pc.Settled? ==> PutSafe(w, w.proc.pc.rec)))
  }

  ghost predicate PutSafe(w: World, rec: Record)
    requires w.proc.Up?
  {
    && IdOf(rec) == w.proc.mem.ids && rec.at <= w.clock && CutsBefore(w.disk, rec, w.proc.mem.next)
    && forall a, i, r :: MayHold(w.disk, a, i, r) ==> IdOf(r) <= w.proc.mem.ids
  }

  ghost predicate Narrows(d: Disk, e: Disk) {
    forall a, i, r :: MayHold(e, a, i, r) ==> MayHold(d, a, i, r)
  }

  lemma UnlinkNarrows(d: Disk, name: string)
    ensures Narrows(d, Unlink(d, name))
  {
    hide Decode, IsMessageFile;
    var e := Unlink(d, name);
    assert Possible(e, name) <= Possible(d, name) + {None};
    assert forall a: string :: a != name ==> Possible(e, a) == Possible(d, a);
  }

  lemma CutNarrows(d: Disk, e: Disk, submitted: set<Record>)
    requires DiskOk(d, submitted) && AfterPowerCut(d, e)
    ensures Narrows(d, e)
  {
    hide Decode, IsMessageFile, Complete, SpoolNumber, FileName;
    forall a, i: nat, r | MayHold(e, a, i, r)
      ensures MayHold(d, a, i, r)
    {
      assert Some(i) in Possible(d, a);
      assert GoodFile(d, a, i, submitted);
    }
  }

  /** Writing the temporary file changes nothing a power cut may leave in a message file. */
  lemma TempNarrows(w: World, v: World, s: Step, mode: Mode)
    requires Inv(w) && NextStep(w, v, s, mode) && (s.BeginPut? || s.WriteChunk? || s.SyncContents?)
    ensures Narrows(w.disk, v.disk)
  {
    hide Decode, Encode, IsMessageFile, IsTemp, Storable, MessageId, OwedOk, GoodFile, NumbersBelow;
    TempIsNoMessage();
    forall a, i: nat, r | MayHold(v.disk, a, i, r)
      ensures MayHold(w.disk, a, i, r)
    {
      assert Possible(v.disk, a) == Possible(w.disk, a);
    }
  }

  /** Only the rename adds to what a power cut may leave. */
  lemma StepNarrows(w: World, v: World, s: Step, mode: Mode)
    requires Inv(w) && NextStep(w, v, s, mode) && !s.RenameFinal?
    ensures Narrows(w.disk, v.disk)
  {
    hide Decode, Encode, IsMessageFile, IsTemp, Storable, MessageId, OwedOk, PcOk, GoodFile, NumbersBelow, Recovered,
      Loaded, Without, Listing, AfterPowerCut;
    match s
    case BeginPut(_, _) => TempNarrows(w, v, s, mode);
    case WriteChunk(_) => TempNarrows(w, v, s, mode);
    case SyncContents => TempNarrows(w, v, s, mode);
    case Open(names) => OpenKeeps(w, v, names, mode);
    case PowerCut(after) => CutNarrows(w.disk, after, w.submitted);
    case LoseHome => assert forall a: string :: Possible(v.disk, a) == {None};
    case SweepTemp(name) => UnlinkNarrows(w.disk, name);
    case RemoveFile(_) => UnlinkNarrows(w.disk, w.proc.pc.rest[0]);
    case CleanUp(_) => UnlinkNarrows(w.disk, if w.proc.pc.Aborting? then w.proc.pc.tmp else w.proc.pc.name);
    case _ =>
  }

  lemma QuietCuts(w: World, v: World, s: Step, mode: Mode)
    requires CutSafe(w) && Inv(v) && NextStep(w, v, s, mode) && Narrows(w.disk, v.disk)
    requires !s.RenameFinal? && !s.BeginPut? && !s.Open?
    ensures CutSafe(v)
  {
    hide Decode, Encode, FileName, SpoolNumber, IsMessageFile, IsTemp, Storable, Key, OwedOk, MayHold, PcOk, IdOf,
      MessageId, Without, QueueAt, AfterPowerCut, FileNumber;
  }

  lemma BeginCuts(w: World, v: World, s: Step, mode: Mode)
    requires CutSafe(w) && Inv(v) && NextStep(w, v, s, mode) && Narrows(w.disk, v.disk) && s.BeginPut?
    ensures CutSafe(v)
  {
    hide Decode, Encode, FileName, SpoolNumber, IsMessageFile, IsTemp, Storable, Key, OwedOk, MayHold, PcOk, IdNumber,
      MessageId, FileNumber;
    assert IdOf(s.rec) == w.proc.mem.ids + 1;
  }

  /** The rename adds one thing to what a power cut may leave: the message under its final name. */
  lemma RenameAdds(w: World, v: World, s: Step, mode: Mode)
    requires Inv(w) && NextStep(w, v, s, mode) && s.RenameFinal?
    ensures var name := FileName(w.proc.mem.next);
            && FileNumber(name) == w.proc.mem.next && Storable(w.proc.pc.rec)
            && forall a, i, r :: MayHold(v.disk, a, i, r) ==>
                 MayHold(w.disk, a, i, r) || (a == name && r == Sanitized(w.proc.pc.rec))
  {
    hide Decode, Encode, FileName, SpoolNumber, IsMessageFile, IsTemp, Storable, Key, OwedOk, GoodFile, Sanitized;
    TempIsNoMessage();
    var pc := w.proc.pc;
    var name := FileName(w.proc.mem.next);
    StorableReads(pc.rec);
    forall a, i: nat, r | MayHold(v.disk, a, i, r)
      ensures MayHold(w.disk, a, i, r) || (a == name && r == Sanitized(pc.rec))
    {
      if a == name {
        assert Possible(v.disk, name) == Possible(w.disk, name) + {Some(pc.ino)};
      } else {
        assert a != pc.tmp && Possible(v.disk, a) == Possible(w.disk, a);
      }
    }
  }

  lemma RenameCuts(w: World, v: World, s: Step, mode: Mode)
    requires CutSafe(w) && Inv(v) && NextStep(w, v, s, mode) && s.RenameFinal?
    ensures CutSafe(v)
  {
    hide Decode, Encode, FileName, SpoolNumber, IsMessageFile, IsTemp, Storable, Key, OwedOk, IdOf, GoodFile, Sanitized,
      MayHold, FileNumber;
    RenameAdds(w, v, s, mode);
    SanitizedNumber(w.proc.pc.rec);
    RenamedAhead(w, v, Sanitized(w.proc.pc.rec), FileName(w.proc.mem.next));
  }

  /** With the rename's one new possibility, order and counters are as they must be. */
  lemma RenamedAhead(w: World, v: World, rec: Record, name: string)
    requires CutSafe(w) && w.proc.Up? && v.proc.Up? && v.clock == w.clock
    requires v.proc.mem.ids == w.proc.mem.ids && v.proc.mem.next == w.proc.mem.next + 1
    requires FileNumber(name) == w.proc.mem.next && PutSafe(w, rec)
    requires forall a, i, r :: MayHold(v.disk, a, i, r) ==> MayHold(w.disk, a, i, r) || (a == name && r == rec)
    ensures CutsOrdered(v.disk) && Ahead(v.disk, v.proc.mem.ids, v.proc.mem.next)
    ensures forall a, i, r :: MayHold(v.disk, a, i, r) ==> r.at <= v.clock
  {
    hide MayHold, IdOf, FileNumber, Inv;
  }

  /** Opening keeps whatever a power cut may leave in order; its counters are the recovered ones. */
  lemma OpenCuts(w: World, v: World, names: seq<string>, mode: Mode)
    requires CutSafe(w) && Inv(v) && NextStep(w, v, Open(names), mode)
    requires Ahead(v.disk, v.proc.mem.ids, v.proc.mem.next)
    ensures CutSafe(v)
  {
    hide Decode, Encode, MayHold, PcOk, OwedOk, Loaded, Recovered, FileNumber, IdOf, GoodFile;
    OpenKeeps(w, v, names, mode);
  }

  lemma StepCuts(w: World, v: World, s: Step, mode: Mode)
    requires CutSafe(w) && NextStep(w, v, s, mode)
    requires w.proc.Down? && v.proc.Up? ==> Ahead(v.disk, v.proc.mem.ids, v.proc.mem.next)
    ensures CutSafe(v)
  {
    hide Inv, PcOk, Listing, Loaded, Recovered, Storable, MayHold, CutsOrdered, Ahead, CutsBefore, Narrows, PutSafe;
    assert Inv(v) by { StepKeeps(w, v, s, mode); }
    if s.RenameFinal? {
      RenameCuts(w, v, s, mode);
    } else if s.Open? {
      OpenCuts(w, v, s.names, mode);
    } else {
      StepNarrows(w, v, s, mode);
      if s.BeginPut? { BeginCuts(w, v, s, mode); } else { QuietCuts(w, v, s, mode); }
    }
  }

  lemma {:induction false} RunCuts(ws: seq<World>, mode: Mode, i: nat)
    requires IsRun(ws, mode) && i < |ws| && OpensAhead(ws[..i + 1])
    ensures CutSafe(ws[i])
  {
    hide NextStep, MayHold, Ahead, CutSafe;
    if i == 0 {
      NothingYet(ws[0]);
    } else {
      EarlierOpens(ws, i - 1, i);
      RunCuts(ws, mode, i - 1);
      assert Next(ws[i - 1], ws[i - 1 + 1], mode);
      var s :| NextStep(ws[i - 1], ws[i], s, mode);
      assert ws[..i + 1][i - 1] == ws[i - 1] && ws[..i + 1][i - 1 + 1] == ws[i];
      StepCuts(ws[i - 1], ws[i], s, mode);
    }
  }

  lemma EarlierOpens(ws: seq<World>, i: nat, j: nat)
    requires i <= j < |ws| && OpensAhead(ws[..j + 1])
    ensures OpensAhead(ws[..i + 1])
  {
    hide Ahead;
    var a, b := ws[..i + 1], ws[..j + 1];
    forall k | 0 <= k < |a| - 1 && a[k].proc.Down? && a[k + 1].proc.Up?
      ensures Ahead(a[k + 1].disk, a[k + 1].proc.mem.ids, a[k + 1].proc.mem.next)
    {
      assert a[k] == b[k] && a[k + 1] == b[k + 1];
    }
  }

  lemma NothingYet(w: World)
    requires Starts(w)
    ensures CutSafe(w) && Dated(w)
  {
    assert forall a: string, i, r :: !MayHold(EMPTY, a, i, r);
  }

  /** What is in order for every power cut is in order as it stands. */
  lemma CutSafeOrdered(w: World)
    requires CutSafe(w)
    ensures Ordered(w)
  {
    hide Decode, Encode, FileName, SpoolNumber, IsMessageFile, IsTemp, Storable, Key, OwedOk, IdOf, GoodFile, PcOk;
    forall a, r | Holds(w.disk, a, r)
      ensures MayHold(w.disk, a, w.disk.dir[a], r) && (w.proc.Up? ==> FileNumber(a) < w.proc.mem.next)
    {
      assert Entry(w.disk, a) in Possible(w.disk, a);
    }
  }

  // ---- Every run ----

  /** Nothing a power cut may leave, and nothing being written, is from the future. */
  ghost predicate Dated(w: World) {
    && Inv(w)
    && (forall a, i, r :: MayHold(w.disk, a, i, r) ==> r.at <= w.clock)
    && (w.proc.Up? && (w.proc.pc.Filling? || w.proc.pc.Settled?) ==> w.proc.pc.rec.at <= w.clock)
  }

  lemma StepDated(w: World, v: World, s: Step, mode: Mode)
    requires Dated(w) && NextStep(w, v, s, mode)
    ensures Dated(v)
  {
    hide Inv, PcOk, Listing, Loaded, Recovered, Storable, MayHold, Narrows, Without, AfterPowerCut;
    assert Inv(v) by { StepKeeps(w, v, s, mode); }
    if s.RenameFinal? {
      RenameDated(w, v, s, mode);
    } else {
      StepNarrows(w, v, s, mode);
      NarrowsDated(w, v);
    }
  }

  lemma NarrowsDated(w: World, v: World)
    requires Dated(w) && Narrows(w.disk, v.disk) && w.clock <= v.clock
    ensures forall a, i, r :: MayHold(v.disk, a, i, r) ==> r.at <= v.clock
  {
    hide MayHold, Inv;
  }

  lemma RenameDated(w: World, v: World, s: Step, mode: Mode)
    requires Dated(w) && Inv(v) && NextStep(w, v, s, mode) && s.RenameFinal?
    ensures Dated(v)
  {
    hide Decode, Encode, FileName, SpoolNumber, IsMessageFile, IsTemp, Storable, Key, OwedOk, GoodFile, Sanitized,
      MayHold;
    RenameAdds(w, v, s, mode);
    SanitizedNumber(w.proc.pc.rec);
  }

  /** The order of what a power cut left depends on nothing else. */
  lemma CutOrder(w: World, v: World, after: Disk, mode: Mode)
    requires Dated(w) && NextStep(w, v, PowerCut(after), mode) && WellFormed(after) && FilesOrdered(after)
    ensures Ordered(v)
  {
    hide Decode, Encode, FileName, SpoolNumber, IsMessageFile, OwedOk, PcOk, GoodFile, IdOf, AfterPowerCut;
    StepKeeps(w, v, PowerCut(after), mode);
    assert AfterPowerCut(w.disk, after) by { }
    CutNarrows(w.disk, after, w.submitted);
    forall a, r | Holds(after, a, r) ensures r.at <= v.clock { HeldMayHold(after, a, r); }
  }

  lemma HeldMayHold(d: Disk, a: string, r: Record)
    requires WellFormed(d) && Holds(d, a, r)
    ensures MayHold(d, a, d.dir[a], r)
  {
    hide Decode, IsMessageFile;
    assert Entry(d, a) in Possible(d, a);
  }

  /** Every power cut of the run left the message files in order. */
  ghost predicate CutsInOrder(ws: seq<World>, mode: Mode) {
    forall i, after :: 0 <= i < |ws| - 1 && NextStep(ws[i], ws[i + 1], PowerCut(after), mode) ==>
      WellFormed(after) && FilesOrdered(after)
  }

  lemma EarlierCuts(ws: seq<World>, mode: Mode, i: nat, j: nat)
    requires i <= j <= |ws| && CutsInOrder(ws[..j], mode)
    ensures CutsInOrder(ws[..i], mode)
  {
    hide NextStep, WellFormed;
    var a, b := ws[..i], ws[..j];
    forall k, after | 0 <= k < |a| - 1 && NextStep(a[k], a[k + 1], PowerCut(after), mode)
      ensures WellFormed(after) && FilesOrdered(after)
    {
      assert a[k] == b[k] && a[k + 1] == b[k + 1];
    }
  }

  lemma {:induction false} RunDated(ws: seq<World>, mode: Mode, i: nat)
    requires IsRun(ws, mode) && i < |ws|
    ensures Dated(ws[i])
  {
    hide NextStep, Dated, CutSafe;
    if i == 0 {
      NothingYet(ws[0]);
    } else {
      RunDated(ws, mode, i - 1);
      assert Next(ws[i - 1], ws[i - 1 + 1], mode);
      var s :| NextStep(ws[i - 1], ws[i], s, mode);
      StepDated(ws[i - 1], ws[i], s, mode);
    }
  }

  lemma {:induction false} RunOrdered(ws: seq<World>, mode: Mode, i: nat)
    requires IsRun(ws, mode) && i < |ws| && CutsInOrder(ws[..i + 1], mode)
    ensures Ordered(ws[i])
  {
    hide NextStep, Ordered, Dated, CutsInOrder;
    if i == 0 {
      StartsOrdered(ws[0]);
    } else {
      EarlierCuts(ws, mode, i, i + 1);
      RunOrdered(ws, mode, i - 1);
      RunDated(ws, mode, i - 1);
      assert Next(ws[i - 1], ws[i - 1 + 1], mode);
      var s :| NextStep(ws[i - 1], ws[i], s, mode);
      if s.PowerCut? {
        CutInOrder(ws, mode, i - 1, s.after);
        CutOrder(ws[i - 1], ws[i], s.after, mode);
      } else {
        StepOrder(ws[i - 1], ws[i], s, mode);
      }
    }
  }

  lemma CutInOrder(ws: seq<World>, mode: Mode, i: nat, after: Disk)
    requires i + 1 < |ws| && CutsInOrder(ws[..i + 2], mode) && NextStep(ws[i], ws[i + 1], PowerCut(after), mode)
    ensures WellFormed(after) && FilesOrdered(after)
  {
    hide NextStep, WellFormed, FilesOrdered;
    var b := ws[..i + 2];
    assert NextStep(b[i], b[i + 1], PowerCut(after), mode);
  }

  // ---- Theorems ----

  /**
   The message files are in order at every moment of a run exactly when every power cut left
   them so: no kill, restart, put, removal or failing file operation disturbs the order.
   */
  lemma OrderedExactly(ws: seq<World>, mode: Mode)
    requires IsRun(ws, mode)
    ensures (forall i :: 0 <= i < |ws| ==> WellFormed(ws[i].disk) && FilesOrdered(ws[i].disk))
       <==> CutsInOrder(ws, mode)
  {
    hide WellFormed, FilesOrdered, IsRun, NextStep;
    if CutsInOrder(ws, mode) {
      forall i | 0 <= i < |ws| ensures WellFormed(ws[i].disk) && FilesOrdered(ws[i].disk) { InOrderAt(ws, mode, i); }
    } else {
      var i, after :| 0 <= i < |ws| - 1 && NextStep(ws[i], ws[i + 1], PowerCut(after), mode)
        && !(WellFormed(after) && FilesOrdered(after));
      CutLeaves(ws[i], ws[i + 1], after, mode);
    }
  }

  lemma CutLeaves(w: World, v: World, after: Disk, mode: Mode)
    requires NextStep(w, v, PowerCut(after), mode)
    ensures v.disk == after
  {
  }

  lemma InOrderAt(ws: seq<World>, mode: Mode, i: nat)
    requires IsRun(ws, mode) && CutsInOrder(ws, mode) && i < |ws|
    ensures WellFormed(ws[i].disk) && FilesOrdered(ws[i].disk)
  {
    hide WellFormed, FilesOrdered, IsRun, NextStep, CutsInOrder, Ordered;
    assert ws[..|ws|] == ws;
    EarlierCuts(ws, mode, i + 1, |ws|);
    RunOrdered(ws, mode, i);
    OrderedFiles(ws[i]);
  }

  lemma OrderedFiles(w: World)
    requires Ordered(w)
    ensures WellFormed(w.disk) && FilesOrdered(w.disk)
  {
    hide PcOk, OwedOk, GoodFile;
  }

  /**
   At every moment of every run whose power cuts so far left the files in order, through kills,
   restarts and failing file operations: along every live queue, position, file number and id
   increase together and arrival times never decrease; the id counter has passed every id in
   the queues and the next file number every file's.
   */
  lemma JointOrder(ws: seq<World>, mode: Mode, i: nat, k: string)
    requires IsRun(ws, mode) && i < |ws| && CutsInOrder(ws[..i + 1], mode) && ws[i].proc.Up?
    ensures InJointOrder(ws[i], Live(ws[i].proc.mem, ws[i].proc.pc, k))
  {
    hide IsRun, Ordered, MemoryOk, CutsInOrder, InJointOrder;
    RunOrdered(ws, mode, i);
    RunBacks(ws, mode, i);
    LiveOrdered(ws[i], k);
  }

  /** The same order across the whole store. */
  lemma OrderAcrossRoutes(ws: seq<World>, mode: Mode, i: nat, j: string, k: string, m: Message, n: Message)
    requires IsRun(ws, mode) && i < |ws| && CutsInOrder(ws[..i + 1], mode) && ws[i].proc.Up? && j != k
    requires m in Live(ws[i].proc.mem, ws[i].proc.pc, j) && n in Live(ws[i].proc.mem, ws[i].proc.pc, k)
    ensures (Num(m) < Num(n) && Earlier(m.rec, n.rec)) || (Num(n) < Num(m) && Earlier(n.rec, m.rec))
  {
    hide IsRun, Ordered, MemoryOk, CutsInOrder, Earlier, Num, Live;
    RunOrdered(ws, mode, i);
    RunBacks(ws, mode, i);
    LiveOrderedAcross(ws[i], j, k, m, n);
  }

  /**
   The store a restart builds, after kills and after power cuts that left the files in order, is
   one that the guarantees of `Runs`, `LeaseSafety` and `Conservation` start from.
   */
  lemma RecoveredStoreIsSound(ws: seq<World>, mode: Mode, i: nat, names: seq<string>, epoch: string)
    requires IsRun(ws, mode) && i + 1 < |ws| && CutsInOrder(ws[..i + 1], mode)
    requires NextStep(ws[i], ws[i + 1], Open(names), mode)
    ensures var s := StoreOf(ws[i + 1].proc.mem, epoch);
            Runs.StoreOk(s, ws[i + 1].clock) && Runs.IdsApart(s)
  {
    hide Ordered, MemoryOk, CutsInOrder, Next, Recovered, Loaded, StoreOf, Runs.StoreOk, Runs.IdsApart;
    RunOrdered(ws, mode, i);
    RunBacks(ws, mode, i);
    OpenedIsSound(ws[i], ws[i + 1], names, mode, epoch);
  }

  /** What a power cut may leave in order, it leaves in order. */
  lemma OrderedCut(w: World, after: Disk)
    requires Inv(w) && CutsOrdered(w.disk) && AfterPowerCut(w.disk, after)
    ensures WellFormed(after) && FilesOrdered(after)
  {
    hide Decode, Encode, IsMessageFile, PcOk, OwedOk, IdOf, FileNumber, Earlier;
    CutNarrows(w.disk, after, w.submitted);
    forall a, r | Holds(after, a, r) ensures MayHold(w.disk, a, after.dir[a], r) { HeldMayHold(after, a, r); }
  }

  /** A run whose every restart was ahead has no power cut that leaves the files out of order. */
  lemma AheadRestartsKeepOrder(ws: seq<World>, mode: Mode)
    requires IsRun(ws, mode) && OpensAhead(ws)
    ensures CutsInOrder(ws, mode)
  {
    hide Inv, CutsOrdered, AfterPowerCut, WellFormed, FilesOrdered, OpensAhead, IsRun;
    forall i, after | 0 <= i < |ws| - 1 && NextStep(ws[i], ws[i + 1], PowerCut(after), mode)
      ensures WellFormed(after) && FilesOrdered(after)
    {
      assert ws[..|ws| - 1 + 1] == ws;
      EarlierOpens(ws, i, |ws| - 1);
      RunCuts(ws, mode, i);
      OrderedCut(ws[i], after);
    }
  }

  /** With nothing waiting for an fsync, files in order are so whatever a power cut does. */
  lemma FlushedCutsOrdered(w: World)
    requires Ordered(w) && Flushed(w.disk)
    ensures CutsOrdered(w.disk)
  {
    hide Decode, Encode, IsMessageFile, PcOk, OwedOk, GoodFile, IdOf, FileNumber, Earlier, Bounded, WriteOrdered;
    forall a, i: nat, r | MayHold(w.disk, a, i, r) ensures Holds(w.disk, a, r) { assert Entry(w.disk, a) == Some(i); }
  }

  /** The id counter a restart sets has reached a number exactly when a message file still holds an id that has. */
  lemma RestartedCounter(w: World, v: World, names: seq<string>, mode: Mode, n: nat)
    requires Inv(w) && NextStep(w, v, Open(names), mode)
    ensures n <= v.proc.mem.ids <==> n == 0 || exists a, r :: Holds(w.disk, a, r) && IdOf(r) >= n
  {
    hide Decode, Encode, FileName, SpoolNumber, IsMessageFile, IsTemp, Storable, Key, OwedOk, PcOk, Loaded, HighestId,
      HighestFile, Enqueue, MessageNumber, IdNumber, GoodFile, Sanitized, Quarantined, MoveAside, Complete, ReadFrom;
    var msgs := Loaded(w.disk, names);
    if a, r :| Holds(w.disk, a, r) && IdOf(r) >= n {
      var m := LoadedMessage(w.disk, names, w.submitted, a);
      StorableId(m.rec);
    } else if n > 0 && v.proc.mem.ids > 0 {
      var m :| m in msgs && MessageNumber(m.rec.id) == Some(v.proc.mem.ids);
      LoadsEverything(w.disk, names, w.submitted);
      var i :| 0 <= i < |msgs| && msgs[i] == m;
      assert names[i] in names && Holds(w.disk, names[i], m.rec);
      StorableId(m.rec);
    }
  }

  /** The record was accepted before the i-th moment of the run. */
  ghost predicate AcceptedBefore(ws: seq<World>, mode: Mode, i: nat, r: Record)
    requires i < |ws|
  {
    exists k :: 0 <= k < i && NextStep(ws[k], ws[k + 1], SyncDirectory, mode) && ws[k].proc.pc.rec == r
  }

  /**
   After a restart every new id exceeds every id ever accepted exactly when, for each of them, a
   message file that is still there holds it or a later one.
   */
  lemma NewIdsExactly(ws: seq<World>, mode: Mode, i: nat, names: seq<string>)
    requires IsRun(ws, mode) && i + 1 < |ws| && NextStep(ws[i], ws[i + 1], Open(names), mode)
    ensures WellFormed(ws[i].disk)
    ensures (forall r :: AcceptedBefore(ws, mode, i, r) ==> IdOf(r) <= ws[i + 1].proc.mem.ids)
       <==> forall r :: AcceptedBefore(ws, mode, i, r) ==>
              IdOf(r) == 0 || exists a, s :: Holds(ws[i].disk, a, s) && IdOf(s) >= IdOf(r)
  {
    hide Holds, AcceptedBefore, IsRun, IdOf, Recovered, Loaded;
    RunKeeps(ws, mode, i);
    forall r: Record
      ensures IdOf(r) <= ws[i + 1].proc.mem.ids
         <==> IdOf(r) == 0 || exists a, s :: Holds(ws[i].disk, a, s) && IdOf(s) >= IdOf(r)
    {
      RestartedCounter(ws[i], ws[i + 1], names, mode, IdOf(r));
    }
  }

  /** No change to a message file is waiting for an fsync. */
  ghost predicate Flushed(d: Disk) {
    forall name :: IsMessageFile(name) ==> Possible(d, name) == {Entry(d, name)}
  }

  /** A power cut leaves nothing unflushed. */
  lemma PowerCutFlushes(d: Disk, e: Disk)
    requires AfterPowerCut(d, e)
    ensures Flushed(e)
  {
  }

  /** A restart over a flushed directory is ahead, so the process that follows a power cut always is. */
  lemma FlushedOpensAhead(w: World, v: World, names: seq<string>, mode: Mode)
    requires Inv(w) && NextStep(w, v, Open(names), mode) && Flushed(w.disk)
    ensures Ahead(v.disk, v.proc.mem.ids, v.proc.mem.next)
  {
    hide Decode, Encode, FileName, SpoolNumber, IsMessageFile, IsTemp, Storable, Key, OwedOk, PcOk, Loaded, HighestId,
      HighestFile, Enqueue, MessageNumber, IdNumber, GoodFile, Sanitized;
    OpenKeeps(w, v, names, mode);
    forall a, i: nat, r | MayHold(v.disk, a, i, r)
      ensures IdOf(r) <= v.proc.mem.ids && FileNumber(a) < v.proc.mem.next
    {
      assert Entry(w.disk, a) == Some(i);
      var m := LoadedMessage(w.disk, names, w.submitted, a);
      StorableId(m.rec);
    }
  }
}
