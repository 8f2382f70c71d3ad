/**
 Power-cut safety of the spool: whatever step the power fails at, everything the relay has
 promised is recovered, and nothing recovered is a fragment.
 */
module SpoolSafety {
  import opened Text
  import opened Messages
  import opened Disks
  import opened SpoolCodec
  import opened SpoolMachine
  import Utf8

  /** A fully written, fsynced copy of a submitted message, under a name of the spool's own. */
  ghost predicate GoodFile(d: Disk, name: string, i: nat, submitted: set<Record>)
    requires i < |d.inodes|
  {
    && SpoolNumber(name).Some? && SpoolNumber(name).value < UINT64_LIMIT && name == FileName(SpoolNumber(name).value)
    && d.inodes[i].synced
    && Complete(d.inodes[i].data, submitted)
  }

  ghost predicate Complete(data: string, submitted: set<Record>) {
    exists r :: r in submitted && Storable(r) && data == Encode(r)
  }

  /** What a complete file is read as: a submitted message, its names made UTF-8. */
  ghost predicate ReadFrom(data: string, submitted: set<Record>, r: Record) {
    exists s :: s in submitted && Storable(s) && data == Encode(s) && r == Sanitized(s)
  }

  /** Every message file, however a power cut settles the directory, is good. */
  ghost predicate DiskOk(d: Disk, submitted: set<Record>) {
    && WellFormed(d)
    && forall name: string, v :: v in Possible(d, name) && v.Some? && IsMessageFile(name)
         ==> GoodFile(d, name, v.value, submitted)
  }

  /** What is promised is under its name for certain. */
  ghost predicate OwedOk(d: Disk, owed: map<string, Record>)
    requires WellFormed(d)
  {
    forall name :: name in owed ==>
      && IsMessageFile(name) && name in d.dir && Possible(d, name) == {Entry(d, name)}
      && Storable(owed[name]) && DataAt(d, name) == Encode(owed[name])
  }

  /** No message file, present or possible, is the inode still being written. */
  ghost predicate Private(d: Disk, ino: nat) {
    forall name: string :: Some(ino) in Possible(d, name) ==> !IsMessageFile(name)
  }

  ghost predicate PcOk(w: World, mem: Memory, pc: Pc) {
    match pc
    case Idle => true
    case Filling(rec, tmp, ino) =>
      && rec in w.submitted && Storable(rec) && IsTemp(tmp)
      && tmp in w.disk.dir && w.disk.dir[tmp] == ino && Private(w.disk, ino)
    case Settled(rec, tmp, ino) =>
      && rec in w.submitted && Storable(rec) && IsTemp(tmp)
      && tmp in w.disk.dir && w.disk.dir[tmp] == ino
      && ino < |w.disk.inodes| && w.disk.inodes[ino] == Inode(Encode(rec), true)
    case Renamed(rec, name) =>
      && Storable(rec) && name !in w.owed && IsMessageFile(name) && name in w.disk.dir
      && WellFormed(w.disk) && DataAt(w.disk, name) == Encode(rec)
    case Undoing(_, name) => name !in w.owed && IsMessageFile(name)
    case Aborting(tmp) => IsTemp(tmp)
    case Removing(_, _, _, _, rest) => forall f :: f in rest ==> f !in w.owed
  }

  /** Every message file in the directory is numbered below the next one to be written. */
  ghost predicate NumbersBelow(d: Disk, next: nat) {
    forall name :: name in d.dir && IsMessageFile(name) ==> SpoolNumber(name).Some? && SpoolNumber(name).value < next
  }

  ghost predicate Inv(w: World) {
    && DiskOk(w.disk, w.submitted)
    && OwedOk(w.disk, w.owed)
    && (w.proc.Up? ==> NumbersBelow(w.disk, w.proc.mem.next) && PcOk(w, w.proc.mem, w.proc.pc))
  }

  // ---- Preservation ----

  lemma TempIsNoMessage()
    ensures forall name :: IsTemp(name) ==> !IsMessageFile(name)
  {
  }

  lemma SubmittedComplete(r: Record, submitted: set<Record>)
    requires r in submitted && Storable(r)
    ensures Complete(Encode(r), submitted)
  {
  }

  /** A message id is ASCII, so sanitising leaves it alone. */
  lemma IdSanitizes(id: string)
    requires MessageNumber(id).Some?
    ensures Utf8.Sanitize(id) == id && Utf8.Valid(id)
  {
    hide Text.Value, Utf8.Sanitize, Utf8.Valid;
    assert forall i :: 1 <= i < |id| ==> id[i] == id[1..][i - 1];
    Utf8.SanitizeAscii(id);
    Utf8.AsciiValid(id);
  }

  /** A file holding a message is read as that message sanitised, which reads the same ever after. */
  lemma StorableReads(r: Record)
    requires Storable(r)
    ensures Decode(Encode(r)) == Some(Sanitized(r))
    ensures Storable(Sanitized(r)) && Sanitized(Sanitized(r)) == Sanitized(r)
    ensures Sanitized(r).id == r.id && Sanitized(r).at == r.at
  {
    hide Decode, Encode, MessageNumber, Utf8.Sanitize, Utf8.Valid;
    CodecReads(r);
    IdSanitizes(r.id);
    SanitizedRouteValid(r.route);
    SanitizedTwice(r.route.estate);
    SanitizedTwice(r.route.station);
    SanitizedTwice(r.route.dir);
  }

  lemma SanitizedTwice(s: string)
    ensures Utf8.Sanitize(Utf8.Sanitize(s)) == Utf8.Sanitize(s)
  {
    hide Utf8.Sanitize, Utf8.Valid;
    Utf8.SanitizeValid(s);
    Utf8.SanitizeFixesExactlyValid(Utf8.Sanitize(s));
  }

  /** Sanitising changes a message exactly when its names are not UTF-8. */
  lemma SanitizedExactly(r: Record)
    requires Storable(r)
    ensures Sanitized(r) == r <==> WellFormedNames(r)
  {
    hide Decode, Encode;
    CodecReads(r);
    CodecExactness(r);
  }

  lemma UnlinkKeeps(d: Disk, name: string, submitted: set<Record>, owed: map<string, Record>)
    requires DiskOk(d, submitted) && OwedOk(d, owed) && name !in owed
    ensures DiskOk(Unlink(d, name), submitted) && OwedOk(Unlink(d, name), owed)
  {
    hide Decode, Encode, FileName, SpoolNumber, IsMessageFile, IsTemp, Storable, MessageId, Key;
    var e := Unlink(d, name);
    assert forall n: string, v :: v in Possible(e, n) ==> v in Possible(d, n) || v == None;
    assert forall n: string :: n != name ==> Possible(e, n) == Possible(d, n);
  }

  lemma CreateKeeps(d: Disk, tmp: string, submitted: set<Record>, more: set<Record>, owed: map<string, Record>)
    requires DiskOk(d, submitted) && OwedOk(d, owed) && !IsMessageFile(tmp) && submitted <= more
    ensures DiskOk(Create(d, tmp), more) && OwedOk(Create(d, tmp), owed) && Private(Create(d, tmp), |d.inodes|)
  {
    hide Decode, Encode, FileName, SpoolNumber, IsMessageFile, IsTemp, Storable, MessageId, Key;
    var e := Create(d, tmp);
    assert forall n: string :: n != tmp ==> Possible(e, n) == Possible(d, n);
    assert Possible(e, tmp) == Possible(d, tmp) + {Some(|d.inodes|)};
    assert forall i :: 0 <= i < |d.inodes| ==> e.inodes[i] == d.inodes[i];
  }

  /** Writing an inode no message file can name. */
  lemma WriteInodeKeeps(d: Disk, e: Disk, ino: nat, submitted: set<Record>, owed: map<string, Record>)
    requires DiskOk(d, submitted) && OwedOk(d, owed) && Private(d, ino) && ino < |d.inodes|
    requires |e.inodes| == |d.inodes| && e == d.(inodes := d.inodes[ino := e.inodes[ino]])
    ensures DiskOk(e, submitted) && OwedOk(e, owed) && Private(e, ino)
  {
    hide Decode, Encode, FileName, SpoolNumber, IsMessageFile, IsTemp, Storable, MessageId, Key;
    assert forall n: string :: Possible(e, n) == Possible(d, n);
    assert forall i :: 0 <= i < |d.inodes| && i != ino ==> e.inodes[i] == d.inodes[i];
    forall n | n in owed
      ensures e.dir[n] != ino
    {
      assert Entry(d, n) in Possible(d, n);
    }
  }

  /** Giving a complete, fsynced file its final name. */
  lemma RenameKeepsDisk(d: Disk, tmp: string, name: string, submitted: set<Record>, owed: map<string, Record>)
    requires DiskOk(d, submitted) && OwedOk(d, owed) && tmp in d.dir && !IsMessageFile(tmp) && name !in d.dir
    requires d.dir[tmp] < |d.inodes| && GoodFile(d, name, d.dir[tmp], submitted)
    ensures WellFormed(Rename(d, tmp, name))
    ensures DiskOk(Rename(d, tmp, name), submitted) && OwedOk(Rename(d, tmp, name), owed)
  {
    hide Decode, Encode, FileName, SpoolNumber, IsMessageFile, IsTemp, Storable, MessageId, Key;
    var e := Rename(d, tmp, name);
    assert forall n: string :: n != tmp && n != name ==> Possible(e, n) == Possible(d, n);
    assert Possible(e, tmp) == Possible(d, tmp) + {if tmp == name then Entry(d, tmp) else None};
    assert Possible(e, name) == Possible(d, name) + {Entry(d, tmp)};
  }

  lemma SyncDirKeeps(d: Disk, submitted: set<Record>, owed: map<string, Record>)
    requires DiskOk(d, submitted) && OwedOk(d, owed)
    ensures DiskOk(SyncDir(d), submitted) && OwedOk(SyncDir(d), owed)
    ensures forall n: string :: Possible(SyncDir(d), n) == {Entry(d, n)}
  {
    hide Decode, Encode, FileName, SpoolNumber, IsMessageFile, IsTemp, Storable, MessageId, Key;
    var e := SyncDir(d);
    assert forall n: string :: Possible(e, n) == {Entry(d, n)} && Entry(d, n) in Possible(d, n);
  }

  lemma BeginKeeps(w: World, v: World, rec: Record, tmp: string, mode: Mode)
    requires Inv(w) && NextStep(w, v, BeginPut(rec, tmp), mode)
    ensures Inv(v)
  {
    hide Decode, Encode, FileName, SpoolNumber, IsMessageFile, IsTemp, Storable, MessageId, Key, DiskOk;
    TempIsNoMessage();
    CreateKeeps(w.disk, tmp, w.submitted, v.submitted, w.owed);
  }

  lemma WriteKeeps(w: World, v: World, s: Step, mode: Mode)
    requires Inv(w) && NextStep(w, v, s, mode) && (s.WriteChunk? || s.SyncContents?)
    ensures Inv(v)
  {
    hide Decode, Encode, FileName, SpoolNumber, IsMessageFile, IsTemp, Storable, MessageId, Key, DiskOk;
    WriteInodeKeeps(w.disk, v.disk, w.proc.pc.ino, w.submitted, w.owed);
  }

  lemma RenameKeeps(w: World, v: World, mode: Mode)
    requires Inv(w) && NextStep(w, v, RenameFinal, mode)
    ensures Inv(v)
    ensures FileName(w.proc.mem.next) !in w.disk.dir
  {
    hide Decode, Encode, FileName, SpoolNumber, IsMessageFile, IsTemp, Storable, MessageId, Key, DiskOk;
    TempIsNoMessage();
    var pc := w.proc.pc;
    var name := FileName(w.proc.mem.next);
    assert name !in w.disk.dir;
    SubmittedComplete(pc.rec, w.submitted);
    RenameKeepsDisk(w.disk, pc.tmp, name, w.submitted, w.owed);
  }

  lemma SyncDirectoryKeeps(w: World, v: World, mode: Mode)
    requires Inv(w) && NextStep(w, v, SyncDirectory, mode)
    ensures Inv(v)
  {
    hide Decode, Encode, FileName, SpoolNumber, IsMessageFile, IsTemp, Storable, MessageId, Key, DiskOk;
    SyncDirKeeps(w.disk, w.submitted, w.owed);
  }

  lemma PowerCutKeeps(w: World, v: World, after: Disk, mode: Mode)
    requires Inv(w) && NextStep(w, v, PowerCut(after), mode)
    ensures Inv(v)
  {
    hide Decode, Encode, FileName, SpoolNumber, IsMessageFile, IsTemp, Storable, MessageId, Key;
    var d, e := w.disk, v.disk;
    assert forall n: string :: Possible(e, n) == {Entry(e, n)} && Entry(e, n) in Possible(d, n);
    forall name | name in w.owed
      ensures name in e.dir && DataAt(e, name) == Encode(w.owed[name])
    {
      assert Entry(e, name) == Entry(d, name);
      assert Entry(d, name) in Possible(d, name);
      assert GoodFile(d, name, d.dir[name], w.submitted);
    }
  }

  lemma LoseHomeKeeps(w: World, v: World, mode: Mode)
    requires Inv(w) && NextStep(w, v, LoseHome, mode)
    ensures Inv(v)
  {
    hide Decode, Encode, FileName, SpoolNumber, IsMessageFile, IsTemp, Storable, MessageId, Key, Complete;
    assert forall n: string :: Possible(v.disk, n) == {None};
  }

  // ---- Recovery ----

  /** Over a good disk every listed file is read, none is moved aside, and none is altered. */
  lemma {:induction false} LoadsEverything(d: Disk, names: seq<string>, submitted: set<Record>)
    requires DiskOk(d, submitted)
    requires forall name :: name in names ==> name in d.dir && IsMessageFile(name)
    ensures Quarantined(d, names) == [] && |Loaded(d, names)| == |names|
    ensures forall i :: 0 <= i < |names| ==>
              var m := Loaded(d, names)[i];
              && m.file == names[i] && m.lease == "" && m.until == 0
              && Storable(m.rec) && Sanitized(m.rec) == m.rec
              && Decode(DataAt(d, names[i])) == Some(m.rec) && ReadFrom(DataAt(d, names[i]), submitted, m.rec)
  {
    hide Decode, Encode, FileName, SpoolNumber, IsMessageFile, IsTemp, Storable, MessageId, Key, Sanitized, ReadFrom;
    if names != [] {
      assert Entry(d, names[0]) in Possible(d, names[0]);
      assert GoodFile(d, names[0], d.dir[names[0]], submitted);
      CompleteReads(DataAt(d, names[0]), submitted);
      LoadsEverything(d, names[1..], submitted);
    }
  }

  lemma CompleteReads(data: string, submitted: set<Record>)
    requires Complete(data, submitted)
    ensures var r := Decode(data);
            r.Some? && Storable(r.value) && Sanitized(r.value) == r.value && ReadFrom(data, submitted, r.value)
  {
    hide Decode, Encode, Storable, Sanitized;
    var s :| s in submitted && Storable(s) && data == Encode(s);
    StorableReads(s);
  }

  /** Recovery finds the number of every message file. */
  lemma ListedBelow(d: Disk, names: seq<string>, submitted: set<Record>, name: string)
    requires DiskOk(d, submitted) && Listing(d, names) && name in d.dir && IsMessageFile(name)
    ensures SpoolNumber(name).Some? && SpoolNumber(name).value <= HighestFile(Loaded(d, names))
  {
    hide Decode, Encode, FileName, SpoolNumber, IsMessageFile, Storable, Loaded, Complete, ReadFrom, Sanitized;
    LoadsEverything(d, names, submitted);
    var msgs := Loaded(d, names);
    assert Entry(d, name) in Possible(d, name);
    assert GoodFile(d, name, d.dir[name], submitted);
    var i :| 0 <= i < |names| && names[i] == name;
    assert msgs[i] in msgs;
  }

  /** What opening changes when nothing is moved aside. */
  lemma OpenShape(w: World, v: World, names: seq<string>, mode: Mode)
    requires DiskOk(w.disk, w.submitted) && NextStep(w, v, Open(names), mode)
    ensures v.disk == w.disk && v.owed == w.owed && v.submitted == w.submitted && Listing(w.disk, names)
    ensures v.proc.Up? && v.proc.pc.Idle? && v.proc.mem.next == HighestFile(Loaded(w.disk, names)) + 1
  {
    hide Decode, IsMessageFile, Loaded, Enqueue, HighestFile, HighestId, GoodFile, ReadFrom, Sanitized, Storable;
    LoadsEverything(w.disk, names, w.submitted);
  }

  lemma OpenKeeps(w: World, v: World, names: seq<string>, mode: Mode)
    requires Inv(w) && NextStep(w, v, Open(names), mode)
    ensures Inv(v) && v.disk == w.disk
  {
    hide NextStep, SpoolNumber, IsMessageFile, Loaded, HighestFile, GoodFile, OwedOk, Listing;
    OpenShape(w, v, names, mode);
    forall name | name in w.disk.dir && IsMessageFile(name)
      ensures SpoolNumber(name).Some? && SpoolNumber(name).value < v.proc.mem.next
    {
      ListedBelow(w.disk, names, w.submitted, name);
    }
  }

  /** Steps that remove one file that is not promised. */
  lemma RemovalKeeps(w: World, v: World, s: Step, mode: Mode)
    requires Inv(w) && NextStep(w, v, s, mode) && (s.SweepTemp? || s.CleanUp? || s.RemoveFile?)
    ensures Inv(v)
  {
    hide Decode, Encode, FileName, SpoolNumber, IsMessageFile, IsTemp, Storable, MessageId, Key, DiskOk;
    TempIsNoMessage();
    var name :=
      if s.SweepTemp? then s.name
      else if s.RemoveFile? then w.proc.pc.rest[0]
      else if w.proc.pc.Aborting? then w.proc.pc.tmp
      else w.proc.pc.name;
    assert s.RemoveFile? ==> name in w.proc.pc.rest;
    UnlinkKeeps(w.disk, name, w.submitted, w.owed);
  }

  /** Steps that leave the disk alone. */
  lemma QuietKeeps(w: World, v: World, s: Step, mode: Mode)
    requires Inv(w) && NextStep(w, v, s, mode) && v.disk == w.disk
    requires s.FailBegin? || s.FailWrite? || s.FailSyncDirectory? || s.Drop? || s.FinishDrop? || s.Mark? || s.Tick? ||
             s.Kill?
    ensures Inv(v)
  {
    hide Decode, Encode, FileName, SpoolNumber, IsMessageFile, IsTemp, Storable, MessageId, Key, DiskOk, Without;
  }

  /** Every step keeps the invariant. */
  lemma StepKeeps(w: World, v: World, s: Step, mode: Mode)
    requires Inv(w) && NextStep(w, v, s, mode)
    ensures Inv(v)
  {
    hide Inv;
    match s
    case BeginPut(rec, tmp) => BeginKeeps(w, v, rec, tmp, mode);
    case WriteChunk(_) => WriteKeeps(w, v, s, mode);
    case SyncContents => WriteKeeps(w, v, s, mode);
    case RenameFinal => RenameKeeps(w, v, mode);
    case SyncDirectory => SyncDirectoryKeeps(w, v, mode);
    case PowerCut(after) => PowerCutKeeps(w, v, after, mode);
    case LoseHome => LoseHomeKeeps(w, v, mode);
    case Open(names) => OpenKeeps(w, v, names, mode);
    case SweepTemp(_) => RemovalKeeps(w, v, s, mode);
    case CleanUp(_) => RemovalKeeps(w, v, s, mode);
    case RemoveFile(_) => RemovalKeeps(w, v, s, mode);
    case _ => QuietKeeps(w, v, s, mode);
  }

  lemma {:induction false} RunKeeps(ws: seq<World>, mode: Mode, i: nat)
    requires IsRun(ws, mode) && i < |ws|
    ensures Inv(ws[i])
  {
    hide Decode, Encode, FileName, SpoolNumber, IsMessageFile, IsTemp, Storable, MessageId, Key;
    if i > 0 {
      RunKeeps(ws, mode, i - 1);
      assert Next(ws[i - 1], ws[i - 1 + 1], mode);
      var s :| NextStep(ws[i - 1], ws[i], s, mode);
      StepKeeps(ws[i - 1], ws[i], s, mode);
    }
  }

  // ---- Theorems ----

  /** What a power cut may leave of the spool directory: one of its states, or no directory at all. */
  ghost predicate Leaves(w: World, after: Disk) {
    AfterPowerCut(w.disk, after) || (w.home.Unsynced? && after == Gone(w.disk))
  }

  /** A restart over this disk finds every promised message, names made UTF-8, under its own file. */
  ghost predicate Keeps(owed: map<string, Record>, d: Disk, names: seq<string>)
    requires WellFormed(d) && forall name :: name in names ==> name in d.dir
  {
    forall name :: name in owed ==> Message(Sanitized(owed[name]), name, "", 0) in Loaded(d, names)
  }

  /**
   At every moment of every run, with any file operation allowed to fail and the power allowed
   to fail at any step: whatever the power cut leaves, a restart quarantines nothing and every
   message it recovers is a complete message that was submitted, its names made UTF-8. Unless
   the directory itself was never made durable, every message whose `Put` returned success and
   whose removal has not started is among them, under its own file.
   */
  lemma PowerCutSafety(ws: seq<World>, mode: Mode, i: nat, after: Disk, names: seq<string>)
    requires IsRun(ws, mode) && i < |ws| && Leaves(ws[i], after) && Listing(after, names)
    ensures WellFormed(after) && Quarantined(after, names) == []
    ensures forall m :: m in Loaded(after, names) ==> exists s :: s in ws[i].submitted && m.rec == Sanitized(s)
    ensures !ws[i].home.Unsynced? ==> Keeps(ws[i].owed, after, names)
  {
    hide Decode, Encode, FileName, SpoolNumber, IsMessageFile, IsTemp, Storable, MessageId, Key, Loaded, Sanitized,
      Complete, GoodFile, Keeps, AfterPowerCut, Quarantined;
    RunKeeps(ws, mode, i);
    var w := ws[i];
    if AfterPowerCut(w.disk, after) {
      var v := w.(disk := after, home := Found(w.home), proc := Down);
      PowerCutKeeps(w, v, after, Mode(true, true));
      LoadsEverything(after, names, w.submitted);
      OwedLoads(v, names);
    } else {
      LoseHomeKeeps(w, w.(disk := Gone(w.disk), home := Missing, proc := Down, owed := map[]), Mode(true, true));
      LoadsEverything(after, names, w.submitted);
    }
  }

  lemma OwedLoads(w: World, names: seq<string>)
    requires Inv(w) && Listing(w.disk, names)
    ensures Keeps(w.owed, w.disk, names)
  {
    hide Decode, Encode, FileName, SpoolNumber, IsMessageFile, IsTemp, Storable, MessageId, Key, Sanitized, Complete,
      Loaded, GoodFile, PcOk, ReadFrom;
    LoadsEverything(w.disk, names, w.submitted);
    var msgs := Loaded(w.disk, names);
    forall name | name in w.owed
      ensures Message(Sanitized(w.owed[name]), name, "", 0) in msgs
    {
      var j :| 0 <= j < |names| && names[j] == name;
      StorableReads(w.owed[name]);
      assert msgs[j] in msgs;
    }
  }

  /**
   The promises made at a moment outlive every power cut at that moment exactly when the spool
   directory's own entry is durable, or nothing is promised.
   */
  lemma PromisesOutliveCutsExactly(ws: seq<World>, mode: Mode, i: nat)
    requires IsRun(ws, mode) && i < |ws|
    ensures (forall after, names :: Leaves(ws[i], after) && Listing(after, names) ==>
               WellFormed(after) && Keeps(ws[i].owed, after, names))
       <==> !ws[i].home.Unsynced? || ws[i].owed == map[]
  {
    hide Keeps, IsMessageFile, IsRun, WellFormed;
    var w := ws[i];
    if !w.home.Unsynced? || w.owed == map[] {
      forall after, names | Leaves(w, after) && Listing(after, names)
        ensures WellFormed(after) && Keeps(w.owed, after, names)
      {
        PowerCutSafety(ws, mode, i, after, names);
        NothingOwed(after, names);
      }
    } else {
      assert Listing(Gone(w.disk), []);
      NothingLeft(w.disk, w.owed);
    }
  }

  lemma NothingOwed(d: Disk, names: seq<string>)
    requires WellFormed(d) && forall name :: name in names ==> name in d.dir
    ensures Keeps(map[], d, names)
  {
  }

  lemma NothingLeft(d: Disk, owed: map<string, Record>)
    requires owed != map[]
    ensures WellFormed(Gone(d)) && !Keeps(owed, Gone(d), [])
  {
    var name :| name in owed;
    assert Loaded(Gone(d), []) == [];
  }

  /** A directory that is there for good stays so: one made beforehand, or one a power cut has left. */
  lemma {:induction false} HomeStaysDurable(ws: seq<World>, mode: Mode, i: nat, j: nat)
    requires IsRun(ws, mode) && i <= j < |ws| && ws[i].home.Durable?
    ensures ws[j].home.Durable?
  {
    hide Storable, Recovered, Loaded, Listing, AfterPowerCut;
    if i < j {
      HomeStaysDurable(ws, mode, i, j - 1);
      assert Next(ws[j - 1], ws[j - 1 + 1], mode);
    }
  }

  /** The final rename never replaces a message file, whatever has failed before it. */
  lemma WriteNeverOverwrites(ws: seq<World>, mode: Mode, i: nat)
    requires IsRun(ws, mode) && i + 1 < |ws| && NextStep(ws[i], ws[i + 1], RenameFinal, mode)
    ensures FileName(ws[i].proc.mem.next) !in ws[i].disk.dir
  {
    RunKeeps(ws, mode, i);
    RenameKeeps(ws[i], ws[i + 1], mode);
  }
}
