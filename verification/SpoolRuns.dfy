/** Runs of the spool machine built step by step, for the results that need one to exist. */
module SpoolRuns {
  import opened Text
  import opened Messages
  import opened Disks
  import opened SpoolCodec
  import opened Queues
  import opened SpoolMachine
  import Safety = SpoolSafety

  const ROUTE := Route("e", "s", "c2s")

  function End(ws: seq<World>): World {
    if |ws| > 0 then ws[|ws| - 1] else INIT
  }

  /** `r` carries on from `ws` without another process starting. */
  predicate Onward(ws: seq<World>, r: seq<World>) {
    ws <= r && forall i {:trigger r[i]} :: |ws| - 1 <= i < |r| - 1 && 0 <= i && r[i].proc.Down? ==> r[i + 1].proc.Down?
  }

  lemma OnwardSelf(ws: seq<World>)
    ensures Onward(ws, ws)
  {
  }

  lemma OnwardTwice(a: seq<World>, b: seq<World>, c: seq<World>)
    requires Onward(a, b) && Onward(b, c) && |b| > 0
    ensures Onward(a, c)
  {
    forall i | |a| - 1 <= i < |c| - 1 && 0 <= i && c[i].proc.Down? ensures c[i + 1].proc.Down? {
      if i < |b| - 1 {
        assert c[i] == b[i] && c[i + 1] == b[i + 1];
      }
    }
  }

  lemma Advance(ws: seq<World>, mode: Mode, s: Step, v: World) returns (r: seq<World>)
    requires IsRun(ws, mode) && NextStep(End(ws), v, s, mode)
    ensures IsRun(r, mode) && End(r) == v && r == ws + [v]
    ensures End(ws).proc.Up? ==> Onward(ws, r)
  {
    hide NextStep;
    assert Next(End(ws), v, mode);
    r := ws + [v];
  }

  /** Where a put stands once its file has its final name. */
  function Published(w: World, rec: Record, tmp: string): World
    requires w.proc.Up? && w.proc.mem.next < UINT64_LIMIT && tmp !in w.disk.dir
  {
    var mem, ino, name := w.proc.mem, |w.disk.inodes|, FileName(w.proc.mem.next);
    var d := Rename(SyncFile(Append(Create(w.disk, tmp), ino, Encode(rec)), ino), tmp, name);
    At(w, mem.(ids := mem.ids + 1, next := mem.next + 1), Renamed(rec, name), d).(submitted := w.submitted + {rec})
  }

  lemma Publish(ws: seq<World>, mode: Mode, rec: Record, tmp: string) returns (r: seq<World>)
    requires IsRun(ws, mode) && End(ws).proc.Up? && End(ws).proc.pc.Idle? && End(ws).proc.mem.next < UINT64_LIMIT
    requires Storable(rec) && rec.id == MessageId(End(ws).proc.mem.ids + 1) && rec.at == End(ws).clock
    requires IsTemp(tmp) && tmp !in End(ws).disk.dir
    ensures IsRun(r, mode) && End(r) == Published(End(ws), rec, tmp) && Onward(ws, r)
  {
    hide Encode, FileName, Storable, MessageId, IsTemp, IsRun, Onward;
    var w := End(ws);
    var mem, ino := w.proc.mem.(ids := w.proc.mem.ids + 1), |w.disk.inodes|;
    var d := Create(w.disk, tmp);
    var r1 := Advance(ws, mode, BeginPut(rec, tmp),
      At(w, mem, Filling(rec, tmp, ino), d).(submitted := w.submitted + {rec}));
    d := Append(d, ino, Encode(rec));
    assert "" + Encode(rec) == Encode(rec);
    var r2 := Advance(r1, mode, WriteChunk(Encode(rec)), At(End(r1), mem, Filling(rec, tmp, ino), d));
    d := SyncFile(d, ino);
    var r3 := Advance(r2, mode, SyncContents, At(End(r2), mem, Settled(rec, tmp, ino), d));
    d := Rename(d, tmp, FileName(mem.next));
    r := Advance(r3, mode, RenameFinal, At(End(r3), mem.(next := mem.next + 1), Renamed(rec, FileName(mem.next)), d));
    OnwardTwice(ws, r1, r2);
    OnwardTwice(ws, r2, r3);
    OnwardTwice(ws, r3, r);
  }

  /** A new file filled, synced and renamed to a free name, as far as the disk is concerned. */
  lemma FilledDisk(d: Disk, data: string, tmp: string, name: string)
    requires tmp !in d.dir && name != tmp
    ensures var ino := |d.inodes|;
            var e := Rename(SyncFile(Append(Create(d, tmp), ino, data), ino), tmp, name);
            && e.inodes == d.inodes + [Inode(data, true)]
            && e.dir == d.dir[name := ino]
            && Possible(e, name) == Possible(d, name) + {Some(ino)}
            && forall a: string :: a != tmp && a != name ==> Possible(e, a) == Possible(d, a)
  {
    assert "" + data == data;
  }

  /** What publishing does to the disk. */
  lemma PublishedDisk(w: World, rec: Record, tmp: string)
    requires w.proc.Up? && w.proc.mem.next < UINT64_LIMIT && tmp !in w.disk.dir && IsTemp(tmp)
    ensures var d, name, ino := Published(w, rec, tmp).disk, FileName(w.proc.mem.next), |w.disk.inodes|;
            && d.inodes == w.disk.inodes + [Inode(Encode(rec), true)]
            && d.dir == w.disk.dir[name := ino]
            && Possible(d, name) == Possible(w.disk, name) + {Some(ino)}
            && forall a: string :: a != tmp && a != name ==> Possible(d, a) == Possible(w.disk, a)
  {
    hide Encode, IsTemp, IsMessageFile, Rename, SyncFile, Append, Create, Possible, FileName;
    FilledDisk(w.disk, Encode(rec), tmp, FileName(w.proc.mem.next));
  }

  /** A whole put, acknowledged. */
  lemma Accept(ws: seq<World>, mode: Mode, rec: Record, tmp: string) returns (r: seq<World>)
    requires IsRun(ws, mode) && End(ws).proc.Up? && End(ws).proc.pc.Idle? && End(ws).proc.mem.next < UINT64_LIMIT
    requires Storable(rec) && rec.id == MessageId(End(ws).proc.mem.ids + 1) && rec.at == End(ws).clock
    requires IsTemp(tmp) && tmp !in End(ws).disk.dir
    ensures var w, v, name := End(ws), End(r), FileName(End(ws).proc.mem.next);
            && IsRun(r, mode) && ws <= r && v.clock == w.clock && v.home == w.home && v.owed == w.owed[name := rec]
            && v.disk == Disk(w.disk.inodes + [Inode(Encode(rec), true)], w.disk.dir[name := |w.disk.inodes|], map[])
            && v.proc.Up? && v.proc.pc.Idle?
            && v.proc.mem.ids == w.proc.mem.ids + 1 && v.proc.mem.next == w.proc.mem.next + 1
            && QueueAt(v.proc.mem.q, Key(rec.route)) ==
              QueueAt(w.proc.mem.q, Key(rec.route)) + [Message(rec, name, "", 0)]
  {
    hide Encode, FileName, Storable, MessageId, IsTemp, IsRun, Key;
    var w := End(ws);
    r := Publish(ws, mode, rec, tmp);
    PublishedDisk(w, rec, tmp);
    var p := End(r);
    var mem, k := p.proc.mem, Key(rec.route);
    var after := mem.(q := mem.q[k := QueueAt(mem.q, k) + [Message(rec, p.proc.pc.name, "", 0)]]);
    r := Advance(r, mode, SyncDirectory, At(p, after, Idle, SyncDir(p.disk)).(owed := p.owed[p.proc.pc.name := rec]));
  }

  /** Opening an empty directory restarts both counters. */
  lemma OpenEmpty(ws: seq<World>, mode: Mode) returns (r: seq<World>)
    requires IsRun(ws, mode) && End(ws).proc.Down? && End(ws).disk.dir == map[]
    ensures IsRun(r, mode) && ws <= r
    ensures End(r) == At(End(ws), Memory(map[], 0, 1), Idle, End(ws).disk).(home := Made(End(ws).home))
  {
    hide IsMessageFile;
    var w := End(ws);
    assert WellFormed(w.disk) by { Safety.RunKeeps(ws, mode, |ws| - 1); }
    assert Listing(w.disk, []);
    assert Recovered(Loaded(w.disk, [])) == Memory(map[], 0, 1);
    assert MoveAside(w.disk, Quarantined(w.disk, [])) == w.disk;
    r := Advance(ws, mode, Open([]), At(w, Memory(map[], 0, 1), Idle, w.disk).(home := Made(w.home)));
  }

  lemma Killed(ws: seq<World>, mode: Mode) returns (r: seq<World>)
    requires IsRun(ws, mode) && End(ws).proc.Up?
    ensures IsRun(r, mode) && ws <= r && End(r) == End(ws).(proc := Down)
  {
    r := Advance(ws, mode, Kill, End(ws).(proc := Down));
  }

  /** Puts that fail at once use up ids and nothing else. */
  lemma {:induction false} SkipIds(ws: seq<World>, mode: Mode, n: nat) returns (r: seq<World>)
    requires IsRun(ws, mode) && End(ws).proc.Up? && End(ws).proc.pc.Idle?
    ensures IsRun(r, mode) && Onward(ws, r) && |r| > 0
    ensures End(r) == At(End(ws), End(ws).proc.mem.(ids := End(ws).proc.mem.ids + n), Idle, End(ws).disk)
  {
    hide IsRun;
    r := ws;
    if n > 0 {
      var before := SkipIds(ws, mode, n - 1);
      var w := End(before);
      r := Advance(before, mode, FailBegin, At(w, w.proc.mem.(ids := w.proc.mem.ids + 1), Idle, w.disk));
      OnwardTwice(ws, before, r);
    } else {
      NotEmpty(ws, mode);
    }
  }

  lemma NotEmpty(ws: seq<World>, mode: Mode)
    requires IsRun(ws, mode)
    ensures |ws| > 0
  {
  }

  /** A put whose directory fsync fails: its file is unlinked, its number and its id are spent. */
  lemma PublishUndone(ws: seq<World>, mode: Mode, rec: Record, tmp: string) returns (r: seq<World>)
    requires IsRun(ws, mode) && End(ws).proc.Up? && End(ws).proc.pc.Idle? && End(ws).proc.mem.next < UINT64_LIMIT
    requires Storable(rec) && rec.id == MessageId(End(ws).proc.mem.ids + 1) && rec.at == End(ws).clock
    requires IsTemp(tmp) && tmp !in End(ws).disk.dir
    ensures var w, v := End(ws), End(r);
            && IsRun(r, mode) && Onward(ws, r) && v.clock == w.clock && v.proc.Up? && v.proc.pc.Idle?
            && v.proc.mem.ids == w.proc.mem.ids + 1 && v.proc.mem.next == w.proc.mem.next + 1
            && v.disk.inodes == w.disk.inodes + [Inode(Encode(rec), true)]
            && forall a: string :: a != tmp ==> Possible(w.disk, a) <= Possible(v.disk, a)
  {
    hide Encode, FileName, Storable, MessageId, IsTemp, IsRun, Onward;
    var r1 := Publish(ws, mode, rec, tmp);
    PublishedDisk(End(ws), rec, tmp);
    var p := End(r1);
    var mem, name := p.proc.mem, p.proc.pc.name;
    var r2 := Advance(r1, mode, FailSyncDirectory, At(p, mem, Undoing(rec, name), p.disk));
    r := Advance(r2, mode, CleanUp(true), At(End(r2), mem, Idle, Unlink(p.disk, name)));
    NotEmpty(r1, mode);
    NotEmpty(r2, mode);
    OnwardTwice(ws, r1, r2);
    OnwardTwice(ws, r2, r);
  }
}
