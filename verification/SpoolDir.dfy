/**
 The spool as the Go code runs it (spool.go): `write`, `remove` and `load` step by step over a
 directory, any step free to fail. Each object carries the trail of machine states its file
 operations go through, and every method proves that its trail is a run of `SpoolMachine`:
 what `SpoolSafety`, `SpoolRestart` and `SpoolCuts` prove of runs therefore holds between any
 two file operations of this code.
 */
module SpoolDir {
  import opened Text
  import opened Messages
  import opened Disks
  import opened SpoolCodec
  import opened Queues
  import opened SpoolMachine
  import Safety = SpoolSafety

  /** The queues with a message at the end of its route's. */
  function Appended(q: map<string, Queue>, m: Message): map<string, Queue> {
    q[Key(m.rec.route) := QueueAt(q, Key(m.rec.route)) + [m]]
  }

  /** All that has left the directory is unfinished writes. */
  predicate Tidied(d: Disk, e: Disk) {
    && e.inodes == d.inodes
    && (forall n :: n in e.dir ==> n in d.dir && e.dir[n] == d.dir[n])
    && (forall n :: n in d.dir && n !in e.dir ==> HasPrefix(n, "writing-"))
  }

  predicate NoneUnfinished(d: Disk) {
    forall n :: n in d.dir ==> !HasPrefix(n, "writing-")
  }

  class Spool {
    var disk: Disk
    var next: nat
    const env: Mode
    ghost var trail: seq<World>

    ghost function Last(): World
      reads this
      requires |trail| > 0
    {
      trail[|trail| - 1]
    }

    /** The trail is a run, and it has brought a live process to `pc` with this memory. */
    ghost predicate Stands(mem: Memory, pc: Pc)
      reads this
    {
      && |trail| > 0 && IsRun(trail, env)
      && Last().proc == Up(mem, pc) && Last().disk == disk && mem.next == next
    }

    ghost predicate Valid()
      reads this
    {
      |trail| > 0 && Last().proc.Up? && Stands(Last().proc.mem, Idle)
    }

    /** What the process running this spool remembers. */
    ghost function Mem(): Memory
      reads this
      requires Valid()
    {
      Last().proc.mem
    }

    ghost method Record(s: Step, v: World)
      requires IsRun(trail, env) && NextStep(Last(), v, s, env)
      modifies this`trail
      ensures trail == old(trail) + [v] && IsRun(trail, env)
    {
      hide NextStep;
      assert Next(Last(), v, env);
      trail := trail + [v];
    }

    /** Moves the clock to the moment of the operation. */
    ghost method Tick(now: Time)
      requires Valid() && Last().clock <= now
      modifies this`trail
      ensures Valid() && old(trail) <= trail && Last() == old(Last()).(clock := now)
    {
      Record(SpoolMachine.Tick(now), Last().(clock := now));
    }

    /** Appends to the temporary file; a failure may leave a part of the bytes behind. */
    method WriteBytes(bytes: string, ghost mem: Memory, ghost rec: Record, ghost tmp: string, ino: nat)
      returns (ok: bool)
      requires Stands(mem, Filling(rec, tmp, ino)) && ino < |disk.inodes|
      requires disk.inodes[ino].data + bytes <= Encode(rec)
      modifies this`disk, this`trail
      ensures Stands(mem, Filling(rec, tmp, ino)) && old(trail) <= trail && |disk.inodes| == old(|disk.inodes|)
      ensures ok ==> disk.inodes[ino].data == old(disk.inodes[ino].data) + bytes
      ensures Last() == old(Last()).(disk := disk) && disk.dir == old(disk.dir)
    {
      hide Encode;
      ok := *;
      var written: int := *;
      if ok || !(0 <= written <= |bytes|) {
        written := |bytes|;
      }
      assert disk.inodes[ino].data + bytes[..written] <= Encode(rec) by {
        assert disk.inodes[ino].data + bytes == disk.inodes[ino].data + bytes[..written] + bytes[written..];
      }
      disk := Append(disk, ino, bytes[..written]);
      Record(WriteChunk(bytes[..written]), Last().(disk := disk));
      assert ok ==> bytes[..written] == bytes;
    }

    /** `os.Remove` of a file this operation made, on a path that is already failing. */
    method Discard(name: string, ghost mem: Memory, ghost pc: Pc)
      requires Stands(mem, pc) && (pc.Aborting? || pc.Undoing?) && name == (if pc.Aborting? then pc.tmp else pc.name)
      modifies this`disk, this`trail
      ensures Valid() && Mem() == mem && old(trail) <= trail && Last().owed == old(Last().owed) &&
              Last().clock == old(Last().clock)
    {
      var ok: bool := *;
      if !env.removalsFail || ok {
        disk := Unlink(disk, name);
        Record(CleanUp(true), SpoolMachine.At(Last(), mem, Idle, disk));
      } else {
        Record(CleanUp(false), SpoolMachine.At(Last(), mem, Idle, disk));
      }
    }

    /** The error paths before the rename. */
    method Abandon(tmp: string, ghost mem: Memory, ghost pc: Pc)
      requires Stands(mem, pc) && (pc.Filling? || pc.Settled?) && tmp == pc.tmp
      modifies this`disk, this`trail
      ensures Valid() && Mem() == mem && old(trail) <= trail && Last().owed == old(Last().owed) &&
              Last().clock == old(Last().clock)
    {
      Record(FailWrite, SpoolMachine.At(Last(), mem, Aborting(tmp), disk));
      Discard(tmp, mem, Aborting(tmp));
    }

    /** The first half of `write`: a temporary file with the whole message in it, fsynced. */
    method Fill(rec: Record) returns (tmp: Option<string>)
      requires Valid() && Storable(rec) && rec.id == MessageId(Mem().ids + 1) && rec.at == Last().clock
      modifies this`disk, this`trail
      ensures old(trail) <= trail && Last().owed == old(Last().owed) && Last().clock == old(Last().clock)
      ensures tmp.None? ==> Valid() && Mem() == old(Mem()).(ids := old(Mem().ids) + 1)
      ensures tmp.Some? ==>
                && Stands(old(Mem()).(ids := old(Mem().ids) + 1), Settled(rec, tmp.value, old(|disk.inodes|)))
                && disk.dir == old(disk.dir)[tmp.value := old(|disk.inodes|)]
    {
      hide Encode, HeadLine, Storable, TempName, MessageId, IsTemp, IsRun;
      ghost var mem := Mem().(ids := Mem().ids + 1);
      var k: nat := *;
      var made: bool := *;
      if !made || TempName(k) in disk.dir {
        Record(FailBegin, SpoolMachine.At(Last(), mem, Idle, disk));
        return None;
      }
      var name, ino := TempName(k), |disk.inodes|;
      disk := Create(disk, name);
      Record(BeginPut(rec, name),
             SpoolMachine.At(Last(), mem, Filling(rec, name, ino), disk).(submitted := Last().submitted + {rec}));
      assert Encode(rec) == HeadLine(rec) + rec.body by { HeadThenBody(rec); }
      var ok := WriteBytes(HeadLine(rec), mem, rec, name, ino);
      if ok {
        ok := WriteBytes(rec.body, mem, rec, name, ino);
      }
      var synced: bool := *;
      if !ok || !synced {
        Abandon(name, mem, Filling(rec, name, ino));
        return None;
      }
      disk := SyncFile(disk, ino);
      Record(SyncContents, SpoolMachine.At(Last(), mem, Settled(rec, name, ino), disk));
      return Some(name);
    }

    /** The second half: the final name, and the directory fsync that makes it durable. */
    method Publish(rec: Record, tmp: string, ghost mem: Memory, ghost ino: nat) returns (file: Option<string>)
      requires Stands(mem, Settled(rec, tmp, ino)) && next < UINT64_LIMIT
      modifies this
      ensures Valid() && old(trail) <= trail && Last().clock == old(Last().clock)
      ensures Mem().ids == mem.ids
      ensures file.None? ==> Mem().q == mem.q && Last().owed == old(Last().owed)
      ensures file.Some? ==>
                && Mem().q == Appended(mem.q, Message(rec, file.value, "", 0))
                && file.value !in old(disk.dir)
                && Last().owed == old(Last().owed)[file.value := rec]
    {
      hide Encode, Storable, FileName, Key, IsTemp, IsMessageFile, SpoolNumber, IsRun;
      var renamed: bool := *;
      if !renamed {
        Abandon(tmp, mem, Settled(rec, tmp, ino));
        return None;
      }
      var final := FileName(next);
      assert tmp in disk.dir && final !in disk.dir by { FreshName(trail, env, mem, rec, tmp, ino); }
      disk := Rename(disk, tmp, final);
      next := next + 1;
      ghost var after := mem.(next := next);
      Record(RenameFinal, SpoolMachine.At(Last(), after, Renamed(rec, final), disk));
      var durable := Confirm(rec, final, after);
      file := if durable then Some(final) else None;
    }

    /** The directory fsync after the rename, and what undoes the rename when it fails. */
    method Confirm(rec: Record, final: string, ghost mem: Memory) returns (durable: bool)
      requires Stands(mem, Renamed(rec, final))
      modifies this`disk, this`trail
      ensures Valid() && old(trail) <= trail && Last().clock == old(Last().clock) && Mem().ids == mem.ids
      ensures Mem().q == if durable then Appended(mem.q, Message(rec, final, "", 0)) else mem.q
      ensures Last().owed == if durable then old(Last().owed)[final := rec] else old(Last().owed)
    {
      hide Encode, Storable, Key, IsTemp, IsMessageFile, IsRun;
      durable := *;
      if !durable {
        Record(FailSyncDirectory, SpoolMachine.At(Last(), mem, Undoing(rec, final), disk));
        Discard(final, mem, Undoing(rec, final));
        return;
      }
      disk := SyncDir(disk);
      ghost var after := mem.(q := Appended(mem.q, Message(rec, final, "", 0)));
      Record(SyncDirectory, SpoolMachine.At(Last(), after, Idle, disk).(owed := Last().owed[final := rec]));
    }

    /**
     `write`: temporary file, contents, fsync, rename, directory fsync. On success the message
     is in the queue of the process and owed by the disk under the file returned; on failure,
     wherever it happened, neither has changed.
     */
    method Write(rec: Record) returns (file: Option<string>)
      requires Valid() && Storable(rec) && rec.id == MessageId(Mem().ids + 1) && rec.at == Last().clock
      requires next < UINT64_LIMIT
      modifies this
      ensures Valid() && old(trail) <= trail && Last().clock == old(Last().clock)
      ensures Mem().ids == old(Mem().ids) + 1
      ensures file.None? ==> Mem().q == old(Mem().q) && Last().owed == old(Last().owed)
      ensures file.Some? ==>
                && Mem().q == Appended(old(Mem().q), Message(rec, file.value, "", 0))
                && file.value !in old(disk.dir)
                && Last().owed == old(Last().owed)[file.value := rec]
    {
      hide Storable, MessageId, Key, IsRun;
      ghost var mem, ino := Mem().(ids := Mem().ids + 1), |disk.inodes|;
      var tmp := Fill(rec);
      if tmp.None? {
        return None;
      }
      file := Publish(rec, tmp.value, mem, ino);
    }

    /** One `os.Remove` of a batch. */
    method RemoveOne(file: string, ghost mem: Memory, ghost pc: Pc) returns (ghost after: Pc)
      requires Stands(mem, pc) && pc.Removing? && pc.rest != [] && pc.rest[0] == file
      modifies this`disk, this`trail
      ensures Stands(mem, after) && after.Removing? && after.rest == pc.rest[1..]
      ensures old(trail) <= trail && Last() == SpoolMachine.At(old(Last()), mem, after, disk)
    {
      var ok: bool := *;
      if !env.removalsFail || ok {
        disk := Unlink(disk, file);
        after := pc.(gone := pc.gone + {file}, rest := pc.rest[1..]);
        Record(RemoveFile(true), SpoolMachine.At(Last(), mem, after, disk));
      } else {
        after := pc.(rest := pc.rest[1..]);
        Record(RemoveFile(false), SpoolMachine.At(Last(), mem, after, disk));
      }
    }

    /** `remove`: unlinks each message's file in turn; a failure, and a message with no file, is passed over. */
    method Remove(msgs: seq<Message>, ghost key: string)
      requires Valid() && Distinct(Filed(msgs))
      requires forall m :: m in msgs && m.file != "" ==> HasFile(QueueAt(Mem().q, key), m.file)
      modifies this`disk, this`trail
      ensures Valid() && old(trail) <= trail && Last().clock == old(Last().clock)
      ensures var out := set f | f in Filed(msgs);
              && Mem() == old(Mem()).(q := SetQueue(old(Mem().q), key, Without(QueueAt(old(Mem().q), key), out)))
              && Last().owed == old(Last().owed) - out
    {
      hide Without, HasFile;
      ghost var files := Filed(msgs);
      ghost var out := set f | f in files;
      ghost var before := QueueAt(Mem().q, key);
      ghost var mem := Mem().(q := SetQueue(Mem().q, key, Without(before, out)));
      ghost var pc := Removing(key, before, out, {}, files);
      ghost var owed := Last().owed - out;
      StartDrop(key, msgs, mem, pc);
      assert msgs[0..] == msgs;
      for i := 0 to |msgs|
        invariant Stands(mem, pc) && old(trail) <= trail && pc.Removing? && pc.rest == Filed(msgs[i..])
        invariant Last().clock == old(Last().clock) && Last().owed == owed
      {
        FiledStep(msgs, i);
        if msgs[i].file != "" {
          pc := RemoveOne(msgs[i].file, mem, pc);
        }
      }
      Record(FinishDrop, SpoolMachine.At(Last(), mem, Idle, disk));
    }

    ghost method StartDrop(key: string, msgs: seq<Message>, mem: Memory, pc: Pc)
      requires Valid() && Distinct(Filed(msgs))
      requires forall m :: m in msgs && m.file != "" ==> HasFile(QueueAt(Mem().q, key), m.file)
      requires var before, out := QueueAt(Mem().q, key), set f | f in Filed(msgs);
               && mem == Mem().(q := SetQueue(Mem().q, key, Without(before, out)))
               && pc == Removing(key, before, out, {}, Filed(msgs))
      modifies this`trail
      ensures Stands(mem, pc) && old(trail) <= trail && Last().clock == old(Last().clock)
      ensures Last().owed == old(Last().owed) - set f | f in Filed(msgs)
    {
      hide Without, HasFile;
      var files := Filed(msgs);
      Record(Drop(key, files), SpoolMachine.At(Last(), mem, pc, disk).(owed := Last().owed - pc.out));
    }

    /** The store has changed nothing but leases. */
    ghost method Relabel(marked: map<string, Queue>)
      requires Valid() && marked.Keys == Mem().q.Keys && forall k :: k in marked ==>
               SameButLeases(Mem().q[k], marked[k])
      modifies this`trail
      ensures Valid() && old(trail) <= trail && Last() ==
              SpoolMachine.At(old(Last()), old(Mem()).(q := marked), Idle, disk)
    {
      Record(Mark(marked), SpoolMachine.At(Last(), Mem().(q := marked), Idle, disk));
    }

    // ---- Opening ----

    /** No process is running over this directory. */
    ghost predicate Closed()
      reads this
    {
      |trail| > 0 && IsRun(trail, env) && Last().proc.Down? && Last().disk == disk
    }

    constructor (d: Disk, faults: Mode, ghost history: seq<World>)
      requires IsRun(history, faults) && history[|history| - 1].proc.Down? && history[|history| - 1].disk == d
      ensures Closed() && disk == d && trail == history && env == faults
    {
      disk, next, env, trail := d, 0, faults, history;
    }

    /** The first loop of `load`: clears unfinished writes and collects the message files. */
    method List() returns (names: seq<string>)
      requires Closed()
      modifies this`disk, this`trail
      ensures Closed() && old(trail) <= trail && Last() == old(Last()).(disk := disk)
      ensures Listing(disk, names)
      ensures Tidied(old(disk), disk) && (!env.removalsFail ==> NoneUnfinished(disk))
    {
      hide IsMessageFile, HasPrefix, HasSuffix, IsRun;
      var remaining, found := disk.dir.Keys, [];
      while remaining != {}
        invariant Closed() && old(trail) <= trail && Last() == old(Last()).(disk := disk)
        invariant Distinct(found) && forall n :: n in found ==> n !in remaining
        invariant forall n :: n in found ==> n in disk.dir && IsMessageFile(n)
        invariant forall n :: n in remaining ==> n in disk.dir
        invariant forall n :: n in disk.dir && IsMessageFile(n) ==> n in found || n in remaining
        invariant Tidied(old(disk), disk)
        invariant !env.removalsFail ==> forall n :: n in disk.dir && HasPrefix(n, "writing-") ==> n in remaining
      {
        var name :| name in remaining;
        remaining := remaining - {name};
        Classify(name);
        if IsTemp(name) {
          var ok: bool := *;
          if !env.removalsFail || ok {
            disk := Unlink(disk, name);
            Record(SweepTemp(name), Last().(disk := disk));
          }
        } else if HasSuffix(name, EXT) {
          found := found + [name];
        }
      }
      SortSorts(found);
      names := SortNames(found);
    }

    /**
     `OpenSpool`: reads every listed file in order, moves aside what it cannot read, and
     restarts both counters from what it found.
     */
    method Open() returns (msgs: seq<Message>, quarantined: seq<string>, ghost listed: Disk, ghost names: seq<string>)
      requires Closed()
      modifies this
      ensures Valid() && old(trail) <= trail && Last().clock == old(Last().clock) && Last().owed == old(Last().owed)
      ensures WellFormed(listed) && Listing(listed, names)
      ensures msgs == Loaded(listed, names) && quarantined == Quarantined(listed, names)
      ensures disk == MoveAside(listed, quarantined) && Mem() == Recovered(msgs)
      ensures Tidied(old(disk), disk) && (!env.removalsFail ==> NoneUnfinished(disk))
    {
      hide IsMessageFile, Listing, Recovered, Work, Loaded, Quarantined, MoveAside, HighestFile, Ascending, IsRun,
        Tidied, NoneUnfinished;
      var files := List();
      names, listed := files, disk;
      assert WellFormed(listed) by { Safety.RunKeeps(trail, env, |trail| - 1); }
      assert Ascending(files) && forall n :: n in files ==> n in listed.dir && IsMessageFile(n)
        by { ListingMembers(listed, files); }
      NothingAside(trail, env, files);
      var highest: nat;
      msgs, quarantined, highest := Read(files, listed);
      next := highest + 1;
      Record(SpoolMachine.Open(names),
             SpoolMachine.At(Last(), Recovered(msgs), Idle, disk).(home := Made(Last().home)));
      assert Recovered(msgs).next == next by { RecoveredNext(msgs); }
    }

    /** The second loop of `load`. */
    method Read(files: seq<string>, ghost listed: Disk)
      returns (msgs: seq<Message>, quarantined: seq<string>, highest: nat)
      requires listed == disk && WellFormed(disk) && forall n :: n in files ==> n in disk.dir && IsMessageFile(n)
      requires Ascending(files)
      modifies this`disk
      ensures msgs == Loaded(listed, files) && quarantined == Quarantined(listed, files)
      ensures disk == MoveAside(listed, quarantined) && highest == HighestFile(msgs)
    {
      hide IsMessageFile, SpoolNumber, Decode, Loaded, Quarantined, MoveAside, HighestFile, Ascending;
      msgs, quarantined, highest := [], [], 0;
      NothingToRead(listed);
      assert files[0..] == files;
      var i := 0;
      while i < |files|
        invariant 0 <= i <= |files|
        invariant disk.inodes == listed.inodes
        invariant forall j :: i <= j < |files| ==> files[j] in disk.dir && disk.dir[files[j]] == listed.dir[files[j]]
        invariant msgs + Loaded(listed, files[i..]) == Loaded(listed, files)
        invariant quarantined + Quarantined(listed, files[i..]) == Quarantined(listed, files)
        invariant MoveAside(disk, Quarantined(listed, files[i..])) == MoveAside(listed, Quarantined(listed, files))
        invariant Max(highest, HighestFile(Loaded(listed, files[i..]))) == HighestFile(Loaded(listed, files))
      {
        var name := files[i];
        ReadStep(listed, files, i);
        var found := Decode(disk.inodes[disk.dir[name]].data);
        if found.None? {
          OthersUntouched(files, i);
          AsideStep(disk, name, Quarantined(listed, files[i + 1..]));
          disk := Rename(disk, name, name + CORRUPT);
          quarantined := quarantined + [name];
        } else {
          var n := SpoolNumber(name);
          if n.Some? && n.value > highest {
            highest := n.value;
          }
          msgs := msgs + [Message(found.value, name, "", 0)];
        }
        i := i + 1;
      }
      assert files[i..] == [];
    }
  }

  /** Over a directory only this relay has written, nothing is moved aside. */
  lemma NothingAside(ws: seq<World>, mode: Mode, names: seq<string>)
    requires |ws| > 0 && IsRun(ws, mode) && Listing(ws[|ws| - 1].disk, names)
    ensures var d := ws[|ws| - 1].disk; WellFormed(d) && MoveAside(d, Quarantined(d, names)) == d
  {
    hide IsRun, Loaded, IsMessageFile;
    Safety.RunKeeps(ws, mode, |ws| - 1);
    Safety.LoadsEverything(ws[|ws| - 1].disk, names, ws[|ws| - 1].submitted);
  }

  /** The temporary file is there and the next name is free. */
  lemma FreshName(ws: seq<World>, mode: Mode, mem: Memory, rec: Record, tmp: string, ino: nat)
    requires |ws| > 0 && IsRun(ws, mode) && ws[|ws| - 1].proc == Up(mem, Settled(rec, tmp, ino))
    requires mem.next < UINT64_LIMIT
    ensures tmp in ws[|ws| - 1].disk.dir && FileName(mem.next) !in ws[|ws| - 1].disk.dir
  {
    hide Encode, Storable, FileName, IsTemp, IsMessageFile, SpoolNumber, IsRun;
    Safety.RunKeeps(ws, mode, |ws| - 1);
  }

  /** The files of the messages that have one. */
  function Filed(msgs: seq<Message>): (r: seq<string>)
    ensures forall f :: f in r <==> f != "" && exists m :: m in msgs && m.file == f
  {
    if msgs == [] then []
    else if msgs[0].file == "" then Filed(msgs[1..])
    else [msgs[0].file] + Filed(msgs[1..])
  }

  lemma FiledStep(msgs: seq<Message>, i: nat)
    requires i < |msgs|
    ensures Filed(msgs[i..]) == (if msgs[i].file == "" then [] else [msgs[i].file]) + Filed(msgs[i + 1..])
  {
    assert msgs[i..][0] == msgs[i] && msgs[i..][1..] == msgs[i + 1..];
  }

  lemma {:induction false} AllFiled(msgs: seq<Message>)
    requires forall m :: m in msgs ==> m.file != ""
    ensures Filed(msgs) == Files(msgs)
  {
    if msgs != [] {
      assert msgs[0] in msgs && forall m :: m in msgs[1..] ==> m in msgs;
      AllFiled(msgs[1..]);
    }
  }

  function Files(msgs: seq<Message>): (r: seq<string>)
    ensures |r| == |msgs| && forall i :: 0 <= i < |r| ==> r[i] == msgs[i].file
  {
    seq(|msgs|, i requires 0 <= i < |msgs| => msgs[i].file)
  }

  function Max(a: nat, b: nat): nat {
    if a > b then a else b
  }

  /** What one file adds to what `load` returns. */
  lemma ReadStep(d: Disk, files: seq<string>, i: nat)
    requires WellFormed(d) && i < |files| && forall n :: n in files ==> n in d.dir
    ensures d.dir[files[i]] < |d.inodes|
    ensures var found := Decode(d.inodes[d.dir[files[i]]].data);
            var rest := Loaded(d, files[i + 1..]);
            if found.None? then
              && Loaded(d, files[i..]) == rest
              && Quarantined(d, files[i..]) == [files[i]] + Quarantined(d, files[i + 1..])
            else
              var m, n := Message(found.value, files[i], "", 0), SpoolNumber(files[i]);
              && Loaded(d, files[i..]) == [m] + rest
              && Quarantined(d, files[i..]) == Quarantined(d, files[i + 1..])
              && HighestFile([m] + rest) == Max(if n.Some? then n.value else 0, HighestFile(rest))
  {
    hide Decode, SpoolNumber;
    assert files[i..][0] == files[i] && files[i..][1..] == files[i + 1..];
    assert Entry(d, files[i]) in Possible(d, files[i]);
  }

  lemma AsideStep(d: Disk, name: string, rest: seq<string>)
    requires name in d.dir
    ensures MoveAside(d, [name] + rest) == MoveAside(Rename(d, name, name + CORRUPT), rest)
  {
  }

  lemma NothingToRead(d: Disk)
    requires WellFormed(d)
    ensures Loaded(d, []) == [] && Quarantined(d, []) == [] && MoveAside(d, []) == d && HighestFile([]) == 0
    ensures forall e: Disk :: MoveAside(e, []) == e
  {
  }

  lemma ListingMembers(d: Disk, names: seq<string>)
    requires Listing(d, names)
    ensures Ascending(names) && forall n :: n in names ==> n in d.dir && IsMessageFile(n)
  {
  }

  lemma RecoveredNext(msgs: seq<Message>)
    ensures Recovered(msgs).next == HighestFile(msgs) + 1
  {
  }

  /** Moving a file aside touches no later file of a sorted listing. */
  lemma OthersUntouched(files: seq<string>, i: nat)
    requires Ascending(files) && i < |files| && forall n :: n in files ==> IsMessageFile(n)
    ensures forall j :: i < j < |files| ==> files[j] != files[i] && files[j] != files[i] + CORRUPT
  {
    forall j | i < j < |files|
      ensures files[j] != files[i] && files[j] != files[i] + CORRUPT
    {
      assert Less(files[i], files[j]);
      LessTotal(files[i], files[j]);
      var n := files[j];
      assert n in files && n[|n| - 1] == 'g';
      assert (files[i] + CORRUPT)[|files[i]| + |CORRUPT| - 1] == 't';
    }
  }

  lemma Classify(name: string)
    ensures IsMessageFile(name) <==> !IsTemp(name) && HasSuffix(name, EXT)
  {
  }

  // ---- Sorting ----

  function Insert(x: string, s: seq<string>): seq<string> {
    if s == [] || Less(x, s[0]) then [x] + s else [s[0]] + Insert(x, s[1..])
  }

  /** `sort.Strings`. */
  function SortNames(s: seq<string>): seq<string> {
    if s == [] then [] else Insert(s[0], SortNames(s[1..]))
  }

  predicate Ascending(s: seq<string>) {
    forall i, j :: 0 <= i < j < |s| ==> Less(s[i], s[j])
  }

  lemma {:induction false} InsertSorts(x: string, s: seq<string>)
    requires Ascending(s) && x !in s
    ensures Ascending(Insert(x, s)) && forall n :: n in Insert(x, s) <==> n == x || n in s
  {
    hide Less;
    if s != [] {
      LessTotal(x, s[0]);
      if Less(x, s[0]) {
        forall i | 1 <= i < |s| ensures Less(x, s[i]) { LessTransitive(x, s[0], s[i]); }
      } else {
        InsertSorts(x, s[1..]);
        assert forall n :: n in s <==> n == s[0] || n in s[1..];
        assert forall n :: n in Insert(x, s[1..]) ==> Less(s[0], n);
      }
    }
  }

  lemma {:induction false} SortSorts(s: seq<string>)
    requires Distinct(s)
    ensures Ascending(SortNames(s)) && forall n :: n in SortNames(s) <==> n in s
  {
    hide Less;
    if s != [] {
      SortSorts(s[1..]);
      InsertSorts(s[0], SortNames(s[1..]));
      assert forall n :: n in s <==> n == s[0] || n in s[1..];
    }
  }

  lemma HeadThenBody(r: Record)
    ensures Encode(r) == HeadLine(r) + r.body
  {
  }
}
