/**
 Which moments are safe from power cuts. What a cut at a moment leaves is in order, whatever it
 does, exactly when everything it may leave is; and that lasts through whatever the running
 process goes on to do exactly when its counters are ahead of every file a cut may bring back.
 */
module SpoolCutsExact {
  import opened Text
  import opened Messages
  import opened Disks
  import opened SpoolCodec
  import opened Queues
  import opened SpoolMachine
  import opened SpoolSafety
  import opened SpoolRestart
  import opened SpoolOrder
  import opened SpoolCuts
  import opened SpoolRuns
  import SpoolDir

  /** Whatever a power cut at this moment leaves, recovery finds in order. */
  ghost predicate CutOrderKept(w: World) {
    forall after, names :: AfterPowerCut(w.disk, after) && Listing(after, names) ==>
      WellFormed(after) && AllEarlier(Loaded(after, names))
  }

  lemma CutsOrderedKeepsOrder(w: World)
    requires Inv(w) && CutsOrdered(w.disk)
    ensures CutOrderKept(w)
  {
    hide Inv, CutsOrdered, Loaded, AfterPowerCut, AllEarlier, WellFormed, IsMessageFile;
    forall after, names | AfterPowerCut(w.disk, after) && Listing(after, names)
      ensures WellFormed(after) && AllEarlier(Loaded(after, names))
    {
      CutRecoversInOrder(w, after, names);
    }
  }

  lemma CutRecoversInOrder(w: World, after: Disk, names: seq<string>)
    requires Inv(w) && CutsOrdered(w.disk) && AfterPowerCut(w.disk, after) && Listing(after, names)
    ensures WellFormed(after) && AllEarlier(Loaded(after, names))
  {
    hide Decode, Encode, FileName, SpoolNumber, IsMessageFile, Storable, OwedOk, PcOk, GoodFile, Loaded, IdOf,
      Sanitized, ReadFrom, AfterPowerCut, Earlier, MayHold;
    var v := w.(disk := after, home := Found(w.home), proc := Down);
    PowerCutKeeps(w, v, after, Mode(true, true));
    CutNarrows(w.disk, after, w.submitted);
    LoadsEverything(after, names, w.submitted);
    LoadedIncreasing(after, names, w.submitted);
    var msgs := Loaded(after, names);
    forall i, j | 0 <= i < j < |msgs| ensures Earlier(msgs[i].rec, msgs[j].rec) {
      assert names[i] in names && names[j] in names;
      ReadMayHold(after, names[i], msgs[i].rec);
      ReadMayHold(after, names[j], msgs[j].rec);
      assert FileNumber(names[i]) == Num(msgs[i]) && FileNumber(names[j]) == Num(msgs[j]);
    }
  }

  lemma ReadMayHold(d: Disk, name: string, r: Record)
    requires WellFormed(d) && name in d.dir && IsMessageFile(name) && Decode(DataAt(d, name)) == Some(r)
    ensures MayHold(d, name, d.dir[name], r)
  {
    hide Decode, IsMessageFile;
    assert Entry(d, name) in Possible(d, name);
  }

  // ---- Breaking the order ----

  /** There is room for two more puts: no counter and no clock is at the end of its width. */
  predicate HasRoom(w: World) {
    w.proc.Up? && w.proc.mem.ids + 2 < UINT64_LIMIT && w.proc.mem.next + 1 < UINT64_LIMIT && 0 <= w.clock < INT64_LIMIT
  }

  function Probe(n: nat, clock: Time): Record {
    Record(MessageId(n), ROUTE, 0, "", clock)
  }

  lemma ProbeStorable(n: nat, clock: Time)
    requires n < UINT64_LIMIT && 0 <= clock < INT64_LIMIT
    ensures Storable(Probe(n, clock)) && IdOf(Sanitized(Probe(n, clock))) == n
  {
    hide Sanitized, MessageNumber, IdNumber, MessageId;
    NewRecordStorable(Probe(n, clock), n);
    SanitizedNumber(Probe(n, clock));
  }

  /** Some temporary name is free. */
  lemma FreeTemp(names: set<string>) returns (tmp: string)
    ensures IsTemp(tmp) && tmp !in names
  {
    var n := Longest(names);
    tmp := TEMP_PREFIX + seq(n, i => '0');
  }

  /** No name is longer than this. */
  lemma {:induction false} Longest(names: set<string>) returns (n: nat)
    ensures forall name :: name in names ==> |name| <= n
    decreases |names|
  {
    if names == {} {
      n := 0;
    } else {
      var name :| name in names;
      n := Longest(names - {name});
      if |name| > n {
        n := |name|;
      }
    }
  }

  lemma {:induction false} Elements(names: set<string>) returns (s: seq<string>)
    ensures Distinct(s) && forall name :: name in s <==> name in names
    decreases |names|
  {
    s := [];
    if names != {} {
      var name :| name in names;
      var rest := Elements(names - {name});
      s := [name] + rest;
    }
  }

  lemma ListingExists(d: Disk) returns (names: seq<string>)
    ensures Listing(d, names)
  {
    hide IsMessageFile, Less;
    var files := Elements(set name | name in d.dir && IsMessageFile(name));
    SpoolDir.SortSorts(files);
    names := SpoolDir.SortNames(files);
  }

  /** Two files that a power cut may leave together, in the wrong order. */
  lemma OutOfOrder(w: World, a: string, i: nat, r: Record, b: string, j: nat, s: Record)
    requires Inv(w) && MayHold(w.disk, a, i, r) && MayHold(w.disk, b, j, s)
    requires FileNumber(a) < FileNumber(b) && !Earlier(r, s)
    ensures !CutOrderKept(w)
  {
    hide Decode, Encode, FileName, SpoolNumber, IsMessageFile, Storable, OwedOk, PcOk, GoodFile, Loaded, IdOf,
      Sanitized, Earlier, Complete, ReadFrom, NumbersBelow, OnDisk;
    var d := w.disk;
    var e := Disk(d.inodes, d.dir[a := i][b := j], map[]);
    assert a != b;
    assert AfterPowerCut(d, e) by {
      forall n: string ensures Entry(e, n) in Possible(d, n) { }
    }
    var names := ListingExists(e);
    PowerCutKeeps(w, w.(disk := e, home := Found(w.home), proc := Down), e, Mode(true, true));
    var m := LoadedMessage(e, names, w.submitted, a);
    var n := LoadedMessage(e, names, w.submitted, b);
    LoadedIncreasing(e, names, w.submitted);
    var msgs := Loaded(e, names);
    var p :| 0 <= p < |msgs| && msgs[p] == m;
    var q :| 0 <= q < |msgs| && msgs[q] == n;
    assert m.rec == r && n.rec == s && Num(m) == FileNumber(a) && Num(n) == FileNumber(b);
    assert p < q;
    assert !AllEarlier(msgs);
  }

  lemma GhostNumber(w: World, a: string, i: nat, r: Record)
    requires Inv(w) && MayHold(w.disk, a, i, r)
    ensures IdOf(r) < UINT64_LIMIT && FileNumber(a) < UINT64_LIMIT
  {
    hide Decode, Encode, FileName, SpoolNumber, IsMessageFile, OwedOk, PcOk, Sanitized, Complete, ReadFrom,
      NumbersBelow, Storable, IdNumber, MessageNumber;
    assert GoodFile(w.disk, a, i, w.submitted);
    CompleteReads(w.disk.inodes[i].data, w.submitted);
    NumberFits(r);
  }

  lemma NumberFits(r: Record)
    requires Storable(r)
    ensures IdOf(r) < UINT64_LIMIT
  {
    hide Text.Value;
    StorableId(r);
  }

  /** The file that breaks the order when one more put is in flight. */
  predicate Troubles(w: World, a: string, r: Record)
    requires w.proc.Up?
  {
    FileNumber(a) > w.proc.mem.next || (FileNumber(a) < w.proc.mem.next && IdOf(r) > w.proc.mem.ids)
  }

  lemma BreaksWithOnePut(ws: seq<World>, mode: Mode, a: string, i: nat, r: Record) returns (vs: seq<World>)
    requires IsRun(ws, mode) && End(ws).proc.Up? && End(ws).proc.pc.Idle? && MayHold(End(ws).disk, a, i, r)
    requires End(ws).proc.mem.next < UINT64_LIMIT && End(ws).proc.mem.ids + 1 < UINT64_LIMIT
    requires 0 <= End(ws).clock < INT64_LIMIT && Troubles(End(ws), a, r)
    ensures IsRun(vs, mode) && Onward(ws, vs) && !CutOrderKept(End(vs))
  {
    hide Decode, Encode, FileName, SpoolNumber, IsMessageFile, IsTemp, Storable, IdOf, Sanitized, IsRun, CutOrderKept,
      Inv, Published, MessageId, FileNumber, MayHold, Onward, Probe;
    assert Inv(End(ws)) by { EndKeeps(ws, mode); }
    GhostNumber(End(ws), a, i, r);
    var ids := End(ws).proc.mem.ids;
    var skipped := if IdOf(r) > ids then IdOf(r) - 1 - ids else 0;
    var mid := SkipIds(ws, mode, skipped);
    var w := End(mid);
    var id := w.proc.mem.ids + 1;
    var tmp := FreeTemp(w.disk.dir.Keys);
    var rec := Probe(id, w.clock);
    ProbeStorable(id, w.clock);
    assert rec.id == MessageId(id) && rec.at == w.clock by { ProbeParts(id, w.clock); }
    vs := Publish(mid, mode, rec, tmp);
    OnwardTwice(ws, mid, vs);
    assert Inv(End(vs)) by { EndKeeps(vs, mode); }
    var name, ino := FileName(w.proc.mem.next), |w.disk.inodes|;
    PublishedHolds(w, rec, tmp, a, i, r);
    if FileNumber(a) < w.proc.mem.next {
      OutOfOrder(End(vs), a, i, r, name, ino, Sanitized(rec));
    } else {
      OutOfOrder(End(vs), name, ino, Sanitized(rec), a, i, r);
    }
  }

  lemma ProbeParts(n: nat, clock: Time)
    ensures Probe(n, clock).id == MessageId(n) && Probe(n, clock).at == clock
  {
  }

  lemma EndKeeps(ws: seq<World>, mode: Mode)
    requires IsRun(ws, mode)
    ensures Inv(End(ws))
  {
    RunKeeps(ws, mode, |ws| - 1);
  }

  /** Once a put is published, a power cut may leave it beside anything it might have left before. */
  lemma PublishedHolds(w: World, rec: Record, tmp: string, a: string, i: nat, r: Record)
    requires w.proc.Up? && w.proc.mem.next < UINT64_LIMIT && tmp !in w.disk.dir && IsTemp(tmp) && Storable(rec)
    requires MayHold(w.disk, a, i, r)
    ensures var d, name := Published(w, rec, tmp).disk, FileName(w.proc.mem.next);
            && MayHold(d, a, i, r) && MayHold(d, name, |w.disk.inodes|, Sanitized(rec))
            && FileNumber(name) == w.proc.mem.next
  {
    hide Decode, Encode, FileName, SpoolNumber, IsMessageFile, IsTemp, Storable, Sanitized, Published;
    TempIsNoMessage();
    PublishedDisk(w, rec, tmp);
    StorableReads(rec);
  }

  lemma Breaks(ws: seq<World>, mode: Mode, a: string, i: nat, r: Record) returns (vs: seq<World>)
    requires IsRun(ws, mode) && HasRoom(End(ws)) && End(ws).proc.pc.Idle? && MayHold(End(ws).disk, a, i, r)
    requires var mem := End(ws).proc.mem;
             && !(FileNumber(a) < mem.next && IdOf(r) <= mem.ids) &&
               !(FileNumber(a) == mem.next && IdOf(r) <= mem.ids + 1)
    ensures IsRun(vs, mode) && Onward(ws, vs) && !CutOrderKept(End(vs))
  {
    hide Decode, Encode, FileName, SpoolNumber, IsMessageFile, IsTemp, Storable, IdOf, Sanitized, IsRun, CutOrderKept,
      MessageId, FileNumber, Onward, Probe;
    var w := End(ws);
    if FileNumber(a) == w.proc.mem.next {
      var id := w.proc.mem.ids + 1;
      var tmp := FreeTemp(w.disk.dir.Keys);
      ProbeStorable(id, w.clock);
      ProbeParts(id, w.clock);
      var mid := PublishUndone(ws, mode, Probe(id, w.clock), tmp);
      assert a != tmp by { TempIsNoMessage(); }
      assert MayHold(End(mid).disk, a, i, r);
      vs := BreaksWithOnePut(mid, mode, a, i, r);
      NotEmpty(mid, mode);
      OnwardTwice(ws, mid, vs);
    } else {
      vs := BreaksWithOnePut(ws, mode, a, i, r);
    }
  }

  // ---- Theorems ----

  /** What a power cut at this moment leaves is in order, whatever it does, exactly when all it may leave is. */
  lemma CutOrderKeptExactly(w: World)
    requires Inv(w)
    ensures CutOrderKept(w) <==> CutsOrdered(w.disk)
  {
    hide Inv, CutOrderKept, MayHold, Earlier, FileNumber;
    if CutsOrdered(w.disk) {
      CutsOrderedKeepsOrder(w);
    } else {
      var a, b, i: nat, j: nat, r, s :| MayHold(w.disk, a, i, r) && MayHold(w.disk, b, j, s)
        && FileNumber(a) < FileNumber(b) && !Earlier(r, s);
      OutOfOrder(w, a, i, r, b, j, s);
    }
  }

  /**
   At an idle moment of a process: everything that can follow, up to the next restart, keeps what
   any power cut leaves in order if and only if that is so now and the counters are ahead of
   every file a cut may bring back. The counters have room for two more puts; nothing is asked
   of the run before.
   */
  lemma OrderLastsExactly(ws: seq<World>, mode: Mode)
    requires IsRun(ws, mode) && mode.powerFails && HasRoom(End(ws)) && End(ws).proc.pc.Idle?
    ensures CutsOrdered(End(ws).disk) && Ahead(End(ws).disk, End(ws).proc.mem.ids, End(ws).proc.mem.next)
       <==> forall vs :: IsRun(vs, mode) && Onward(ws, vs) ==> CutOrderKept(End(vs))
  {
    hide IsRun, CutOrderKept, Onward, Ahead, Inv, CutsOrdered;
    var w := End(ws);
    assert Inv(w) by { EndKeeps(ws, mode); }
    if CutsOrdered(w.disk) && Ahead(w.disk, w.proc.mem.ids, w.proc.mem.next) {
      forall vs | IsRun(vs, mode) && Onward(ws, vs) ensures CutOrderKept(End(vs)) { AheadKeepsOrder(ws, mode, vs); }
    } else if CutsOrdered(w.disk) {
      var vs := NotAheadBreaks(ws, mode);
    } else {
      CutOrderKeptExactly(w);
      assert Onward(ws, ws) by { NotEmpty(ws, mode); OnwardSelf(ws); }
    }
  }

  lemma AheadKeepsOrder(ws: seq<World>, mode: Mode, vs: seq<World>)
    requires IsRun(ws, mode) && IsRun(vs, mode) && Onward(ws, vs) && End(ws).proc.Up? && End(ws).proc.pc.Idle?
    requires CutsOrdered(End(ws).disk) && Ahead(End(ws).disk, End(ws).proc.mem.ids, End(ws).proc.mem.next)
    ensures CutOrderKept(End(vs))
  {
    hide IsRun, CutOrderKept, Onward, CutSafe, Ahead, CutsOrdered, Dated;
    NotEmpty(ws, mode);
    NotEmpty(vs, mode);
    RunDated(ws, mode, |ws| - 1);
    IdleCutSafe(End(ws));
    assert |ws| <= |vs| by { OnwardLonger(ws, vs); }
    OnwardCuts(ws, vs, mode, |vs| - 1);
    CutSafeParts(End(vs));
    CutsOrderedKeepsOrder(End(vs));
  }

  lemma OnwardLonger(ws: seq<World>, vs: seq<World>)
    requires Onward(ws, vs)
    ensures |ws| <= |vs|
  {
  }

  lemma IdleCutSafe(w: World)
    requires Dated(w) && w.proc.Up? && w.proc.pc.Idle? && CutsOrdered(w.disk)
    requires Ahead(w.disk, w.proc.mem.ids, w.proc.mem.next)
    ensures CutSafe(w)
  {
    hide Inv, MayHold, Ahead, CutsOrdered;
  }

  lemma CutSafeParts(w: World)
    requires CutSafe(w)
    ensures Inv(w) && CutsOrdered(w.disk)
  {
    hide Inv, CutsOrdered;
  }

  lemma {:induction false} OnwardCuts(ws: seq<World>, vs: seq<World>, mode: Mode, i: nat)
    requires IsRun(vs, mode) && Onward(ws, vs) && |ws| > 0 && |ws| - 1 <= i < |vs| && CutSafe(End(ws))
    ensures CutSafe(vs[i])
  {
    hide NextStep, CutSafe, Ahead;
    if i > |ws| - 1 {
      OnwardCuts(ws, vs, mode, i - 1);
      assert Next(vs[i - 1], vs[i - 1 + 1], mode);
      var s :| NextStep(vs[i - 1], vs[i], s, mode);
      assert vs[i - 1].proc.Down? ==> vs[i - 1 + 1].proc.Down?;
      StepCuts(vs[i - 1], vs[i], s, mode);
    }
  }

  lemma NotAheadBreaks(ws: seq<World>, mode: Mode) returns (vs: seq<World>)
    requires IsRun(ws, mode) && HasRoom(End(ws)) && End(ws).proc.pc.Idle?
    requires !Ahead(End(ws).disk, End(ws).proc.mem.ids, End(ws).proc.mem.next)
    ensures IsRun(vs, mode) && Onward(ws, vs) && !CutOrderKept(End(vs))
  {
    hide IsRun, CutOrderKept, MayHold, Onward, FileNumber, IdOf;
    var w := End(ws);
    var a, i: nat, r :| MayHold(w.disk, a, i, r)
      && !(FileNumber(a) < w.proc.mem.next && IdOf(r) <= w.proc.mem.ids)
      && !(FileNumber(a) == w.proc.mem.next && IdOf(r) <= w.proc.mem.ids + 1);
    vs := Breaks(ws, mode, a, i, r);
  }
}
