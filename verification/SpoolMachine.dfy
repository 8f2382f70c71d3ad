/**
 The durable store as a machine that can stop between any two primitive steps (spool.go, and
 its callers in relay.go and lease.go). One process at a time runs one operation at a time,
 as the store's mutex ensures; a process can be killed and the power can fail at any moment;
 any file operation can report an error.
 */
module SpoolMachine {
  import opened Text
  import opened Messages
  import opened Disks
  import opened SpoolCodec
  import opened Queues

  /** What a process holds: the queues, the id counter, and the next file number. */
  datatype Memory = Memory(q: map<string, Queue>, ids: nat, next: nat)

  /** Where the running operation stands. */
  datatype Pc =
    | Idle
    | Filling(rec: Record, tmp: string, ino: nat)     // the temporary file exists and is being written
    | Settled(rec: Record, tmp: string, ino: nat)     // its contents are fsynced
    | Renamed(rec: Record, name: string)              // it has its final name
    | Undoing(rec: Record, name: string)              // the directory fsync failed
    | Aborting(tmp: string)                           // an earlier step failed
    | Removing(key: string, before: seq<Message>, out: set<string>, gone: set<string>, rest: seq<string>)
      // the messages of `before` filed under `out` have left the queue; files `gone` are removed, `rest` are next

  datatype Process = Down | Up(mem: Memory, pc: Pc)

  /**
   `owed` maps the files of accepted messages, whose removal has not started, to their
   records: what the relay has promised. `submitted` is every record any `Put` was given.
   */
  datatype World =
    World(disk: Disk, home: Home, proc: Process, clock: Time, owed: map<string, Record>, submitted: set<Record>)

  /** The directory's own entry: absent, made but never fsynced by anyone, or on the disk for good. */
  datatype Home = Missing | Unsynced | Durable

  datatype Step =
    | FailBegin
    | BeginPut(rec: Record, tmp: string)
    | WriteChunk(chunk: string)
    | SyncContents
    | FailWrite
    | RenameFinal
    | SyncDirectory
    | FailSyncDirectory
    | CleanUp(ok: bool)
    | Drop(key: string, rest: seq<string>)
    | RemoveFile(ok: bool)
    | FinishDrop
    | Mark(marked: map<string, Queue>)
    | Tick(now: Time)
    | Kill
    | PowerCut(after: Disk)
    | LoseHome
    | SweepTemp(name: string)
    | Open(names: seq<string>)

  /** Which faults a run may contain. */
  datatype Mode = Mode(removalsFail: bool, powerFails: bool)

  // ---- Queues ----

  /** The messages whose files are not in `out`, in order. */
  function Without(msgs: seq<Message>, out: set<string>): seq<Message> {
    if msgs == [] then []
    else if msgs[0].file in out then Without(msgs[1..], out)
    else [msgs[0]] + Without(msgs[1..], out)
  }

  predicate HasFile(msgs: seq<Message>, f: string) {
    exists m :: m in msgs && m.file == f
  }

  predicate SameButLeases(a: seq<Message>, b: seq<Message>) {
    |a| == |b| && forall i :: 0 <= i < |a| ==> a[i].rec == b[i].rec && a[i].file == b[i].file
  }

  function Cleared(m: Message): Message {
    m.(lease := "", until := 0)
  }

  function ClearedAll(msgs: seq<Message>): (r: seq<Message>)
    ensures |r| == |msgs| && forall i :: 0 <= i < |r| ==> r[i] == Cleared(msgs[i])
  {
    seq(|msgs|, i requires 0 <= i < |msgs| => Cleared(msgs[i]))
  }

  // ---- Recovery ----

  /** A sorted listing of the message files in the directory. */
  ghost predicate Listing(d: Disk, names: seq<string>) {
    && (forall i, j :: 0 <= i < j < |names| ==> Less(names[i], names[j]))
    && (forall name: string :: name in names <==> name in d.dir && IsMessageFile(name))
  }

  /** The messages `load` reads from the named files, skipping those it cannot read. */
  function Loaded(d: Disk, names: seq<string>): seq<Message>
    requires WellFormed(d) && forall name :: name in names ==> name in d.dir
  {
    if names == [] then []
    else
      var found := Decode(DataAt(d, names[0]));
      (if found.Some? then [Message(found.value, names[0], "", 0)] else []) + Loaded(d, names[1..])
  }

  function DataAt(d: Disk, name: string): string
    requires WellFormed(d) && name in d.dir
  {
    assert Entry(d, name) in Possible(d, name);
    Data(d, name)
  }

  /** The files `load` moves aside. */
  function Quarantined(d: Disk, names: seq<string>): seq<string>
    requires WellFormed(d) && forall name :: name in names ==> name in d.dir
  {
    if names == [] then []
    else (if Decode(DataAt(d, names[0])).Some? then [] else [names[0]]) + Quarantined(d, names[1..])
  }

  function MoveAside(d: Disk, names: seq<string>): Disk
    decreases |names|
  {
    if names == [] then d
    else MoveAside(if names[0] in d.dir then Rename(d, names[0], names[0] + CORRUPT) else d, names[1..])
  }

  function HighestFile(msgs: seq<Message>): (n: nat)
    ensures forall m :: m in msgs && SpoolNumber(m.file).Some? ==> SpoolNumber(m.file).value <= n
    ensures n == 0 || exists m :: m in msgs && SpoolNumber(m.file) == Some(n)
  {
    if msgs == [] then 0
    else
      var rest := HighestFile(msgs[1..]);
      var n := SpoolNumber(msgs[0].file);
      if n.Some? && n.value > rest then n.value else rest
  }

  function HighestId(msgs: seq<Message>): (n: nat)
    ensures forall m :: m in msgs && MessageNumber(m.rec.id).Some? ==> MessageNumber(m.rec.id).value <= n
    ensures n == 0 || exists m :: m in msgs && MessageNumber(m.rec.id) == Some(n)
  {
    if msgs == [] then 0
    else
      var rest := HighestId(msgs[1..]);
      var n := MessageNumber(msgs[0].rec.id);
      if n.Some? && n.value > rest then n.value else rest
  }

  /** Appends each message to its route's queue, in order. */
  function Enqueue(q: map<string, Queue>, msgs: seq<Message>): map<string, seq<Message>>
    decreases |msgs|
  {
    if msgs == [] then q
    else
      var k := Key(msgs[0].rec.route);
      Enqueue(q[k := QueueAt(q, k) + [msgs[0]]], msgs[1..])
  }

  /** What `OpenSpool` puts in a fresh store. */
  function Recovered(msgs: seq<Message>): Memory {
    Memory(Enqueue(map[], msgs), HighestId(msgs), HighestFile(msgs) + 1)
  }

  /** What is loaded is every file that can be read, as it is read, unleased; the rest is moved aside. */
  lemma {:induction false} LoadedExactly(d: Disk, names: seq<string>)
    requires WellFormed(d) && forall name :: name in names ==> name in d.dir
    ensures forall m :: m in Loaded(d, names) <==>
              m.file in names && Decode(DataAt(d, m.file)) == Some(m.rec) && m.lease == "" && m.until == 0
    ensures forall name :: name in Quarantined(d, names) <==> name in names && Decode(DataAt(d, name)).None?
  {
    hide Decode;
    if names != [] {
      LoadedExactly(d, names[1..]);
    }
  }

  lemma EndsInG(name: string)
    ensures HasSuffix(name, EXT) ==> name[|name| - 1] == 'g'
  {
    if HasSuffix(name, EXT) {
      assert name[|name| - 4..][3] == 'g';
    }
  }

  /** Moving a file aside gives the same contents a name that is not read again. */
  lemma AsideExactly(d: Disk, name: string)
    requires name in d.dir
    ensures MoveAside(d, [name]).dir == (d.dir - {name})[name + ".corrupt" := d.dir[name]]
    ensures MoveAside(d, [name]).inodes == d.inodes && !IsMessageFile(name + ".corrupt")
  {
    var aside := name + CORRUPT;
    assert aside[|aside| - 1] == 't';
    EndsInG(aside);
    assert [name][1..] == [];
  }

  // ---- Steps ----

  /** Any record a `Put` can make: a valid route, whatever its bytes, and numbers that fit their fields. */
  predicate Storable(r: Record) {
    ValidRoute(r.route) && InRange(r) && MessageNumber(r.id).Some?
  }

  lemma NewRecordStorable(rec: Record, n: nat)
    requires ValidRoute(rec.route) && InRange(rec) && rec.id == MessageId(n) && n < UINT64_LIMIT
    ensures Storable(rec)
  {
  }

  /** No directory, no process, nothing promised. */
  const INIT := World(EMPTY, Missing, Down, 0, map[], {})

  /** A run begins with no spool directory, or with an empty one, there for good or just made. */
  predicate Starts(w: World) {
    w == INIT.(home := w.home)
  }

  /** What `os.MkdirAll` makes of the directory: nothing fsyncs the entry it creates. */
  function Made(h: Home): Home {
    if h.Missing? then Unsynced else h
  }

  /** A directory found after a power cut is on the disk. */
  function Found(h: Home): Home {
    if h.Missing? then Missing else Durable
  }

  function At(w: World, mem: Memory, pc: Pc, disk: Disk): World {
    w.(proc := Up(mem, pc), disk := disk)
  }

  ghost predicate NextStep(w: World, v: World, s: Step, mode: Mode) {
    match s
    case Tick(now) => w.clock <= now && v == w.(clock := now)
    case Kill => w.proc.Up? && v == w.(proc := Down)
    case PowerCut(after) =>
      mode.powerFails && AfterPowerCut(w.disk, after) && v == w.(disk := after, home := Found(w.home), proc := Down)
    case LoseHome =>
      && mode.powerFails && w.home.Unsynced?
      && v == w.(disk := Gone(w.disk), home := Missing, proc := Down, owed := map[])
    case SweepTemp(name) => w.proc.Down? && IsTemp(name) && v == w.(disk := Unlink(w.disk, name))
    case Open(names) =>
      && w.proc.Down? && WellFormed(w.disk) && Listing(w.disk, names)
      && v == At(w, Recovered(Loaded(w.disk, names)), Idle, MoveAside(w.disk, Quarantined(w.disk, names)))
                .(home := Made(w.home))
    case _ => w.proc.Up? && Work(w, v, w.proc.mem, w.proc.pc, s, mode)
  }

  /** The steps of a running process. */
  ghost predicate Work(w: World, v: World, mem: Memory, pc: Pc, s: Step, mode: Mode) {
    match s
    case FailBegin => pc.Idle? && v == At(w, mem.(ids := mem.ids + 1), Idle, w.disk)
    case BeginPut(rec, tmp) =>
      && pc.Idle? && Storable(rec) && rec.id == MessageId(mem.ids + 1) && rec.at == w.clock
      && IsTemp(tmp) && tmp !in w.disk.dir
      && v == At(w, mem.(ids := mem.ids + 1), Filling(rec, tmp, |w.disk.inodes|), Create(w.disk, tmp))
                .(submitted := w.submitted + {rec})
    case WriteChunk(chunk) =>
      && pc.Filling? && pc.ino < |w.disk.inodes|
      && w.disk.inodes[pc.ino].data + chunk <= Encode(pc.rec)
      && v == At(w, mem, pc, Append(w.disk, pc.ino, chunk))
    case SyncContents =>
      && pc.Filling? && pc.ino < |w.disk.inodes| && w.disk.inodes[pc.ino].data == Encode(pc.rec)
      && v == At(w, mem, Settled(pc.rec, pc.tmp, pc.ino), SyncFile(w.disk, pc.ino))
    case FailWrite => (pc.Filling? || pc.Settled?) && v == At(w, mem, Aborting(pc.tmp), w.disk)
    case RenameFinal =>
      && pc.Settled? && pc.tmp in w.disk.dir && mem.next < UINT64_LIMIT
      && var name := FileName(mem.next);
         v == At(w, mem.(next := mem.next + 1), Renamed(pc.rec, name), Rename(w.disk, pc.tmp, name))
    case SyncDirectory =>
      && pc.Renamed?
      && var k := Key(pc.rec.route);
         v == At(w, mem.(q := mem.q[k := QueueAt(mem.q, k) + [Message(pc.rec, pc.name, "", 0)]]), Idle, SyncDir(w.disk))
                .(owed := w.owed[pc.name := pc.rec])
    case FailSyncDirectory => pc.Renamed? && v == At(w, mem, Undoing(pc.rec, pc.name), w.disk)
    case CleanUp(ok) =>
      && (pc.Aborting? || pc.Undoing?) && (!ok ==> mode.removalsFail)
      && var name := if pc.Aborting? then pc.tmp else pc.name;
         v == At(w, mem, Idle, if ok then Unlink(w.disk, name) else w.disk)
    case Drop(key, rest) =>
      && pc.Idle?
      && var before := QueueAt(mem.q, key);
         var out := set f | f in rest;
         && Distinct(rest) && (forall f :: f in rest ==> HasFile(before, f))
         && v == At(w, mem.(q := SetQueue(mem.q, key, Without(before, out))), Removing(key, before, out, {}, rest),
           w.disk)
                   .(owed := w.owed - out)
    case RemoveFile(ok) =>
      && pc.Removing? && pc.rest != [] && (!ok ==> mode.removalsFail)
      && v == At(w, mem, pc.(gone := if ok then pc.gone + {pc.rest[0]} else pc.gone, rest := pc.rest[1..]),
                 if ok then Unlink(w.disk, pc.rest[0]) else w.disk)
    case FinishDrop => pc.Removing? && pc.rest == [] && v == At(w, mem, Idle, w.disk)
    case Mark(marked) =>
      && pc.Idle? && marked.Keys == mem.q.Keys
      && (forall k :: k in marked ==> SameButLeases(mem.q[k], marked[k]))
      && v == At(w, mem.(q := marked), Idle, w.disk)
    case _ => false
  }

  ghost predicate Next(w: World, v: World, mode: Mode) {
    exists s :: NextStep(w, v, s, mode)
  }

  /** A run: any sequence of steps from an empty disk with no process. */
  ghost predicate IsRun(ws: seq<World>, mode: Mode) {
    |ws| > 0 && Starts(ws[0]) && forall i :: 0 <= i < |ws| - 1 ==> Next(ws[i], ws[i + 1], mode)
  }
}
