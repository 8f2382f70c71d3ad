/**
 A directory on a disk that can lose power. Contents that were never fsynced may come back
 as anything; a directory change that was never fsynced may or may not have happened, each
 name independently of the others.
 */
module Disks {
  import opened Text

  datatype Inode = Inode(data: string, synced: bool)

  /**
   `dir` is what the running system sees. `older` remembers, for each name changed since the
   directory was last fsynced, the values it has had: a power cut may bring any of them back.
   */
  datatype Disk = Disk(inodes: seq<Inode>, dir: map<string, nat>, older: map<string, set<Option<nat>>>)

  const EMPTY := Disk([], map[], map[])

  function Entry(d: Disk, name: string): Option<nat> {
    if name in d.dir then Some(d.dir[name]) else None
  }

  /** Every value a power cut may leave under `name`. */
  function Possible(d: Disk, name: string): set<Option<nat>> {
    (if name in d.older then d.older[name] else {}) + {Entry(d, name)}
  }

  ghost predicate WellFormed(d: Disk) {
    forall name: string, v :: v in Possible(d, name) && v.Some? ==> v.value < |d.inodes|
  }

  function Data(d: Disk, name: string): string
    requires name in d.dir && d.dir[name] < |d.inodes|
  {
    d.inodes[d.dir[name]].data
  }

  // ---- Primitive steps ----

  function Create(d: Disk, name: string): Disk {
    Disk(d.inodes + [Inode("", false)], d.dir[name := |d.inodes|], d.older[name := Possible(d, name)])
  }

  function Append(d: Disk, i: nat, bytes: string): Disk
    requires i < |d.inodes|
  {
    d.(inodes := d.inodes[i := Inode(d.inodes[i].data + bytes, false)])
  }

  function SyncFile(d: Disk, i: nat): Disk
    requires i < |d.inodes|
  {
    d.(inodes := d.inodes[i := d.inodes[i].(synced := true)])
  }

  function Unlink(d: Disk, name: string): Disk {
    if name in d.dir then Disk(d.inodes, d.dir - {name}, d.older[name := Possible(d, name)]) else d
  }

  function Rename(d: Disk, from: string, to: string): Disk
    requires from in d.dir
  {
    Disk(d.inodes, (d.dir - {from})[to := d.dir[from]],
         d.older[from := Possible(d, from)][to := Possible(d, to)])
  }

  function SyncDir(d: Disk): Disk {
    d.(older := map[])
  }

  /** What is left of a directory whose own entry was lost: nothing. */
  function Gone(d: Disk): Disk {
    Disk(d.inodes, map[], map[])
  }

  /** `e` is a disk that may be found after the power fails over `d`, the directory itself surviving. */
  ghost predicate AfterPowerCut(d: Disk, e: Disk) {
    && |e.inodes| == |d.inodes|
    && (forall i :: 0 <= i < |d.inodes| && d.inodes[i].synced ==> e.inodes[i] == d.inodes[i])
    && e.older == map[]
    && (forall name: string :: Entry(e, name) in Possible(d, name))
  }

  // ---- What each fsync is for ----

  /** Bytes that were appended and not fsynced may come back as anything; once fsynced they come back as they are. */
  lemma ContentsNeedSync(d: Disk, i: nat, bytes: string, garbage: string)
    requires i < |d.inodes|
    ensures var a := Append(d, i, bytes);
            && (exists e :: AfterPowerCut(a, e) && e.inodes[i].data == garbage)
            && forall e :: AfterPowerCut(SyncFile(a, i), e) ==> e.inodes[i].data == d.inodes[i].data + bytes
  {
    var a := Append(d, i, bytes);
    var e := Disk(a.inodes[i := Inode(garbage, true)], a.dir, map[]);
    assert AfterPowerCut(a, e) && e.inodes[i].data == garbage;
  }

  /** So may a file that was only created. */
  lemma NewFileNeedsSync(d: Disk, name: string, garbage: string)
    ensures var a := Create(d, name);
            exists e :: AfterPowerCut(a, e) && name in e.dir && e.dir[name] == |d.inodes|
                        && e.inodes[|d.inodes|].data == garbage
  {
    var a := Create(d, name);
    var e := Disk(a.inodes[|d.inodes| := Inode(garbage, true)], a.dir, map[]);
    assert AfterPowerCut(a, e);
  }

  /** A rename or an unlink that was not fsynced may be undone; once the directory is fsynced it is not. */
  lemma EntriesNeedSync(d: Disk, from: string, to: string)
    requires from in d.dir && from != to
    ensures exists e :: AfterPowerCut(Rename(d, from, to), e)
                        && Entry(e, from) == Entry(d, from) && Entry(e, to) == Entry(d, to)
    ensures exists e :: AfterPowerCut(Unlink(d, from), e) && Entry(e, from) == Entry(d, from)
    ensures forall e :: AfterPowerCut(SyncDir(Rename(d, from, to)), e) ==>
              Entry(e, from) == None && Entry(e, to) == Entry(d, from)
    ensures forall e :: AfterPowerCut(SyncDir(Unlink(d, from)), e) ==> Entry(e, from) == None
  {
    var e := Disk(d.inodes, d.dir, map[]);
    assert AfterPowerCut(Rename(d, from, to), e);
    assert AfterPowerCut(Unlink(d, from), e);
  }
}
