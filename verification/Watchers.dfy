/**
 Polls held open under leases, and how revoking an estate ends them (authlease.go). The locked
 sections and the single sends are the atomic steps; other goroutines run between any two.
 */
module Watchers {
  import opened Text
  import opened Authorities

  const NUL: char := 0 as char

  // ---- Keys ----

  datatype Poll = Poll(estate: string, station: string, dir: string)

  function WatchKey(p: Poll): string {
    p.estate + [NUL] + p.station + [NUL] + p.dir
  }

  /** The keys a revocation of `estate` ends. */
  predicate Matches(k: string, estate: string) {
    HasPrefix(k, estate + [NUL])
  }

  /**
   A revocation matches the polls of its own estate, those of an estate that continues its name
   after a NUL, and those whose estate it continues, NUL by NUL, into the rest of their key.
   */
  lemma MatchesExactly(p: Poll, revoked: string)
    ensures Matches(WatchKey(p), revoked) <==>
              || p.estate == revoked
              || HasPrefix(p.estate, revoked + [NUL])
              || (&& HasPrefix(revoked, p.estate + [NUL])
                  && HasPrefix(p.station + [NUL] + p.dir, revoked[|p.estate| + 1..] + [NUL]))
  {
    var k, e, rest := WatchKey(p), p.estate + [NUL], p.station + [NUL] + p.dir;
    var r := revoked + [NUL];
    assert k == e + rest;
    if |revoked| < |p.estate| {
      assert k[..|r|] == p.estate[..|r|];
    } else if |revoked| == |p.estate| {
      assert k[..|r|] == e;
      assert r[..|revoked|] == revoked && e[..|revoked|] == p.estate;
    } else {
      var tail := revoked[|p.estate| + 1..] + [NUL];
      if HasPrefix(revoked, e) {
        assert r == e + tail;
        assert |r| <= |k| ==> k[..|r|] == e + rest[..|tail|];
        assert |r| <= |k| ==> (e + rest[..|tail|])[|e|..] == rest[..|tail|] && (e + tail)[|e|..] == tail;
      } else {
        assert |r| <= |k| ==> k[..|r|][..|e|] == e && r[..|e|] == revoked[..|e|];
      }
    }
  }

  /** With NUL-free names a revocation matches exactly the polls of its own estate. */
  lemma MatchesOwnEstate(p: Poll, revoked: string)
    requires NUL !in p.estate && NUL !in revoked
    ensures Matches(WatchKey(p), revoked) <==> p.estate == revoked
  {
    hide HasPrefix;
    MatchesExactly(p, revoked);
    PrefixHasNul(p.estate, revoked);
    PrefixHasNul(revoked, p.estate);
  }

  lemma PrefixHasNul(a: string, b: string)
    ensures HasPrefix(a, b + [NUL]) ==> NUL in a
  {
    if HasPrefix(a, b + [NUL]) {
      assert a[|b|] == (b + [NUL])[|b|];
    }
  }

  /** A NUL inside a name breaks that: revoking one estate ends another's polls. */
  lemma NulMatchesAnotherEstate(dir: string)
    ensures var p, revoked := Poll("a", "b", dir), "a" + [NUL] + "b";
            Matches(WatchKey(p), revoked) && p.estate != revoked
  {
    var k := WatchKey(Poll("a", "b", dir));
    assert k[..4] == "a" + [NUL] + "b" + [NUL];
    assert |"a"| != |"a" + [NUL] + "b"|;
  }

  // ---- State ----

  /** A reason put into a channel, and the revocation that put it there if one did. */
  datatype Notice = Notice(why: Reason, call: Option<nat>)

  /** A poll's channel: one slot, and everything the slot has ever held. */
  datatype Channel = Channel(poll: Poll, slot: Option<Reason>, heard: seq<Notice>)

  /** A send that does not wait: it is lost when the slot is taken. */
  function Offered(c: Channel, n: Notice): Channel {
    if c.slot.Some? then c else c.(slot := Some(n.why), heard := c.heard + [n])
  }

  /** A call of `Revoke` past its locked section: the channels it collected, and how many it has sent to. */
  datatype Call = Call(estate: string, ending: seq<nat>, sent: nat)

  /** Channels are known by their number in `channels`. */
  datatype State = State(floors: Floors, watchers: map<string, seq<nat>>, channels: seq<Channel>, calls: seq<Call>)

  const START := State(map[], map[], [], [])

  datatype Step =
    | Register(poll: Poll)                                      // the registering half of `Watch`
    | Detach(estate: string, epoch: int, ending: seq<nat>)      // the locked half of `Revoke`
    | Send(call: nat)                                           // one send of the loop after it
    | Fire(channel: nat)                                        // a poll's timer
    | CleanUp(channel: nat)                                     // the end of `Watch`'s goroutine
    | Receive(channel: nat)                                     // the server takes the reason

  function ListAt(watchers: map<string, seq<nat>>, k: string): seq<nat> {
    if k in watchers then watchers[k] else []
  }

  /** The entries a revocation leaves. */
  function Others(watchers: map<string, seq<nat>>, estate: string): map<string, seq<nat>> {
    map k | k in watchers && !Matches(k, estate) :: watchers[k]
  }

  /** The channel is in an entry that a revocation takes. */
  predicate Taken(watchers: map<string, seq<nat>>, estate: string, h: nat) {
    exists k :: k in watchers && Matches(k, estate) && h in watchers[k]
  }

  /** `ending` is the channels of the entries a revocation takes, in some order. */
  ghost predicate Collects(watchers: map<string, seq<nat>>, estate: string, ending: seq<nat>) {
    forall h :: h in ending <==> Taken(watchers, estate, h)
  }

  /** A list without the first occurrence of a channel. */
  function Removed(held: seq<nat>, h: nat): seq<nat> {
    if held == [] then [] else if held[0] == h then held[1..] else [held[0]] + Removed(held[1..], h)
  }

  function Cleaned(watchers: map<string, seq<nat>>, k: string, h: nat): map<string, seq<nat>> {
    var rest := Removed(ListAt(watchers, k), h);
    if rest == [] then watchers - {k} else watchers[k := rest]
  }

  ghost predicate NextStep(w: State, v: State, s: Step) {
    match s
    case Register(p) =>
      var k, h := WatchKey(p), |w.channels|;
      v == w.(watchers := w.watchers[k := ListAt(w.watchers, k) + [h]], channels := w.channels + [Channel(p, None, [])])
    case Detach(estate, epoch, ending) =>
      && Collects(w.watchers, estate, ending)
      && v == w.(floors := Raise(w.floors, estate, epoch), watchers := Others(w.watchers, estate),
                 calls := w.calls + [Call(estate, ending, 0)])
    case Send(c) =>
      && c < |w.calls| && w.calls[c].sent < |w.calls[c].ending|
      && var h := w.calls[c].ending[w.calls[c].sent];
         && h < |w.channels|
         && v == w.(channels := w.channels[h := Offered(w.channels[h], Notice(Revoked, Some(c)))],
                    calls := w.calls[c := w.calls[c].(sent := w.calls[c].sent + 1)])
    case Fire(h) =>
      h < |w.channels| && v == w.(channels := w.channels[h := Offered(w.channels[h], Notice(Expired, None))])
    case CleanUp(h) =>
      h < |w.channels| && v == w.(watchers := Cleaned(w.watchers, WatchKey(w.channels[h].poll), h))
    case Receive(h) =>
      h < |w.channels| && v == w.(channels := w.channels[h := w.channels[h].(slot := None)])
  }

  ghost predicate Next(w: State, v: State) {
    exists s :: NextStep(w, v, s)
  }

  /** Any interleaving of registrations, revocations, sends, timers, clean-ups and receipts. */
  ghost predicate IsRun(ws: seq<State>) {
    |ws| > 0 && ws[0] == START && forall i :: 0 <= i < |ws| - 1 ==> Next(ws[i], ws[i + 1])
  }

  // ---- Invariant ----

  /** The map lists each channel at most once, under its own key, and keeps no empty entry. */
  predicate Kept(w: State) {
    forall k :: k in w.watchers ==>
      && w.watchers[k] != [] && Distinct(w.watchers[k])
      && forall h :: h in w.watchers[k] ==> h < |w.channels| && WatchKey(w.channels[h].poll) == k
  }

  /** A call sends to channels that exist, and each it has sent to has had a reason. */
  predicate CallOk(w: State, c: Call) {
    && c.sent <= |c.ending|
    && (forall h :: h in c.ending ==> h < |w.channels|)
    && (forall i :: 0 <= i < c.sent && c.ending[i] < |w.channels| ==> w.channels[c.ending[i]].heard != [])
  }

  /** A full slot holds something heard, and what a call put there was its to send. */
  predicate ChannelOk(w: State, h: nat)
    requires h < |w.channels|
  {
    && (w.channels[h].slot.Some? ==> w.channels[h].heard != [])
    && (forall n :: n in w.channels[h].heard && n.call.Some? ==>
          n.why == Revoked && n.call.value < |w.calls| && h in w.calls[n.call.value].ending)
  }

  predicate Inv(w: State) {
    && Kept(w)
    && (forall c :: 0 <= c < |w.calls| ==> CallOk(w, w.calls[c]))
    && (forall h :: 0 <= h < |w.channels| ==> ChannelOk(w, h))
  }

  lemma {:induction false} RemovedMembers(held: seq<nat>, h: nat)
    requires Distinct(held)
    ensures forall x :: x in Removed(held, h) <==> x in held && x != h
    ensures Distinct(Removed(held, h))
  {
    if held != [] {
      RemovedMembers(held[1..], h);
      assert forall x :: x in held <==> x == held[0] || x in held[1..];
      assert forall i :: 1 <= i < |held| ==> held[0] != held[i];
      assert held[0] !in held[1..];
      var rest := Removed(held[1..], h);
      assert held[0] !in rest;
      assert forall i :: 0 <= i < |rest| ==> rest[i] in rest;
    }
  }

  lemma CleanedKeeps(w: State, k: string, h: nat)
    requires Kept(w)
    ensures Kept(w.(watchers := Cleaned(w.watchers, k, h)))
  {
    hide WatchKey, Removed;
    if k in w.watchers {
      RemovedMembers(w.watchers[k], h);
    } else {
      assert Removed([], h) == [] by { RemovedMembers([], h); NothingRemoved(h); }
    }
  }

  lemma NothingRemoved(h: nat)
    ensures Removed([], h) == []
  {
  }

  /** A send reaches a channel that has now had a reason. */
  lemma SendKeeps(w: State, v: State, c: nat)
    requires Inv(w) && NextStep(w, v, Send(c))
    ensures Inv(v)
  {
    hide WatchKey, Distinct;
    var h := w.calls[c].ending[w.calls[c].sent];
    assert h in w.calls[c].ending && ChannelOk(w, h);
    assert v.channels[h].heard != [];
    assert forall x :: 0 <= x < |w.channels| ==> w.channels[x].heard <= v.channels[x].heard;
    assert forall d :: 0 <= d < |w.calls| ==> v.calls[d].ending == w.calls[d].ending;
    forall d | 0 <= d < |v.calls| ensures CallOk(v, v.calls[d]) { assert CallOk(w, w.calls[d]); }
    forall x | 0 <= x < |v.channels| ensures ChannelOk(v, x) { assert ChannelOk(w, x); }
  }

  /** Steps that only add to, or drain, channels. */
  lemma ChannelKeeps(w: State, v: State, s: Step)
    requires Inv(w) && NextStep(w, v, s) && (s.Fire? || s.Receive?)
    ensures Inv(v)
  {
    hide WatchKey, Distinct;
    forall d | 0 <= d < |v.calls| ensures CallOk(v, v.calls[d]) { assert CallOk(w, w.calls[d]); }
    forall x | 0 <= x < |v.channels| ensures ChannelOk(v, x) { assert ChannelOk(w, x); }
  }

  lemma RegisterKeeps(w: State, v: State, p: Poll)
    requires Inv(w) && NextStep(w, v, Register(p))
    ensures Inv(v)
  {
    hide WatchKey;
    var h := |w.channels|;
    assert forall x :: 0 <= x < h ==> v.channels[x] == w.channels[x];
    forall d | 0 <= d < |v.calls| ensures CallOk(v, v.calls[d]) {
      var e := w.calls[d].ending;
      assert CallOk(w, w.calls[d]) && forall i :: 0 <= i < |e| ==> e[i] in e;
    }
    forall x | 0 <= x < |v.channels| ensures ChannelOk(v, x) { if x < h { assert ChannelOk(w, x); } }
    forall k | k in v.watchers
      ensures v.watchers[k] != [] && Distinct(v.watchers[k])
      ensures forall x :: x in v.watchers[k] ==> x < |v.channels| && WatchKey(v.channels[x].poll) == k
    {
      var before := ListAt(w.watchers, k);
      assert forall x :: x in before ==> x < h;
      assert forall i :: 0 <= i < |before| ==> before[i] in before;
    }
  }

  lemma DetachKeeps(w: State, v: State, s: Step)
    requires Inv(w) && NextStep(w, v, s) && s.Detach?
    ensures Inv(v)
  {
    hide WatchKey, Distinct, Matches;
    assert Collects(w.watchers, s.estate, s.ending);
    forall d | 0 <= d < |v.calls| ensures CallOk(v, v.calls[d]) {
      if d < |w.calls| { assert CallOk(w, w.calls[d]); }
    }
    forall x | 0 <= x < |v.channels| ensures ChannelOk(v, x) { assert ChannelOk(w, x); }
  }

  lemma StepKeeps(w: State, v: State, s: Step)
    requires Inv(w) && NextStep(w, v, s)
    ensures Inv(v)
  {
    hide Inv, WatchKey, Matches, Collects;
    match s
    case Register(p) => RegisterKeeps(w, v, p);
    case Detach(_, _, _) => DetachKeeps(w, v, s);
    case Send(c) => SendKeeps(w, v, c);
    case Fire(_) => ChannelKeeps(w, v, s);
    case Receive(_) => ChannelKeeps(w, v, s);
    case CleanUp(h) => CleanUpKeeps(w, v, h);
  }

  lemma CleanUpKeeps(w: State, v: State, h: nat)
    requires Inv(w) && NextStep(w, v, CleanUp(h))
    ensures Inv(v)
  {
    hide WatchKey, Kept, Cleaned;
    CleanedKeeps(w, WatchKey(w.channels[h].poll), h);
    forall d | 0 <= d < |v.calls| ensures CallOk(v, v.calls[d]) { assert CallOk(w, w.calls[d]); }
    forall x | 0 <= x < |v.channels| ensures ChannelOk(v, x) { assert ChannelOk(w, x); }
  }

  /** In every interleaving the map lists each channel once, under its own key, with no empty entry left. */
  lemma {:induction false} RunKeeps(ws: seq<State>, i: nat)
    requires IsRun(ws) && i < |ws|
    ensures Inv(ws[i])
  {
    hide NextStep;
    if i > 0 {
      RunKeeps(ws, i - 1);
      assert Next(ws[i - 1], ws[i - 1 + 1]);
      var s :| NextStep(ws[i - 1], ws[i], s);
      StepKeeps(ws[i - 1], ws[i], s);
    }
  }

  // ---- Revocation reaches the polls ----

  /** Calls keep what they collected and channels their poll, whatever runs in between. */
  lemma {:induction false} Lasting(ws: seq<State>, i: nat, j: nat)
    requires IsRun(ws) && i <= j < |ws|
    ensures |ws[i].calls| <= |ws[j].calls| && |ws[i].channels| <= |ws[j].channels|
    ensures forall c :: 0 <= c < |ws[i].calls| ==> ws[j].calls[c].ending == ws[i].calls[c].ending
    ensures forall h :: 0 <= h < |ws[i].channels| ==> ws[j].channels[h].poll == ws[i].channels[h].poll
  {
    hide Collects, WatchKey, Others, Cleaned, Raise;
    if i < j {
      Lasting(ws, i, j - 1);
      assert Next(ws[j - 1], ws[j - 1 + 1]);
    }
  }

  predicate Registered(w: State, h: nat) {
    exists k :: k in w.watchers && h in w.watchers[k]
  }

  predicate RegisteredFor(w: State, h: nat, estate: string)
    requires h < |w.channels|
  {
    Registered(w, h) && w.channels[h].poll.estate == estate
  }

  /**
   Over every interleaving: once a call of `Revoke` has made its last send, every poll that was
   registered for its estate when it took the lock has had a reason in its slot; and a reason
   that this call put anywhere went to a poll registered at that moment whose key it matches,
   which for NUL-free names is a poll of that estate.
   */
  lemma RevocationReachesItsPolls(ws: seq<State>, i: nat, j: nat, estate: string, epoch: int, ending: seq<nat>)
    requires IsRun(ws) && i < j < |ws| && NextStep(ws[i], ws[i + 1], Detach(estate, epoch, ending))
    ensures var c := |ws[i].calls|;
            && c < |ws[j].calls| && |ws[i].channels| <= |ws[j].channels|
            && (ws[j].calls[c].sent == |ending| ==>
                  forall h: nat :: h < |ws[i].channels| && RegisteredFor(ws[i], h, estate) ==>
                    ws[j].channels[h].heard != [])
            && forall h, n :: 0 <= h < |ws[j].channels| && n in ws[j].channels[h].heard && n.call == Some(c) ==>
                 && h < |ws[i].channels| && Registered(ws[i], h) && Matches(WatchKey(ws[i].channels[h].poll), estate)
                 && n.why == Revoked
                 && (NUL !in estate && NUL !in ws[i].channels[h].poll.estate ==> RegisteredFor(ws[i], h, estate))
  {
    hide WatchKey, Matches, Raise, Others, IsRun, Distinct;
    var c := |ws[i].calls|;
    RunKeeps(ws, i);
    RunKeeps(ws, j);
    Lasting(ws, i, i + 1);
    Lasting(ws, i + 1, j);
    assert ws[j].calls[c].ending == ending && CallOk(ws[j], ws[j].calls[c]);
    if ws[j].calls[c].sent == |ending| {
      forall h: nat | h < |ws[i].channels| && RegisteredFor(ws[i], h, estate)
        ensures ws[j].channels[h].heard != []
      {
        var k :| k in ws[i].watchers && h in ws[i].watchers[k];
        assert Matches(k, estate) by { MatchesExactly(ws[i].channels[h].poll, estate); }
        assert h in ending;
        var p :| 0 <= p < |ending| && ending[p] == h;
      }
    }
    forall h, n | 0 <= h < |ws[j].channels| && n in ws[j].channels[h].heard && n.call == Some(c)
      ensures h < |ws[i].channels| && Registered(ws[i], h) && Matches(WatchKey(ws[i].channels[h].poll), estate)
      ensures n.why == Revoked
      ensures NUL !in estate && NUL !in ws[i].channels[h].poll.estate ==> RegisteredFor(ws[i], h, estate)
    {
      assert ChannelOk(ws[j], h) && h in ending;
      var k :| k in ws[i].watchers && Matches(k, estate) && h in ws[i].watchers[k];
      if NUL !in estate && NUL !in ws[i].channels[h].poll.estate {
        MatchesOwnEstate(ws[i].channels[h].poll, estate);
      }
    }
  }

  /**
   Only its own clean-up, or a revocation that matches its key, takes a channel off the map; and
   registering puts a new one there.
   */
  lemma StaysRegistered(w: State, v: State, s: Step, h: nat)
    requires Inv(w) && NextStep(w, v, s) && h < |w.channels|
    ensures Registered(v, h) <==>
              && Registered(w, h) && s != CleanUp(h)
              && !(s.Detach? && Matches(WatchKey(w.channels[h].poll), s.estate))
    ensures s.Register? ==> Registered(v, |w.channels|) && v.channels[|w.channels|] == Channel(s.poll, None, [])
  {
    hide WatchKey, Matches, Removed, Distinct, Collects;
    match s
    case Register(p) =>
      var k := WatchKey(p);
      assert v.watchers[k] == ListAt(w.watchers, k) + [|w.channels|];
      assert |w.channels| in v.watchers[k];
      forall j | j in w.watchers ensures forall x :: x in w.watchers[j] ==> x in v.watchers[j] { }
    case CleanUp(x) => CleanUpLeaves(w, v, x, h);
    case Detach(estate, _, _) =>
      if Registered(w, h) {
        var k :| k in w.watchers && h in w.watchers[k];
        assert WatchKey(w.channels[h].poll) == k;
        assert !Matches(k, estate) ==> k in v.watchers;
      }
    case _ =>
  }

  lemma CleanUpLeaves(w: State, v: State, x: nat, h: nat)
    requires Inv(w) && NextStep(w, v, CleanUp(x)) && h < |w.channels|
    ensures Registered(v, h) <==> Registered(w, h) && h != x
  {
    hide WatchKey, Removed;
    var k := WatchKey(w.channels[x].poll);
    var rest := Removed(ListAt(w.watchers, k), x);
    RemovedMembers(ListAt(w.watchers, k), x);
    if Registered(w, h) && h != x {
      var j :| j in w.watchers && h in w.watchers[j];
      if j == k { assert h in rest; }
      assert j in v.watchers && h in v.watchers[j];
    }
    if Registered(v, h) {
      var j :| j in v.watchers && h in v.watchers[j];
      assert j == k ==> h in rest;
    }
  }

  /** What a send, a timer and a receipt do to the one slot of a channel. */
  lemma SlotExactly(w: State, v: State, s: Step, h: nat)
    requires NextStep(w, v, s) && h < |w.channels|
    ensures h < |v.channels| && v.channels[h].poll == w.channels[h].poll
    ensures v.channels[h].slot ==
              if s == Receive(h) then None
              else if w.channels[h].slot.Some? then w.channels[h].slot
              else if s == Fire(h) then Some(Expired)
              else if s.Send? && w.calls[s.call].ending[w.calls[s.call].sent] == h then Some(Revoked)
              else None
  {
    hide WatchKey, Matches, Removed, Collects;
  }

  // ---- The code ----

  /** The lists and channels as the code updates them, one method for each atomic step. */
  class Sessions {
    var floors: Floors
    var watchers: map<string, seq<nat>>
    var channels: seq<Channel>
    var calls: seq<Call>

    ghost function View(): State
      reads this
    {
      State(floors, watchers, channels, calls)
    }

    constructor ()
      ensures View() == START && Inv(View())
    {
      floors, watchers, channels, calls := map[], map[], [], [];
    }

    /** The registering half of `Watch`, after its check has allowed the poll. */
    method Register(poll: Poll) returns (h: nat)
      modifies this
      ensures NextStep(old(View()), View(), Step.Register(poll)) && h == old(|channels|)
    {
      var k := WatchKey(poll);
      h := |channels|;
      channels := channels + [Channel(poll, None, [])];
      watchers := watchers[k := (if k in watchers then watchers[k] else []) + [h]];
    }

    /** The locked half of `Revoke`: raises the floor and takes the estate's polls off the map. */
    method Detach(estate: string, epoch: int) returns (c: nat)
      modifies this
      ensures c == old(|calls|) < |calls|
      ensures NextStep(old(View()), View(), Step.Detach(estate, epoch, calls[c].ending))
    {
      hide Matches;
      if epoch > Floor(floors, estate) {
        floors := floors[estate := epoch];
      }
      var ending := [];
      var todo := watchers.Keys;
      ghost var all := watchers;
      while todo != {}
        invariant todo <= watchers.Keys && watchers.Keys <= all.Keys && floors == Raise(old(floors), estate, epoch)
        invariant channels == old(channels) && calls == old(calls)
        invariant forall k :: k in all && (k in todo || !Matches(k, estate)) ==> k in watchers
        invariant forall k :: k in watchers ==> watchers[k] == all[k] && (k in todo || !Matches(k, estate))
        invariant forall h :: h in ending <==> exists k :: k in all && k !in todo && Matches(k, estate) && h in all[k]
      {
        var k :| k in todo;
        ghost var was := ending;
        todo := todo - {k};
        if Matches(k, estate) {
          ending := ending + watchers[k];
          watchers := watchers - {k};
          assert forall h :: h in ending <==> h in was || h in all[k];
        }
      }
      c := |calls|;
      calls := calls + [Call(estate, ending, 0)];
    }

    /** One send of the loop that follows. */
    method Send(c: nat)
      requires Inv(View()) && c < |calls| && calls[c].sent < |calls[c].ending|
      modifies this`channels, this`calls
      ensures NextStep(old(View()), View(), Step.Send(c)) && Inv(View())
    {
      var h := calls[c].ending[calls[c].sent];
      assert h in calls[c].ending;
      Offer(h, Notice(Revoked, Some(c)));
      calls := calls[c := calls[c].(sent := calls[c].sent + 1)];
      SendKeeps(old(View()), View(), c);
    }

    method Offer(h: nat, n: Notice)
      requires h < |channels|
      modifies this`channels
      ensures channels == old(channels)[h := Offered(old(channels)[h], n)]
    {
      if channels[h].slot.None? {
        channels := channels[h := channels[h].(slot := Some(n.why), heard := channels[h].heard + [n])];
      }
    }

    /** `Revoke` when nothing else runs: the locked half, then a send to each channel it collected. */
    method Revoke(estate: string, epoch: int)
      requires Inv(View())
      modifies this
      ensures Inv(View()) && floors == Raise(old(floors), estate, epoch) && watchers == Others(old(watchers), estate)
      ensures |channels| == old(|channels|)
      ensures forall k, h :: k in old(watchers) && h in old(watchers)[k] && Matches(k, estate) && h < |channels| ==>
                channels[h].heard != []
      ensures forall h :: 0 <= h < |channels| && !Taken(old(watchers), estate, h) ==> channels[h] == old(channels)[h]
    {
      hide Matches, WatchKey, Distinct;
      var c := Detach(estate, epoch);
      DetachKeeps(old(View()), View(), Step.Detach(estate, epoch, calls[c].ending));
      ghost var ending, f, m := calls[c].ending, floors, watchers;
      while calls[c].sent < |calls[c].ending|
        invariant Inv(View()) && c < |calls| && calls[c].ending == ending && floors == f && watchers == m
        invariant |channels| == old(|channels|)
        invariant forall h :: 0 <= h < |channels| && h !in ending ==> channels[h] == old(channels)[h]
        decreases |ending| - calls[c].sent
      {
        Send(c);
      }
      assert CallOk(View(), calls[c]);
      forall k, h | k in old(watchers) && h in old(watchers)[k] && Matches(k, estate) && h < |channels|
        ensures channels[h].heard != []
      {
        assert h in ending;
        var p :| 0 <= p < |ending| && ending[p] == h;
      }
    }

    /** The timer of `Watch` firing. */
    method Fire(h: nat)
      requires h < |channels|
      modifies this`channels
      ensures NextStep(old(View()), View(), Step.Fire(h))
    {
      Offer(h, Notice(Expired, None));
    }

    /** The end of `Watch`'s goroutine: this poll's channel leaves the map, if it is still there. */
    method CleanUp(h: nat)
      requires h < |channels|
      modifies this`watchers
      ensures NextStep(old(View()), View(), Step.CleanUp(h))
    {
      hide WatchKey, Removed;
      var k := WatchKey(channels[h].poll);
      var held := if k in watchers then watchers[k] else [];
      var i := 0;
      while i < |held| && held[i] != h
        invariant 0 <= i <= |held| && h !in held[..i]
      {
        assert held[..i + 1] == held[..i] + [held[i]];
        i := i + 1;
      }
      RemovedAt(held, h, i);
      if i < |held| {
        watchers := watchers[k := held[..i] + held[i + 1..]];
      }
      if k !in watchers || |watchers[k]| == 0 {
        watchers := watchers - {k};
      }
    }
  }

  lemma {:induction false} RemovedAt(held: seq<nat>, h: nat, i: nat)
    requires i <= |held| && h !in held[..i] && (i < |held| ==> held[i] == h)
    ensures Removed(held, h) == if i < |held| then held[..i] + held[i + 1..] else held
  {
    if i > 0 {
      assert held[..i][0] == held[0] && held[..i][1..] == held[1..][..i - 1];
      RemovedAt(held[1..], h, i - 1);
      assert i < |held| ==> held[..i] + held[i + 1..] == [held[0]] + (held[1..][..i - 1] + held[1..][i..]);
    }
  }
}
