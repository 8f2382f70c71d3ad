/** Routes, messages, and the names the relay gives messages and leases (relay.go, lease.go). */
module Messages {
  import opened Text

  /** A moment, in nanoseconds. */
  type Time = int

  datatype Route = Route(estate: string, station: string, dir: string)

  predicate ValidDir(dir: string) {
    dir == "c2s" || dir == "s2c"
  }

  predicate ValidRoute(r: Route) {
    r.estate != "" && r.station != "" && ValidDir(r.dir)
  }

  /** The map key of a route's queue. */
  function Key(r: Route): string {
    r.estate + "/" + r.station + "/" + r.dir
  }

  /** The exported fields of a message: what is delivered, and what is written to disk. */
  datatype Record = Record(id: string, route: Route, seqno: nat, body: string, at: Time)

  /** A queued message: its record, its durable file ("" for none), and who holds it ("" for nobody). */
  datatype Message = Message(rec: Record, file: string, lease: string, until: Time)

  // ---- Names ----

  function MessageId(n: nat): (id: string)
    ensures IdNumber(id) == Some(n)
    ensures n < UINT64_LIMIT ==> MessageNumber(id) == Some(n)
  {
    var id := "m" + Dec(n);
    assert id[1..] == Dec(n);
    id
  }

  /** The counter inside an id, with no bound on its size. */
  function IdNumber(id: string): Option<nat> {
    if HasPrefix(id, "m") && |id| > 1 && AllDigits(id[1..]) then Some(Text.Value(id[1..])) else None
  }

  /** `messageNumber`: the counter inside an id, if it fits 64 bits. */
  function MessageNumber(id: string): Option<nat> {
    if HasPrefix(id, "m") then ParseUint(id[1..]) else None
  }

  function IdOf(r: Record): nat {
    if IdNumber(r.id).Some? then IdNumber(r.id).value else 0
  }

  /** Accepted earlier: a smaller id and no later arrival. */
  predicate Earlier(r: Record, s: Record) {
    IdOf(r) < IdOf(s) && r.at <= s.at
  }

  function LeaseId(epoch: string, n: nat): string {
    epoch + "-" + Dec(n)
  }

  /** A lease id names its process run and its counter: no two pairs share one. */
  lemma LeaseIdInjective(e1: string, n1: nat, e2: string, n2: nat)
    requires LeaseId(e1, n1) == LeaseId(e2, n2)
    ensures e1 == e2 && n1 == n2
  {
    var a, b := LeaseId(e1, n1), LeaseId(e2, n2);
    var d1, d2 := Dec(n1), Dec(n2);
    assert a[|e1|] == '-' && b[|e2|] == '-';
    assert forall i :: |e1| < i < |a| ==> a[i] == d1[i - |e1| - 1];
    assert forall i :: |e2| < i < |b| ==> b[i] == d2[i - |e2| - 1];
    assert |e1| == |e2|;
    assert e1 == a[..|e1|] && e2 == b[..|e2|];
    assert d1 == a[|e1| + 1..] && d2 == b[|e2| + 1..];
  }

  /** What `Ack` refuses before it looks at any lease. */
  predicate Blank(id: string) {
    TrimSpace(id) == ""
  }

  /** Blank is white space through and through. */
  lemma {:induction false} BlankExactly(id: string)
    ensures Blank(id) <==>
              forall i :: 0 <= i < |id| ==>
                || id[i] == ' ' || id[i] == '\t' || id[i] == '\n' || id[i] == '\r'
                || id[i] as int == 11 || id[i] as int == 12
    decreases |id|
  {
    if id != "" {
      BlankExactly(id[1..]);
      if IsSpace(id[0]) {
        assert TrimSpace(id) == TrimSpace(id[1..]);
        assert forall i :: 1 <= i < |id| ==> id[i] == id[1..][i - 1];
      } else {
        NotBlank(id, 0);
      }
    }
  }

  lemma BlankEmpty()
    ensures Blank("")
  {
  }

  lemma {:induction false} TrimRightKeeps(s: string, i: nat)
    requires i < |s| && !IsSpace(s[i])
    ensures TrimRight(s) != ""
  {
    if IsSpace(s[|s| - 1]) {
      TrimRightKeeps(s[..|s| - 1], i);
    }
  }

  lemma {:induction false} NotBlank(s: string, i: nat)
    requires i < |s| && !IsSpace(s[i])
    ensures !Blank(s)
  {
    if IsSpace(s[0]) {
      NotBlank(s[1..], i - 1);
      assert TrimSpace(s) == TrimSpace(s[1..]);
    } else {
      TrimRightKeeps(s, i);
    }
  }

  /** A lease id is never blank, so `Ack` never mistakes one for an empty request. */
  lemma LeaseIdNotBlank(epoch: string, n: nat)
    ensures LeaseId(epoch, n) != "" && !Blank(LeaseId(epoch, n))
  {
    NotBlank(LeaseId(epoch, n), |epoch|);
  }

  // ---- Keys ----

  /** The first separator splits a key, so two estates without one never share a key. */
  lemma {:induction false} SplitsAtFirst(a: string, b: string, s: string, t: string, sep: char)
    requires sep !in a && sep !in b && a + [sep] + s == b + [sep] + t
    ensures a == b && s == t
  {
    SplitFirst(a, sep, s);
    SplitFirst(b, sep, t);
    assert ([a] + Split(s, sep))[0] == ([b] + Split(t, sep))[0];
    var whole := a + [sep] + s;
    assert s == whole[|a| + 1..];
    assert t == whole[|b| + 1..] by { assert whole == b + [sep] + t; }
  }

  /** Valid routes with slash-free estates have the same queue only when they are the same route. */
  lemma KeyInjective(r1: Route, r2: Route)
    requires ValidRoute(r1) && ValidRoute(r2)
    requires '/' !in r1.estate && '/' !in r2.estate
    requires Key(r1) == Key(r2)
    ensures r1 == r2
  {
    var s, t := r1.station + "/" + r1.dir, r2.station + "/" + r2.dir;
    assert Key(r1) == r1.estate + ['/'] + s && Key(r2) == r2.estate + ['/'] + t;
    SplitsAtFirst(r1.estate, r2.estate, s, t, '/');
    assert |r1.dir| == 3 && |r2.dir| == 3;
    assert r1.station == s[..|s| - 4] && r2.station == t[..|t| - 4];
    assert r1.dir == s[|s| - 3..] && r2.dir == t[|t| - 3..];
  }

  /** No slash after the estate's first character, and none before the station's last. */
  predicate SlashesOutside(r: Route) {
    && (forall i :: 1 <= i < |r.estate| ==> r.estate[i] != '/')
    && (forall i :: 0 <= i < |r.station| - 1 ==> r.station[i] != '/')
  }

  lemma SameKeySameRoute(r: Route, o: Route)
    requires ValidRoute(r) && ValidRoute(o) && SlashesOutside(r) && Key(o) == Key(r)
    ensures o == r
  {
    var x, y := r.estate + "/" + r.station, o.estate + "/" + o.station;
    var k := Key(r);
    assert |r.dir| == 3 && |o.dir| == 3;
    assert k == x + ("/" + r.dir) && k == y + ("/" + o.dir);
    assert x == k[..|k| - 4] == y && r.dir == k[|k| - 3..] == o.dir;
    assert x[|o.estate|] == '/' && y[|r.estate|] == '/';
    assert forall i :: 0 <= i < |r.estate| ==> x[i] == r.estate[i];
    assert forall i :: 0 <= i < |r.station| ==> x[|r.estate| + 1 + i] == r.station[i];
    assert |o.estate| == |r.estate|;
    assert r.estate == x[..|r.estate|] && o.estate == y[..|r.estate|];
    assert r.station == x[|r.estate| + 1..] && o.station == y[|r.estate| + 1..];
  }

  /** The other route of a valid route whose slashes are not all outside. */
  lemma AnotherRoute(r: Route) returns (o: Route)
    requires ValidRoute(r) && !SlashesOutside(r)
    ensures ValidRoute(o) && o != r && Key(o) == Key(r)
  {
    if i :| 1 <= i < |r.estate| && r.estate[i] == '/' {
      o := Route(r.estate[..i], r.estate[i + 1..] + "/" + r.station, r.dir);
      assert r.estate == r.estate[..i] + "/" + r.estate[i + 1..];
      assert |o.estate| < |r.estate|;
    } else {
      var i :| 0 <= i < |r.station| - 1 && r.station[i] == '/';
      o := Route(r.estate + "/" + r.station[..i], r.station[i + 1..], r.dir);
      assert r.station == r.station[..i] + "/" + r.station[i + 1..];
      assert |o.estate| > |r.estate|;
    }
  }

  /** A valid route is alone with its queue exactly when its slashes are all outside. */
  lemma KeyUniqueExactly(r: Route)
    requires ValidRoute(r)
    ensures (forall o :: ValidRoute(o) && Key(o) == Key(r) ==> o == r) <==> SlashesOutside(r)
  {
    hide Key, SlashesOutside;
    if SlashesOutside(r) {
      forall o | ValidRoute(o) && Key(o) == Key(r) ensures o == r { SameKeySameRoute(r, o); }
    } else {
      var o := AnotherRoute(r);
    }
  }

  /** A slash inside an estate makes two different routes share a queue. */
  lemma KeyCollides()
    ensures var r1, r2 := Route("a/b", "c", "c2s"), Route("a", "b/c", "c2s");
            ValidRoute(r1) && ValidRoute(r2) && r1 != r2 && Key(r1) == Key(r2)
  {
    assert Route("a/b", "c", "c2s").estate[1] == '/';
    assert Key(Route("a/b", "c", "c2s")) == "a/b/c/c2s" == Key(Route("a", "b/c", "c2s"));
  }
}
