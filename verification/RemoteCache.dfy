/** Decisions fetched from an authoriser over the network, and the cache of them (remote.go). */
module RemoteCache {
  import opened Text
  import opened Messages
  import opened Scopes
  import opened Authorities

  const NO_CREDENTIAL := Other("no-credential")
  const BAD_CREDENTIAL := Other("bad-credential")
  const UNAVAILABLE := Other("authoriser-unavailable")

  datatype Cached = Cached(grant: Grant, until: Time)

  type Cache = map<string, Cached>

  /** How long a yes and a no are reused. */
  datatype Lifetimes = Lifetimes(positive: Time, negative: Time)

  function Life(l: Lifetimes, g: Grant): Time {
    if g.allow then l.positive else l.negative
  }

  function KeyOf(r: Request): string {
    r.credential + "|" + r.estate + "|" + r.station + "|" + r.dir + "|" + r.op
  }

  function Lookup(c: Cache, r: Request, now: Time): Option<Grant> {
    var k := KeyOf(r);
    if k in c && now < c[k].until then Some(c[k].grant) else None
  }

  /** A refusal that names no reason is given one. */
  function Named(g: Grant): Grant {
    if !g.allow && g.reason == Allowed then g.(reason := BAD_CREDENTIAL) else g
  }

  /** What a decision heard at `now` leaves in the cache; no decision leaves it alone. */
  function Stored(c: Cache, l: Lifetimes, r: Request, heard: Option<Grant>, now: Time): Cache {
    if heard.None? then c
    else
      var g := Named(heard.value);
      if Life(l, g) > 0 then c[KeyOf(r) := Cached(g, now + Life(l, g))] else c
  }

  /** `g` is what was heard, word for word; a refusal that gave no reason reads "bad-credential". */
  predicate SameDecision(g: Grant, heard: Grant) {
    && g.allow == heard.allow && g.scope == heard.scope
    && g.reason == if !heard.allow && heard.reason == Allowed then Other("bad-credential") else heard.reason
  }

  /** How long a decision is kept: one time for a yes, another for a no. */
  function Lifetime(l: Lifetimes, heard: Grant): Time {
    if heard.allow then l.positive else l.negative
  }

  /** A decision worth keeping is kept for its lifetime under its own key; nothing else is touched. */
  ghost predicate Remembers(c: Cache, d: Cache, l: Lifetimes, r: Request, heard: Option<Grant>, now: Time) {
    && (forall k :: k != KeyOf(r) ==> (k in d <==> k in c) && (k in c ==> d[k] == c[k]))
    && if heard.Some? && Lifetime(l, heard.value) > 0 then
         && KeyOf(r) in d
         && SameDecision(d[KeyOf(r)].grant, heard.value) && d[KeyOf(r)].until == now + Lifetime(l, heard.value)
       else d == c
  }

  class RemoteAuth {
    var cache: Cache
    const life: Lifetimes

    constructor (l: Lifetimes)
      ensures cache == map[] && life == l
    {
      cache, life := map[], l;
    }

    /** The first locked section of `Admit`. */
    method FromCache(r: Request, now: Time) returns (g: Option<Grant>)
      ensures g == Lookup(cache, r, now)
    {
      hide KeyOf;
      var k := KeyOf(r);
      if k in cache && now < cache[k].until {
        return Some(cache[k].grant);
      }
      return None;
    }

    /** The second: `heard` is what the call brought back, None when there was no decision to be had. */
    method Keep(r: Request, heard: Option<Grant>, now: Time) returns (g: Grant)
      modifies this
      ensures cache == Stored(old(cache), life, r, heard, now) && Remembers(old(cache), cache, life, r, heard, now)
      ensures if heard.None? then g == Grant(false, Other("authoriser-unavailable"), NO_SCOPE)
              else SameDecision(g, heard.value)
    {
      hide KeyOf;
      if heard.None? {
        return Refuse(UNAVAILABLE);
      }
      g := Named(heard.value);
      var ttl := life.negative;
      if g.allow {
        ttl := life.positive;
      }
      if ttl > 0 {
        cache := cache[KeyOf(r) := Cached(g, now + ttl)];
      }
    }

    /** `Admit`, asked at `now`; if it has to ask, `heard` comes back at `later`. */
    method Admit(r: Request, now: Time, heard: Option<Grant>, later: Time) returns (g: Grant)
      modifies this
      ensures r.credential == "" ==> cache == old(cache) && g == Grant(false, Other("no-credential"), NO_SCOPE)
      ensures r.credential != "" && Lookup(old(cache), r, now).Some? ==>
                cache == old(cache) && g == Lookup(old(cache), r, now).value
      ensures r.credential != "" && Lookup(old(cache), r, now).None? ==>
                && Remembers(old(cache), cache, life, r, heard, later)
                && if heard.None? then g == Grant(false, Other("authoriser-unavailable"), NO_SCOPE)
                   else SameDecision(g, heard.value)
    {
      if r.credential == "" {
        return Refuse(NO_CREDENTIAL);
      }
      var hit := FromCache(r, now);
      if hit.Some? {
        return hit.value;
      }
      g := Keep(r, heard, later);
    }
  }

  // ---- Runs ----

  /** What any number of concurrent requests do to the cache: only heard answers change it. */
  datatype Event = Asked(req: Request, at: Time) | Heard(req: Request, answer: Option<Grant>, at: Time)

  function CacheAfter(l: Lifetimes, es: seq<Event>): Cache {
    if es == [] then map[]
    else
      var e, before := es[|es| - 1], CacheAfter(l, es[..|es| - 1]);
      if e.Heard? then Stored(before, l, e.req, e.answer, e.at) else before
  }

  /** The parts of a decision are free of the separator. */
  predicate Plain(r: Request) {
    '|' !in r.credential && '|' !in r.estate && '|' !in r.station && '|' !in r.dir && '|' !in r.op
  }

  lemma KeyParts(r: Request)
    requires Plain(r)
    ensures Split(KeyOf(r), '|') == [r.credential, r.estate, r.station, r.dir, r.op]
  {
    var d := r.dir + ['|'] + r.op;
    var c := r.station + ['|'] + d;
    var b := r.estate + ['|'] + c;
    assert KeyOf(r) == r.credential + ['|'] + b;
    SplitFirst(r.credential, '|', b);
    SplitFirst(r.estate, '|', c);
    SplitFirst(r.station, '|', d);
    SplitFirst(r.dir, '|', r.op);
    SplitNone(r.op, '|');
  }

  /** A key names one credential, estate, station, direction and operation. */
  lemma KeyInjective(a: Request, b: Request)
    requires Plain(a) && Plain(b) && KeyOf(a) == KeyOf(b)
    ensures a == b
  {
    hide KeyOf, Split;
    KeyParts(a);
    KeyParts(b);
    var x, y := [a.credential, a.estate, a.station, a.dir, a.op], [b.credential, b.estate, b.station, b.dir, b.op];
    assert x[0] == y[0] && x[1] == y[1] && x[2] == y[2] && x[3] == y[3] && x[4] == y[4];
  }

  /** The separators of a key are its own four and those inside its parts. */
  lemma KeyBars(r: Request)
    ensures Count(KeyOf(r), '|') == 4 + Count(r.credential, '|') + Count(r.estate, '|') + Count(r.station, '|')
                                      + Count(r.dir, '|') + Count(r.op, '|')
  {
    hide Count;
    assert Count("|", '|') == 1 by { OneBar(); }
    var a := r.credential + "|";
    var b := a + r.estate;
    var c := b + "|";
    var d := c + r.station;
    var e := d + "|";
    var f := e + r.dir;
    var g := f + "|";
    CountAppend(r.credential, "|", '|');
    CountAppend(a, r.estate, '|');
    CountAppend(b, "|", '|');
    CountAppend(c, r.station, '|');
    CountAppend(d, "|", '|');
    CountAppend(e, r.dir, '|');
    CountAppend(f, "|", '|');
    CountAppend(g, r.op, '|');
    assert KeyOf(r) == g + r.op;
  }

  lemma OneBar()
    ensures Count("|", '|') == 1
  {
  }

  lemma PlainCounts(r: Request)
    ensures Plain(r) <==> Count(KeyOf(r), '|') == 4
  {
    hide KeyOf, Count;
    KeyBars(r);
    CountZero(r.credential, '|');
    CountZero(r.estate, '|');
    CountZero(r.station, '|');
    CountZero(r.dir, '|');
    CountZero(r.op, '|');
  }

  /** Reading a separator as one of a key's own moves text from one part to the next. */
  lemma Shifted(x: string, y: string, b: string)
    ensures x + "|" + (y + "|" + b) == x + "|" + y + "|" + b
  {
  }

  /** A key by two neighbouring parts. */
  lemma ByFirst(r: Request)
    ensures KeyOf(r) == (r.credential + "|" + r.estate) + ("|" + r.station + "|" + r.dir + "|" + r.op)
  {
  }

  lemma BySecond(r: Request)
    ensures KeyOf(r) == r.credential + "|" + (r.estate + "|" + r.station) + ("|" + r.dir + "|" + r.op)
  {
  }

  lemma ByThird(r: Request)
    ensures KeyOf(r) == r.credential + "|" + r.estate + "|" + (r.station + "|" + r.dir) + ("|" + r.op)
  {
  }

  lemma ByFourth(r: Request)
    ensures KeyOf(r) == r.credential + "|" + r.estate + "|" + r.station + "|" + (r.dir + "|" + r.op)
  {
  }

  /** A separator inside a part can be read as the end of it. */
  lemma AnotherRequest(r: Request) returns (o: Request)
    requires !Plain(r)
    ensures o != r && KeyOf(o) == KeyOf(r)
  {
    hide KeyOf;
    if '|' in r.credential {
      var x, y := Cut(r.credential);
      o := r.(credential := x, estate := y + "|" + r.estate);
      Shifted(x, y, r.estate);
      ByFirst(r);
      ByFirst(o);
    } else if '|' in r.estate {
      var x, y := Cut(r.estate);
      o := r.(estate := x, station := y + "|" + r.station);
      Shifted(x, y, r.station);
      BySecond(r);
      BySecond(o);
    } else if '|' in r.station {
      var x, y := Cut(r.station);
      o := r.(station := x, dir := y + "|" + r.dir);
      Shifted(x, y, r.dir);
      ByThird(r);
      ByThird(o);
    } else if '|' in r.dir {
      var x, y := Cut(r.dir);
      o := r.(dir := x, op := y + "|" + r.op);
      Shifted(x, y, r.op);
      ByFourth(r);
      ByFourth(o);
    } else {
      var x, y := Cut(r.op);
      o := r.(dir := r.dir + "|" + x, op := y);
      Shifted(r.dir, x, y);
      ByFourth(r);
      ByFourth(o);
    }
  }

  lemma Cut(s: string) returns (x: string, y: string)
    requires '|' in s
    ensures s == x + "|" + y && |x| < |s| && |y| < |s|
  {
    var i :| 0 <= i < |s| && s[i] == '|';
    x, y := s[..i], s[i + 1..];
  }

  /** A request shares its key with no other exactly when its parts are free of the separator. */
  lemma KeyUniqueExactly(r: Request)
    ensures (forall o :: KeyOf(o) == KeyOf(r) ==> o == r) <==> Plain(r)
  {
    hide KeyOf, Count, Plain;
    if Plain(r) {
      forall o | KeyOf(o) == KeyOf(r) ensures o == r {
        PlainCounts(r);
        PlainCounts(o);
        KeyInjective(o, r);
      }
    } else {
      var o := AnotherRequest(r);
    }
  }

  /** With a separator inside a part, two different questions share an answer. */
  lemma KeyCollides()
    ensures KeyOf(Request("a|b", "c", "d", "c2s", READ)) == KeyOf(Request("a", "b|c", "d", "c2s", READ))
  {
    assert KeyOf(Request("a|b", "c", "d", "c2s", READ)) == "a|b|c|d|c2s|read";
    assert KeyOf(Request("a", "b|c", "d", "c2s", READ)) == "a|b|c|d|c2s|read";
  }

  // ---- What is served ----

  /** The event is a decision for this key that is worth keeping. */
  predicate Decides(l: Lifetimes, e: Event, k: string) {
    e.Heard? && e.answer.Some? && KeyOf(e.req) == k && Lifetime(l, e.answer.value) > 0
  }

  /** The i-th event is the last decision for this key. */
  predicate LastDecision(l: Lifetimes, es: seq<Event>, k: string, i: nat) {
    i < |es| && Decides(l, es[i], k) && forall j :: i < j < |es| ==> !Decides(l, es[j], k)
  }

  function EntryOf(l: Lifetimes, e: Event): Cached
    requires e.Heard? && e.answer.Some?
  {
    Cached(Named(e.answer.value), e.at + Life(l, Named(e.answer.value)))
  }

  /** The cache holds, for each key, the last decision for it. */
  lemma {:induction false} CacheHoldsLast(l: Lifetimes, es: seq<Event>, k: string)
    ensures k in CacheAfter(l, es) <==> exists i: nat :: LastDecision(l, es, k, i)
    ensures forall i: nat :: LastDecision(l, es, k, i) ==>
            k in CacheAfter(l, es) && CacheAfter(l, es)[k] == EntryOf(l, es[i])
  {
    hide KeyOf;
    if es != [] {
      var n := |es| - 1;
      var front, e := es[..n], es[n];
      CacheHoldsLast(l, front, k);
      if Decides(l, e, k) {
        assert LastDecision(l, es, k, n);
      } else {
        forall i: nat ensures LastDecision(l, es, k, i) <==> LastDecision(l, front, k, i) {
          if i < n { assert es[i] == front[i]; }
        }
      }
    }
  }

  /**
   In every interleaving of questions and answers, a request free of the separator is served `g`
   from the cache at `now` if and only if `g` is, word for word, the last decision worth keeping
   heard for the very same credential, estate, station, direction and operation, less than its
   lifetime ago.
   */
  lemma ServedExactly(l: Lifetimes, es: seq<Event>, r: Request, now: Time, g: Grant)
    requires Plain(r)
    ensures Lookup(CacheAfter(l, es), r, now) == Some(g) <==>
              exists i: nat :: LastDecision(l, es, KeyOf(r), i) && es[i].req == r
                && SameDecision(g, es[i].answer.value) && now < es[i].at + Lifetime(l, es[i].answer.value)
  {
    hide KeyOf, Plain, CacheAfter;
    var k := KeyOf(r);
    CacheHoldsLast(l, es, k);
    KeyUniqueExactly(r);
    if Lookup(CacheAfter(l, es), r, now) == Some(g) {
      var i: nat :| LastDecision(l, es, k, i);
      assert es[i].req == r && CacheAfter(l, es)[k] == EntryOf(l, es[i]);
    }
  }

  /** So whatever is served was heard for the very same question, less than its lifetime ago. */
  lemma CacheIsSound(l: Lifetimes, es: seq<Event>, r: Request, now: Time)
    requires Plain(r) && Lookup(CacheAfter(l, es), r, now).Some?
    ensures exists i :: 0 <= i < |es| && es[i].Heard? && es[i].answer.Some? && es[i].req == r
              && SameDecision(Lookup(CacheAfter(l, es), r, now).value, es[i].answer.value)
              && now < es[i].at + Lifetime(l, es[i].answer.value)
  {
    hide Named, Life, KeyOf, Plain, CacheAfter, SameDecision, Lifetime;
    ServedExactly(l, es, r, now, Lookup(CacheAfter(l, es), r, now).value);
  }

  /** An outage is not remembered: whatever failed to answer, the next question is asked again. */
  lemma {:induction false} OutageIsForgotten(l: Lifetimes, es: seq<Event>, outage: seq<Event>, r: Request, now: Time)
    requires Lookup(CacheAfter(l, es), r, now).None?
    requires forall i :: 0 <= i < |outage| && outage[i].Heard? ==> outage[i].answer.None?
    ensures CacheAfter(l, es + outage) == CacheAfter(l, es)
    ensures forall later :: now <= later ==> Lookup(CacheAfter(l, es + outage), r, later).None?
    decreases |outage|
  {
    hide KeyOf;
    if outage == [] {
      assert es + outage == es;
    } else {
      var n := |outage| - 1;
      OutageIsForgotten(l, es, outage[..n], r, now);
      assert (es + outage)[..|es + outage| - 1] == es + outage[..n];
    }
  }
}
