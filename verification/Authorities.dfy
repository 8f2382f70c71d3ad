/**
 The authority that guards the queues: leases checked locally, revocation floors, and the
 composition with the authoriser behind them (authlease.go, scope.go, cmd/heliograph-relay).
 */
module Authorities {
  import opened Text
  import opened Messages
  import opened Scopes
  import opened Tokens
  import Base64
  import Json
  import Utf8

  const MAX_LIFE: Time := 15 * 60 * NANOS

  datatype Request = Request(credential: string, estate: string, station: string, dir: string, op: string)

  datatype Reason = Allowed | Unverifiable | Expired | Revoked | OutOfScope | EstateWide | Other(name: string)

  datatype Grant = Grant(allow: bool, reason: Reason, scope: Scope)

  function Refuse(why: Reason): Grant {
    Grant(false, why, NO_SCOPE)
  }

  /** What this relay checks leases with: a verifier if it has one, and the name it answers to. */
  datatype Gate = Gate(verify: Option<(string, string) -> bool>, audience: string)

  predicate Verified(g: Gate, s: Signed) {
    g.verify.Some? && g.verify.value(s.payload, s.signature)
  }

  predicate ForUs(g: Gate, a: Authority) {
    g.audience == "" || a.audience == g.audience
  }

  predicate InWindow(a: Authority, now: Time) {
    a.expires - a.notBefore <= MAX_LIFE && a.notBefore <= now < a.expires
  }

  // ---- Checking ----

  /** `check`, against the revocation floor of the lease's estate. */
  function Check(g: Gate, floor: int, a: Authority, s: Signed, req: Request, now: Time): Grant {
    if !Verified(g, s) then Refuse(Unverifiable)
    else if g.audience != "" && a.audience != g.audience then Refuse(Unverifiable)
    else if a.expires - a.notBefore > MAX_LIFE then Refuse(Expired)
    else if now < a.notBefore then Refuse(Expired)
    else if !(now < a.expires) then Refuse(Expired)
    else if a.epoch < floor then Refuse(Revoked)
    else if !Permits(a.scope, req.estate, req.station, req.dir, req.op) then Refuse(OutOfScope)
    else Grant(true, Allowed, a.scope)
  }

  type Floors = map<string, int>

  function Floor(floors: Floors, estate: string): int {
    if estate in floors then floors[estate] else 0
  }

  /** `Admit`: local answers where a lease gives one, `inner` for the rest. */
  function Admit(g: Gate, floors: Floors, inner: Request -> Grant, req: Request, now: Time): Grant {
    match Parse(req.credential)
    case Read(a, s) =>
      var local := Check(g, Floor(floors, a.scope.estate), a, s, req, now);
      if local.allow || local.reason != OutOfScope then local else inner(req)
    case _ => inner(req)
  }

  /** A lease this relay honours right now, whatever it is used for. */
  predicate InForce(g: Gate, floors: Floors, a: Authority, s: Signed, now: Time) {
    Verified(g, s) && ForUs(g, a) && InWindow(a, now) && a.epoch >= Floor(floors, a.scope.estate)
  }

  /** Whether the authoriser behind the leases is asked. */
  predicate Consults(g: Gate, floors: Floors, req: Request, now: Time) {
    match Parse(req.credential)
    case Read(a, s) => InForce(g, floors, a, s, now) && !Permits(a.scope, req.estate, req.station, req.dir, req.op)
    case _ => true
  }

  /**
   A readable lease is answered from what the relay holds unless it is in force and used
   outside its scope: nothing unverified, misaddressed, outside its window, overlong or
   revoked reaches the authoriser behind.
   */
  lemma ConsultsExactly(g: Gate, floors: Floors, inner: Request -> Grant, req: Request, now: Time)
    ensures Admit(g, floors, inner, req, now) ==
              if Consults(g, floors, req, now) then inner(req)
              else var r := Parse(req.credential);
                   Check(g, Floor(floors, r.auth.scope.estate), r.auth, r.signed, req, now)
    ensures !Consults(g, floors, req, now) ==>
              (Admit(g, floors, inner, req, now).allow
               <==> InForce(g, floors, Parse(req.credential).auth, Parse(req.credential).signed, now))
  {
    hide Parse, Permits;
  }

  /** Why a lease is refused here, the first reason that applies. */
  lemma ReasonsExactly(g: Gate, floor: int, a: Authority, s: Signed, req: Request, now: Time)
    ensures var why := Check(g, floor, a, s, req, now).reason;
            var unverified := g.verify.None? || !g.verify.value(s.payload, s.signature)
                              || (g.audience != "" && a.audience != g.audience);
            var outside := a.expires - a.notBefore > 15 * 60 * 1_000_000_000 || now < a.notBefore || now >= a.expires;
            && (why == Unverifiable <==> unverified)
            && (why == Expired <==> !unverified && outside)
            && (why == Revoked <==> !unverified && !outside && a.epoch < floor)
            && (why == OutOfScope <==> !unverified && !outside && a.epoch >= floor
                                       && !Permits(a.scope, req.estate, req.station, req.dir, req.op))
            && (Check(g, floor, a, s, req, now).allow <==> why == Allowed)
            && (why == Allowed ==> Check(g, floor, a, s, req, now).scope == a.scope)
  {
    hide Permits;
  }

  // ---- Hosted tenants ----

  /** `Hosted`: a grant not narrowed to named stations is no grant. */
  function HostedGrant(g: Grant): Grant {
    if !g.allow || StationScoped(g.scope) then g else Refuse(EstateWide)
  }

  /** The order `main` wraps in: leases outside, the tenant rule inside. */
  function AdmitHosted(g: Gate, floors: Floors, inner: Request -> Grant, req: Request, now: Time): Grant {
    Admit(g, floors, (r: Request) => HostedGrant(inner(r)), req, now)
  }

  /**
   In hosted mode every allowed request has a station-scoped grant, or was allowed here by a
   lease in force whose own scope permits it.
   */
  lemma HostedGrantsAreScoped(g: Gate, floors: Floors, inner: Request -> Grant, req: Request, now: Time)
    requires AdmitHosted(g, floors, inner, req, now).allow
    ensures || StationScoped(AdmitHosted(g, floors, inner, req, now).scope)
            || (&& Parse(req.credential).Read?
                && InForce(g, floors, Parse(req.credential).auth, Parse(req.credential).signed, now)
                && Permits(Parse(req.credential).auth.scope, req.estate, req.station, req.dir, req.op))
  {
    hide Parse, Permits;
    ConsultsExactly(g, floors, (r: Request) => HostedGrant(inner(r)), req, now);
  }

  /**
   Hosted mode passes on what the authoriser behind said, a refusal or a grant narrowed to named
   stations, and turns every other grant into the one refusal.
   */
  lemma HostedExactly(g: Gate, floors: Floors, inner: Request -> Grant, req: Request, now: Time)
    requires Consults(g, floors, req, now)
    ensures var behind := inner(req);
            AdmitHosted(g, floors, inner, req, now) ==
              if !behind.allow || (!behind.scope.allStations && |behind.scope.stations| > 0) then behind
              else Grant(false, EstateWide, Scope("", [], false, [], []))
  {
    hide Parse, Permits, Admit;
    ConsultsExactly(g, floors, (r: Request) => HostedGrant(inner(r)), req, now);
  }

  /**
   The tenant rule does not reach leases: a lease in force that permits the request is allowed
   in hosted mode whatever its scope, so the grant is station-scoped exactly when the lease is.
   */
  lemma HostedLeavesLeasesAlone(g: Gate, floors: Floors, inner: Request -> Grant, req: Request, now: Time)
    requires Parse(req.credential).Read?
    requires InForce(g, floors, Parse(req.credential).auth, Parse(req.credential).signed, now)
    requires Permits(Parse(req.credential).auth.scope, req.estate, req.station, req.dir, req.op)
    ensures var grant := AdmitHosted(g, floors, inner, req, now);
            grant.allow && (StationScoped(grant.scope) <==> StationScoped(Parse(req.credential).auth.scope))
  {
    hide Parse, Permits;
  }

  // ---- Revocation over time ----

  datatype Event = Advance(passed: nat) | Revoke(estate: string, epoch: int) | Ask(req: Request)

  /** What the relay's answers depend on. */
  datatype Guard = Guard(clock: Time, floors: Floors)

  /** `Revoke`'s update of the floors. */
  function Raise(floors: Floors, estate: string, epoch: int): Floors {
    if epoch > Floor(floors, estate) then floors[estate := epoch] else floors
  }

  /** The relay after a history that starts at `t0` with no revocation heard of. */
  function GuardAfter(t0: Time, es: seq<Event>): Guard {
    if es == [] then Guard(t0, map[])
    else
      var before := GuardAfter(t0, es[..|es| - 1]);
      match es[|es| - 1]
      case Advance(passed) => before.(clock := before.clock + passed)
      case Revoke(estate, epoch) => before.(floors := Raise(before.floors, estate, epoch))
      case Ask(_) => before
  }

  /** What the j-th event, a request, is answered. */
  function AnswerAt(g: Gate, inner: Request -> Grant, t0: Time, es: seq<Event>, j: nat): Grant
    requires j < |es| && es[j].Ask?
  {
    var guard := GuardAfter(t0, es[..j]);
    Admit(g, guard.floors, inner, es[j].req, guard.clock)
  }

  /** The floor bounds every epoch revoked, and is 0 or one of them: it is their maximum with 0. */
  lemma {:induction false} FloorIsMaximum(t0: Time, es: seq<Event>, estate: string)
    ensures var f := Floor(GuardAfter(t0, es).floors, estate);
            && f >= 0
            && (forall e :: e in es && e.Revoke? && e.estate == estate ==> e.epoch <= f)
            && (f == 0 || Revoke(estate, f) in es)
    ensures GuardAfter(t0, es).clock >= t0 && ((forall e :: e in es ==> !e.Advance?) ==> GuardAfter(t0, es).clock == t0)
  {
    if es != [] {
      var front, e := es[..|es| - 1], es[|es| - 1];
      FloorIsMaximum(t0, front, estate);
      assert es == front + [e];
    }
  }

  /** The history has no revocation that reaches this lease. */
  predicate Unrevoked(es: seq<Event>, a: Authority) {
    a.epoch >= 0 && forall e :: e in es && e.Revoke? && e.estate == a.scope.estate ==> e.epoch <= a.epoch
  }

  /**
   Over every history of clock advances, revocations and requests: a request with a readable
   lease is allowed exactly when the lease is verified, for this relay, in its window and
   reached by no revocation heard so far, and either permits the request itself or the
   authoriser behind does.
   */
  lemma LeaseHonouredExactly(g: Gate, inner: Request -> Grant, t0: Time, es: seq<Event>, j: nat)
    requires j < |es| && es[j].Ask? && Parse(es[j].req.credential).Read?
    ensures var req, r := es[j].req, Parse(es[j].req.credential);
            AnswerAt(g, inner, t0, es, j).allow <==>
              && Verified(g, r.signed) && ForUs(g, r.auth) && InWindow(r.auth, GuardAfter(t0, es[..j]).clock)
              && Unrevoked(es[..j], r.auth)
              && (Permits(r.auth.scope, req.estate, req.station, req.dir, req.op) || inner(req).allow)
  {
    hide Parse, Permits, GuardAfter, Admit;
    var guard, req, r := GuardAfter(t0, es[..j]), es[j].req, Parse(es[j].req.credential);
    FloorIsMaximum(t0, es[..j], r.auth.scope.estate);
    assert Unrevoked(es[..j], r.auth) <==> r.auth.epoch >= Floor(guard.floors, r.auth.scope.estate);
    ConsultsExactly(g, guard.floors, inner, req, guard.clock);
  }

  /** Once a revocation is heard, no request with a lease below it is allowed, whatever the authoriser behind says. */
  lemma RevokedStaysRevoked(g: Gate, inner: Request -> Grant, t0: Time, es: seq<Event>, i: nat, j: nat)
    requires i < j < |es| && es[i].Revoke? && es[j].Ask?
    requires var r := Parse(es[j].req.credential);
             r.Read? && r.auth.scope.estate == es[i].estate && r.auth.epoch < es[i].epoch
    ensures !AnswerAt(g, inner, t0, es, j).allow
  {
    hide Parse, Permits, GuardAfter, AnswerAt;
    LeaseHonouredExactly(g, inner, t0, es, j);
    assert es[i] in es[..j] by { assert es[..j][i] == es[i]; }
  }

  /**
   The published bound: a lease revoked at a moment when it had begun allows nothing fifteen
   minutes later or after, even if the relay never hears of the revocation.
   */
  lemma RevocationIsBounded(g: Gate, inner: Request -> Grant, t0: Time, es: seq<Event>, j: nat, revoked: Time)
    requires j < |es| && es[j].Ask? && Parse(es[j].req.credential).Read?
    requires Parse(es[j].req.credential).auth.notBefore <= revoked
    requires revoked + MAX_LIFE <= GuardAfter(t0, es[..j]).clock
    ensures !AnswerAt(g, inner, t0, es, j).allow
  {
    hide Parse, Permits, GuardAfter, AnswerAt;
    LeaseHonouredExactly(g, inner, t0, es, j);
  }

  /** The last second by which a readable lease can have begun, at a moment: 1970 itself does not count. */
  function LastStart(t: Time): Time {
    if Seconds(t) == 0 then -NANOS else Seconds(t) * NANOS
  }

  /** The moment from which nothing begun by `t` is admitted. */
  function LastEnd(t: Time): Time {
    if LastStart(t) + MAX_LIFE == 0 then -NANOS else LastStart(t) + MAX_LIFE
  }

  /** Whatever is read has bounds in whole seconds, neither of them zero. */
  lemma ReadInWholeSeconds(credential: string)
    requires Parse(credential).Read?
    ensures WholeSeconds(Parse(credential).auth)
  {
    hide Split, Base64.Decode, Json.Unmarshal;
    var parts := Split(credential, '.');
    var o := Json.Unmarshal(Base64.Decode(parts[1]).value);
    PayloadInWholeSeconds(o.value, Parse(credential).signed);
  }

  lemma PayloadInWholeSeconds(o: Json.Object, signed: Signed)
    requires FromPayload(o, signed).Read?
    ensures WholeSeconds(FromPayload(o, signed).auth)
  {
    var a := FromPayload(o, signed).auth;
    var nbf, exp := Json.FindNum(o, "nbf", -INT64_LIMIT, INT64_LIMIT).value,
      Json.FindNum(o, "exp", -INT64_LIMIT, INT64_LIMIT).value;
    assert a.notBefore == nbf * NANOS && a.expires == exp * NANOS;
  }

  /** The exact bound, never later than the published one. */
  lemma RevocationBoundIsExact(g: Gate, inner: Request -> Grant, t0: Time, es: seq<Event>, j: nat, revoked: Time)
    requires j < |es| && es[j].Ask? && Parse(es[j].req.credential).Read?
    requires Parse(es[j].req.credential).auth.notBefore <= revoked
    requires LastEnd(revoked) <= GuardAfter(t0, es[..j]).clock
    ensures !AnswerAt(g, inner, t0, es, j).allow
    ensures LastEnd(revoked) <= revoked + MAX_LIFE
  {
    hide Parse, Permits, GuardAfter, AnswerAt;
    ReadInWholeSeconds(es[j].req.credential);
    var a := Parse(es[j].req.credential).auth;
    assert a.notBefore == Seconds(a.notBefore) * NANOS && a.expires == Seconds(a.expires) * NANOS;
    assert Seconds(a.notBefore) <= Seconds(revoked);
    LeaseHonouredExactly(g, inner, t0, es, j);
  }

  /** The longest lease that has begun at a moment: one station, one direction, this relay. */
  function LongestLease(g: Gate, t: Time, estate: string, station: string): Authority {
    Authority(Scope(estate, [station], false, ["c2s"], []), LastStart(t), LastEnd(t), 0, g.audience)
  }

  /**
   The exact bound is met: the longest lease begun by then, minted with a signature the relay
   verifies, is admitted at every moment before it in any history without a revocation of it.
   */
  lemma RevocationBoundIsMet(g: Gate, inner: Request -> Grant, t0: Time, es: seq<Event>, j: nat, revoked: Time,
                             signature: string, estate: string, station: string)
    requires estate != "" && station != "" && Utf8.Valid(estate) && Utf8.Valid(station) && Utf8.Valid(g.audience)
    requires Base64.AllBytes(signature) && InRange(LongestLease(g, revoked, estate, station))
    requires Verified(g, Signed(EncodedPayload(LongestLease(g, revoked, estate, station)), signature))
    requires j < |es|
    requires var token := Mint(LongestLease(g, revoked, estate, station), signature);
             es[j] == Ask(Request(token, estate, station, "c2s", READ))
    requires LastStart(revoked) <= GuardAfter(t0, es[..j]).clock < LastEnd(revoked)
    requires Unrevoked(es[..j], LongestLease(g, revoked, estate, station))
    ensures LastStart(revoked) <= revoked && AnswerAt(g, inner, t0, es, j).allow
  {
    hide Parse, Mint, EncodedPayload, GuardAfter, AnswerAt, Utf8.Valid, Base64.AllBytes, Unrevoked;
    var a := LongestLease(g, revoked, estate, station);
    LongestLeaseReads(g, revoked, estate, station, signature);
    assert a.scope.stations[0] == station && a.scope.read[0] == "c2s";
    assert Permits(a.scope, estate, station, "c2s", READ);
    LeaseHonouredExactly(g, inner, t0, es, j);
  }

  lemma LongestLeaseReads(g: Gate, t: Time, estate: string, station: string, signature: string)
    requires Utf8.Valid(estate) && Utf8.Valid(station) && Utf8.Valid(g.audience)
    requires Base64.AllBytes(signature) && InRange(LongestLease(g, t, estate, station))
    ensures var a := LongestLease(g, t, estate, station);
            Parse(Mint(a, signature)) == Read(a, Signed(EncodedPayload(a), signature))
  {
    hide Parse, Mint, EncodedPayload, Utf8.Valid, Base64.AllBytes;
    var a := LongestLease(g, t, estate, station);
    Utf8.AsciiValid("c2s");
    TokenExactness(a, signature);
    assert LastStart(t) % NANOS == 0 && LastEnd(t) % NANOS == 0;
  }

  // ---- An estate-wide lease in hosted mode ----

  const EVERYWHERE := Authority(Scope("e", [], true, ["c2s"], []), NANOS, NANOS + MAX_LIFE, 0, "")

  const SIGNATURE := "signed"

  /** The tenant rule notwithstanding, a minted estate-wide lease reads a station's messages. */
  lemma EstateWideLeaseIsAdmitted(inner: Request -> Grant, now: Time)
    requires NANOS <= now < NANOS + MAX_LIFE
    ensures Base64.AllBytes(SIGNATURE)
    ensures var g := Gate(Some((payload, signature) => signature == SIGNATURE), "");
            var req := Request(Mint(EVERYWHERE, SIGNATURE), "e", "s", "c2s", READ);
            var grant := AdmitHosted(g, map[], inner, req, now);
            grant.allow && !StationScoped(grant.scope)
  {
    hide Parse, Mint, EncodedPayload, Utf8.Valid;
    var g := Gate(Some((payload, signature) => signature == SIGNATURE), "");
    var req := Request(Mint(EVERYWHERE, SIGNATURE), "e", "s", "c2s", READ);
    Utf8.AsciiValid("c2s");
    Utf8.AsciiValid("e");
    Utf8.AsciiValid("");
    TokenExactness(EVERYWHERE, SIGNATURE);
    assert EVERYWHERE.scope.read[0] == "c2s";
    assert Permits(EVERYWHERE.scope, "e", "s", "c2s", READ);
    HostedLeavesLeasesAlone(g, map[], inner, req, now);
  }
}
