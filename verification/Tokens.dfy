/** Authorisation leases as tokens: minting and reading them (authlease.go). */
module Tokens {
  import opened Text
  import opened Messages
  import opened Scopes
  import Base64
  import Json
  import Utf8

  const NANOS: int := 1_000_000_000
  const PREFIX := "hl1"

  datatype Authority = Authority(scope: Scope, notBefore: Time, expires: Time, epoch: int, audience: string)

  /** What a verifier is given: the text that was signed, and the signature over it. */
  datatype Signed = Signed(payload: string, signature: string)

  datatype Reading = NotAnAuthority | BadAuthority | Read(auth: Authority, signed: Signed)

  // ---- Minting ----

  function Opt(present: bool, name: string, v: Json.Value): Json.Object {
    if present then [Json.Member(name, v)] else []
  }

  /** `time.Time.Unix`: whole seconds, rounded down. */
  function Seconds(t: Time): int {
    t / NANOS
  }

  /** The wire shape, empty optional members omitted. */
  function PayloadOf(a: Authority): (o: Json.Object)
    ensures o != []
  {
    [Json.Member("e", Json.Str(a.scope.estate))]
    + Opt(a.scope.stations != [], "s", Json.Strs(a.scope.stations))
    + Opt(a.scope.allStations, "a", Json.Bool(true))
    + Opt(a.scope.read != [], "r", Json.Strs(a.scope.read))
    + Opt(a.scope.write != [], "w", Json.Strs(a.scope.write))
    + Opt(true, "nbf", Json.Num(Seconds(a.notBefore)))
    + Opt(true, "exp", Json.Num(Seconds(a.expires)))
    + Opt(a.epoch != 0, "ep", Json.Num(a.epoch))
    + Opt(a.audience != "", "aud", Json.Str(a.audience))
  }

  lemma MarshalIsBytes(o: Json.Object)
    requires o != []
    ensures Base64.AllBytes(Json.Marshal(o))
  {
    hide Json.Marshal;
    Json.MarshalReads(o);
  }

  function EncodedPayload(a: Authority): string {
    MarshalIsBytes(PayloadOf(a));
    Base64.Encode(Json.Marshal(PayloadOf(a)))
  }

  /** `NewAuthority`, given the signature its signer returns for the encoded payload. */
  function Mint(a: Authority, signature: string): string
    requires Base64.AllBytes(signature)
  {
    PREFIX + "." + EncodedPayload(a) + "." + Base64.Encode(signature)
  }

  // ---- Reading ----

  function FromPayload(o: Json.Object, signed: Signed): Reading {
    match (Json.FindStr(o, "e"), Json.FindStrs(o, "s"), Json.FindBool(o, "a"),
           Json.FindStrs(o, "r"), Json.FindStrs(o, "w"),
           Json.FindNum(o, "nbf", -INT64_LIMIT, INT64_LIMIT), Json.FindNum(o, "exp", -INT64_LIMIT, INT64_LIMIT),
           Json.FindNum(o, "ep", -INT64_LIMIT, INT64_LIMIT), Json.FindStr(o, "aud"))
    case (Some(estate), Some(stations), Some(all), Some(read), Some(write),
          Some(nbf), Some(exp), Some(epoch), Some(aud)) =>
      if exp == 0 || nbf == 0 then BadAuthority
      else Read(Authority(Scope(estate, stations, all, read, write), nbf * NANOS, exp * NANOS, epoch, aud), signed)
    case _ => BadAuthority
  }

  /** `ParseAuthority`. */
  function Parse(credential: string): Reading {
    var parts := Split(credential, '.');
    if |parts| != 3 || parts[0] != PREFIX then NotAnAuthority
    else
      match (Base64.Decode(parts[1]), Base64.Decode(parts[2]))
      case (Some(raw), Some(sig)) =>
        (match Json.Unmarshal(raw)
         case None => BadAuthority
         case Some(o) => FromPayload(o, Signed(parts[1], sig)))
      case _ => BadAuthority
  }

  // ---- The round trip ----

  /** What reading a minted token gives back: whole seconds, and strings with malformed bytes replaced. */
  function Rounded(a: Authority): Authority {
    Authority(Scope(Utf8.Sanitize(a.scope.estate), Json.SanitizeAll(a.scope.stations), a.scope.allStations,
                    Json.SanitizeAll(a.scope.read), Json.SanitizeAll(a.scope.write)),
              Seconds(a.notBefore) * NANOS, Seconds(a.expires) * NANOS, a.epoch, Utf8.Sanitize(a.audience))
  }

  predicate Is64(n: int) {
    -INT64_LIMIT <= n < INT64_LIMIT
  }

  predicate InRange(a: Authority) {
    Is64(Seconds(a.notBefore)) && Is64(Seconds(a.expires)) && Is64(a.epoch)
  }

  lemma FindOpt(o: Json.Object, present: bool, name: string, v: Json.Value, wanted: string)
    ensures Json.Find(o + Opt(present, name, v), wanted)
         == if present && name == wanted then Some(v) else Json.Find(o, wanted)
  {
    var all := o + Opt(present, name, v);
    if present {
      assert all[..|all| - 1] == o;
    } else {
      assert all == o;
    }
  }

  /** Every member of a payload is found under its name, and only when it is present. */
  lemma FindPayload(a: Authority, name: string)
    ensures Json.Find(PayloadOf(a), name) ==
              if name == "aud" && a.audience != "" then Some(Json.Str(a.audience))
              else if name == "ep" && a.epoch != 0 then Some(Json.Num(a.epoch))
              else if name == "exp" then Some(Json.Num(Seconds(a.expires)))
              else if name == "nbf" then Some(Json.Num(Seconds(a.notBefore)))
              else if name == "w" && a.scope.write != [] then Some(Json.Strs(a.scope.write))
              else if name == "r" && a.scope.read != [] then Some(Json.Strs(a.scope.read))
              else if name == "a" && a.scope.allStations then Some(Json.Bool(true))
              else if name == "s" && a.scope.stations != [] then Some(Json.Strs(a.scope.stations))
              else if name == "e" then Some(Json.Str(a.scope.estate))
              else None
  {
    hide Json.Find, Opt, Seconds;
    var s := a.scope;
    var o0 := [Json.Member("e", Json.Str(s.estate))];
    var o1 := o0 + Opt(s.stations != [], "s", Json.Strs(s.stations));
    var o2 := o1 + Opt(s.allStations, "a", Json.Bool(true));
    var o3 := o2 + Opt(s.read != [], "r", Json.Strs(s.read));
    var o4 := o3 + Opt(s.write != [], "w", Json.Strs(s.write));
    var o5 := o4 + Opt(true, "nbf", Json.Num(Seconds(a.notBefore)));
    var o6 := o5 + Opt(true, "exp", Json.Num(Seconds(a.expires)));
    var o7 := o6 + Opt(a.epoch != 0, "ep", Json.Num(a.epoch));
    FindOne("e", Json.Str(s.estate), name);
    FindOpt(o0, s.stations != [], "s", Json.Strs(s.stations), name);
    FindOpt(o1, s.allStations, "a", Json.Bool(true), name);
    FindOpt(o2, s.read != [], "r", Json.Strs(s.read), name);
    FindOpt(o3, s.write != [], "w", Json.Strs(s.write), name);
    FindOpt(o4, true, "nbf", Json.Num(Seconds(a.notBefore)), name);
    FindOpt(o5, true, "exp", Json.Num(Seconds(a.expires)), name);
    FindOpt(o6, a.epoch != 0, "ep", Json.Num(a.epoch), name);
    FindOpt(o7, a.audience != "", "aud", Json.Str(a.audience), name);
  }

  lemma FindOne(name: string, v: Json.Value, wanted: string)
    ensures Json.Find([Json.Member(name, v)], wanted) == if name == wanted then Some(v) else None
  {
    assert [Json.Member(name, v)][..0] == [];
  }

  lemma PayloadReads(a: Authority, signed: Signed)
    requires InRange(a)
    ensures FromPayload(PayloadOf(a), signed) ==
              if Seconds(a.expires) == 0 || Seconds(a.notBefore) == 0 then BadAuthority
              else Read(a.(notBefore := Seconds(a.notBefore) * NANOS, expires := Seconds(a.expires) * NANOS), signed)
  {
    hide PayloadOf, Json.Find, Seconds;
    FindPayload(a, "e");
    FindPayload(a, "s");
    FindPayload(a, "a");
    FindPayload(a, "r");
    FindPayload(a, "w");
    FindPayload(a, "nbf");
    FindPayload(a, "exp");
    FindPayload(a, "ep");
    FindPayload(a, "aud");
  }

  lemma CleanAppend(o: Json.Object, present: bool, name: string, v: Json.Value)
    requires forall i :: 0 <= i < |name| ==> name[i] as int < 0x80
    ensures Json.CleanAll(o + Opt(present, name, v)) == Json.CleanAll(o) + Opt(present, name, Json.Clean(v))
  {
    hide Json.Clean, Utf8.Sanitize;
    Utf8.SanitizeAscii(name);
    var all := o + Opt(present, name, v);
    assert Json.CleanAll(all)[..|o|] == Json.CleanAll(o);
    assert all[..|o|] == o;
    if present {
      assert Json.CleanAll(all)[|o|] == Json.Member(name, Json.Clean(v));
    }
  }

  /** Cleaning a payload is the payload of the cleaned authority. */
  lemma CleanPayload(a: Authority)
    ensures Json.CleanAll(PayloadOf(a))
         == PayloadOf(Rounded(a).(notBefore := a.notBefore, expires := a.expires))
  {
    hide Json.CleanAll, Seconds, Utf8.Sanitize, Opt;
    var s := a.scope;
    var o0 := [Json.Member("e", Json.Str(s.estate))];
    var o1 := o0 + Opt(s.stations != [], "s", Json.Strs(s.stations));
    var o2 := o1 + Opt(s.allStations, "a", Json.Bool(true));
    var o3 := o2 + Opt(s.read != [], "r", Json.Strs(s.read));
    var o4 := o3 + Opt(s.write != [], "w", Json.Strs(s.write));
    var o5 := o4 + Opt(true, "nbf", Json.Num(Seconds(a.notBefore)));
    var o6 := o5 + Opt(true, "exp", Json.Num(Seconds(a.expires)));
    var o7 := o6 + Opt(a.epoch != 0, "ep", Json.Num(a.epoch));
    CleanFirst(s.estate);
    CleanAppend(o0, s.stations != [], "s", Json.Strs(s.stations));
    CleanAppend(o1, s.allStations, "a", Json.Bool(true));
    CleanAppend(o2, s.read != [], "r", Json.Strs(s.read));
    CleanAppend(o3, s.write != [], "w", Json.Strs(s.write));
    CleanAppend(o4, true, "nbf", Json.Num(Seconds(a.notBefore)));
    CleanAppend(o5, true, "exp", Json.Num(Seconds(a.expires)));
    CleanAppend(o6, a.epoch != 0, "ep", Json.Num(a.epoch));
    CleanAppend(o7, a.audience != "", "aud", Json.Str(a.audience));
    Utf8.SanitizeGrows(a.audience);
    EmptyClean();
  }

  lemma EmptyClean()
    ensures Utf8.Sanitize("") == ""
  {
  }

  lemma CleanFirst(estate: string)
    ensures Json.CleanAll([Json.Member("e", Json.Str(estate))]) == [Json.Member("e", Json.Str(Utf8.Sanitize(estate)))]
  {
    hide Utf8.Sanitize;
    Utf8.SanitizeAscii("e");
  }

  /** A minted token splits into its three parts. */
  lemma MintedParts(a: Authority, signature: string)
    requires Base64.AllBytes(signature)
    ensures Split(Mint(a, signature), '.') == ["hl1", EncodedPayload(a), Base64.Encode(signature)]
    ensures Base64.Decode(EncodedPayload(a)) == Some(Json.Marshal(PayloadOf(a)))
    ensures Base64.Decode(Base64.Encode(signature)) == Some(signature)
  {
    hide Split, Base64.Encode, Base64.Decode, Json.Marshal, PayloadOf;
    MarshalIsBytes(PayloadOf(a));
    Base64.RoundTrip(Json.Marshal(PayloadOf(a)));
    Base64.RoundTrip(signature);
    var p, sig := EncodedPayload(a), Base64.Encode(signature);
    assert Mint(a, signature) == PREFIX + ['.'] + (p + ['.'] + sig);
    SplitFirst(PREFIX, '.', p + ['.'] + sig);
    SplitFirst(p, '.', sig);
    SplitNone(sig, '.');
  }

  /**
   For every authority and every signature, reading the minted token returns the exact text
   that was signed, the signature, and the fields, times in whole seconds and strings with
   malformed bytes replaced; a lease with no bound in whole seconds is refused.
   */
  lemma TokenReads(a: Authority, signature: string)
    requires InRange(a) && Base64.AllBytes(signature)
    ensures Parse(Mint(a, signature)) ==
              if Seconds(a.expires) == 0 || Seconds(a.notBefore) == 0 then BadAuthority
              else Read(Rounded(a), Signed(EncodedPayload(a), signature))
  {
    hide Split, Base64.Encode, Base64.Decode, Json.Marshal, Json.Unmarshal, PayloadOf, FromPayload, Mint,
      EncodedPayload, Utf8.Sanitize;
    MintedParts(a, signature);
    Json.MarshalReads(PayloadOf(a));
    CleanPayload(a);
    var clean := Rounded(a).(notBefore := a.notBefore, expires := a.expires);
    PayloadReads(clean, Signed(EncodedPayload(a), signature));
  }

  predicate WholeSeconds(a: Authority) {
    a.notBefore % NANOS == 0 && a.expires % NANOS == 0 && a.notBefore != 0 && a.expires != 0
  }

  predicate WellFormedText(a: Authority) {
    && Utf8.Valid(a.scope.estate) && Utf8.Valid(a.audience)
    && (forall i :: 0 <= i < |a.scope.stations| ==> Utf8.Valid(a.scope.stations[i]))
    && (forall i :: 0 <= i < |a.scope.read| ==> Utf8.Valid(a.scope.read[i]))
    && (forall i :: 0 <= i < |a.scope.write| ==> Utf8.Valid(a.scope.write[i]))
  }

  lemma SanitizeAllFixes(items: seq<string>)
    ensures Json.SanitizeAll(items) == items <==> forall i :: 0 <= i < |items| ==> Utf8.Valid(items[i])
  {
    hide Utf8.Sanitize, Utf8.Valid;
    forall i | 0 <= i < |items| ensures Utf8.Sanitize(items[i]) == items[i] <==> Utf8.Valid(items[i]) {
      Utf8.SanitizeFixesExactlyValid(items[i]);
    }
    if Json.SanitizeAll(items) == items {
      assert forall i :: 0 <= i < |items| ==> Json.SanitizeAll(items)[i] == items[i];
    }
  }

  /** The round trip is exact for precisely the leases in whole non-zero seconds and UTF-8 text. */
  lemma TokenExactness(a: Authority, signature: string)
    requires InRange(a) && Base64.AllBytes(signature)
    ensures Parse(Mint(a, signature)) == Read(a, Signed(EncodedPayload(a), signature))
            <==> WholeSeconds(a) && WellFormedText(a)
  {
    hide Parse, Mint, EncodedPayload, Utf8.Sanitize, Utf8.Valid, Json.SanitizeAll;
    TokenReads(a, signature);
    Utf8.SanitizeFixesExactlyValid(a.scope.estate);
    Utf8.SanitizeFixesExactlyValid(a.audience);
    SanitizeAllFixes(a.scope.stations);
    SanitizeAllFixes(a.scope.read);
    SanitizeAllFixes(a.scope.write);
    assert (Seconds(a.notBefore) * NANOS == a.notBefore) == (a.notBefore % NANOS == 0);
    assert (Seconds(a.expires) * NANOS == a.expires) == (a.expires % NANOS == 0);
  }

  /** What is taken for a lease at all, and what of that cannot be read. */
  lemma ReadingsExactly(credential: string)
    ensures var parts := Split(credential, '.');
            && (Parse(credential).NotAnAuthority? <==> |parts| != 3 || parts[0] != "hl1")
            && (Parse(credential).Read? ==>
                  && Base64.Decode(parts[1]).Some? && Base64.Decode(parts[2]).Some?
                  && Parse(credential).signed == Signed(parts[1], Base64.Decode(parts[2]).value)
                  && Json.Unmarshal(Base64.Decode(parts[1]).value).Some?)
  {
    hide Split, Base64.Decode, Json.Unmarshal;
  }
}
