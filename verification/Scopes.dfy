/** Per-station scopes: what a credential may do, and the configuration that says so (scope.go). */
module Scopes {
  import opened Text
  import opened Messages

  const READ := "read"
  const WRITE := "write"

  datatype Scope =
    Scope(estate: string, stations: seq<string>, allStations: bool, read: seq<string>, write: seq<string>)

  const NO_SCOPE := Scope("", [], false, [], [])

  /** Whether the scope covers one attempt. */
  predicate Permits(s: Scope, estate: string, station: string, dir: string, op: string) {
    && estate != "" && station != "" && ValidDir(dir)
    && s.estate != "" && s.estate == estate
    && (s.allStations || station in s.stations)
    && if op == READ then dir in s.read else op == WRITE && dir in s.write
  }

  /** Narrowed to named stations. */
  predicate StationScoped(s: Scope) {
    !s.allStations && |s.stations| > 0
  }

  // ---- Configuration ----

  datatype Entry = Entry(estate: string, station: string, role: string, credential: string)

  const STATION := "station"
  const CONTROL := "control"

  function Reads(role: string): seq<string> {
    if role == STATION then ["c2s"] else ["s2c"]
  }

  function Writes(role: string): seq<string> {
    if role == STATION then ["s2c"] else ["c2s"]
  }

  /** One `estate:station:role:credential`, or None for a fault. */
  function ParseEntry(text: string): Option<Entry> {
    var parts := Split(text, ':');
    if |parts| != 4 then None
    else if parts[0] == "" || parts[1] == "" || parts[3] == "" then None
    else if parts[2] != STATION && parts[2] != CONTROL then None
    else Some(Entry(parts[0], parts[1], parts[2], parts[3]))
  }

  /** The entries of a specification, blanks skipped; None if any is faulty. */
  function ParseEntries(texts: seq<string>): Option<seq<Entry>> {
    if texts == [] then Some([])
    else
      var front := ParseEntries(texts[..|texts| - 1]);
      var text := TrimSpace(texts[|texts| - 1]);
      if front.None? then None
      else if text == "" then front
      else
        var e := ParseEntry(text);
        if e.None? then None else Some(front.value + [e.value])
  }

  /** What the parser has built: the roles each credential has, and its scope. */
  datatype Config = Config(roles: map<string, set<string>>, scopes: map<string, Scope>)

  function RolesOf(c: Config, credential: string): set<string> {
    if credential in c.roles then c.roles[credential] else {}
  }

  function ScopeOf(scopes: map<string, Scope>, credential: string): Scope {
    if credential in scopes then scopes[credential] else NO_SCOPE
  }

  /** One entry added, or None when its credential already has the other role. */
  function AddEntry(c: Config, e: Entry): Option<Config> {
    var seen := RolesOf(c, e.credential);
    if exists other :: other in seen && other != e.role then None
    else
      var s := ScopeOf(c.scopes, e.credential);
      var stations := if e.station in s.stations then s.stations else s.stations + [e.station];
      Some(Config(c.roles[e.credential := seen + {e.role}],
                  c.scopes[e.credential := Scope(e.estate, stations, s.allStations, Reads(e.role), Writes(e.role))]))
  }

  function Build(es: seq<Entry>): Option<Config> {
    if es == [] then Some(Config(map[], map[]))
    else
      var front := Build(es[..|es| - 1]);
      if front.None? then None else AddEntry(front.value, es[|es| - 1])
  }

  /** `ParseStationScopes`: the scope of each credential, or None for any fault. */
  function ParseScopes(spec: string): Option<map<string, Scope>> {
    var es := ParseEntries(Split(spec, ','));
    if es.None? || es.value == [] then None
    else
      var c := Build(es.value);
      if c.None? then None else Some(c.value.scopes)
  }

  lemma {:induction false} AddAfterFault(texts: seq<string>, i: nat)
    requires i <= |texts| && ParseEntries(texts[..i]).None?
    ensures ParseEntries(texts).None?
    decreases |texts|
  {
    if i == |texts| {
      assert texts[..i] == texts;
    } else {
      var front := texts[..|texts| - 1];
      assert front[..i] == texts[..i];
      AddAfterFault(front, i);
    }
  }

  lemma {:induction false} BuildAfterClash(es: seq<Entry>, i: nat)
    requires i <= |es| && Build(es[..i]).None?
    ensures Build(es).None?
    decreases |es|
  {
    if i == |es| {
      assert es[..i] == es;
    } else {
      var front := es[..|es| - 1];
      assert front[..i] == es[..i];
      BuildAfterClash(front, i);
    }
  }

  /** The entries read so far are a prefix of those of the whole specification. */
  lemma {:induction false} EntriesPrefix(texts: seq<string>, i: nat)
    requires i <= |texts| && ParseEntries(texts).Some?
    ensures ParseEntries(texts[..i]).Some? && ParseEntries(texts[..i]).value <= ParseEntries(texts).value
    decreases |texts|
  {
    if i == |texts| {
      assert texts[..i] == texts;
    } else {
      var front := texts[..|texts| - 1];
      assert front[..i] == texts[..i];
      EntriesPrefix(front, i);
    }
  }

  /** The loop of `ParseStationScopes`, which stops at the first fault. */
  method ParseStationScopes(spec: string) returns (result: Option<map<string, Scope>>)
    ensures result == ParseScopes(spec)
  {
    hide ParseEntry, TrimSpace, AddEntry, ParseEntries, Build, Split;
    var texts := Split(spec, ',');
    var config := Config(map[], map[]);
    ghost var es: seq<Entry> := [];
    var n := 0;
    NothingRead();
    assert texts[..0] == [];
    for i := 0 to |texts|
      invariant ParseEntries(texts[..i]) == Some(es) && Build(es) == Some(config) && n == |es|
    {
      var text := TrimSpace(texts[i]);
      ReadsNext(texts, i, es);
      if text != "" {
        var e := ParseEntry(text);
        if e.None? {
          AddAfterFault(texts, i + 1);
          return None;
        }
        var next := AddEntry(config, e.value);
        BuildsNext(es, config, e.value);
        es := es + [e.value];
        if next.None? {
          ClashRefuses(texts, i + 1, es);
          return None;
        }
        config := next.value;
        n := n + 1;
      }
    }
    assert texts[..|texts|] == texts;
    if n == 0 {
      return None;
    }
    result := Some(config.scopes);
  }

  lemma NothingRead()
    ensures ParseEntries([]) == Some([]) && Build([]) == Some(Config(map[], map[]))
  {
  }

  /** What the next text adds to the entries read. */
  lemma ReadsNext(texts: seq<string>, i: nat, es: seq<Entry>)
    requires i < |texts| && ParseEntries(texts[..i]) == Some(es)
    ensures var text := TrimSpace(texts[i]);
            ParseEntries(texts[..i + 1]) ==
              if text == "" then Some(es)
              else if ParseEntry(text).None? then None
              else Some(es + [ParseEntry(text).value])
  {
    hide ParseEntry, TrimSpace;
    assert texts[..i + 1][..i] == texts[..i] && texts[..i + 1][i] == texts[i];
  }

  lemma BuildsNext(es: seq<Entry>, c: Config, e: Entry)
    requires Build(es) == Some(c)
    ensures Build(es + [e]) == AddEntry(c, e)
  {
    hide AddEntry;
    assert (es + [e])[..|es|] == es;
  }

  lemma ClashRefuses(texts: seq<string>, i: nat, es: seq<Entry>)
    requires i <= |texts| && ParseEntries(texts[..i]) == Some(es) && Build(es).None?
    ensures ParseEntries(texts).None? || Build(ParseEntries(texts).value).None?
  {
    if ParseEntries(texts).Some? {
      EntriesPrefix(texts, i);
      var all := ParseEntries(texts).value;
      assert all[..|es|] == es;
      BuildAfterClash(all, |es|);
    }
  }

  // ---- What the configuration means ----

  /** What one entry alone grants. */
  predicate Grants(e: Entry, credential: string, estate: string, station: string, dir: string, op: string) {
    && e.credential == credential && e.estate == estate && e.station == station && ValidDir(dir)
    && if op == READ then dir in Reads(e.role) else op == WRITE && dir in Writes(e.role)
  }

  predicate WellFormedEntry(e: Entry) {
    e.estate != "" && e.station != "" && e.credential != "" && (e.role == STATION || e.role == CONTROL)
  }

  /** The position of a credential's last entry, or -1. */
  function LastOf(es: seq<Entry>, credential: string): (i: int)
    ensures -1 <= i < |es|
    ensures i >= 0 ==> es[i].credential == credential
    ensures forall j :: i < j < |es| ==> es[j].credential != credential
  {
    if es == [] then -1
    else if es[|es| - 1].credential == credential then |es| - 1
    else LastOf(es[..|es| - 1], credential)
  }

  /** A credential has one role throughout. */
  predicate OneRole(es: seq<Entry>) {
    forall i, j :: 0 <= i < j < |es| && es[i].credential == es[j].credential ==> es[i].role == es[j].role
  }

  /** The scope of a credential: its last estate, all its stations, its role. */
  predicate Describes(c: Config, es: seq<Entry>, credential: string) {
    var last := LastOf(es, credential);
    if last < 0 then credential !in c.scopes && credential !in c.roles
    else
      && credential in c.scopes && credential in c.roles
      && c.roles[credential] == {es[last].role}
      && var s := c.scopes[credential];
         && s.estate == es[last].estate && !s.allStations
         && s.read == Reads(es[last].role) && s.write == Writes(es[last].role)
         && (forall e :: e in es && e.credential == credential ==> e.station in s.stations)
         && (forall st :: st in s.stations ==> exists e :: e in es && e.credential == credential && e.station == st)
  }

  lemma FrontMembers(es: seq<Entry>)
    requires es != []
    ensures forall e :: e in es <==> e in es[..|es| - 1] || e == es[|es| - 1]
  {
    assert es == es[..|es| - 1] + [es[|es| - 1]];
  }

  lemma AddDescribes(c: Config, d: Config, es: seq<Entry>, credential: string)
    requires es != [] && Describes(c, es[..|es| - 1], credential)
    requires AddEntry(c, es[|es| - 1]) == Some(d)
    ensures Describes(d, es, credential)
  {
    hide Reads, Writes;
    FrontMembers(es);
    var front, e := es[..|es| - 1], es[|es| - 1];
    if e.credential == credential {
      var s, t := ScopeOf(c.scopes, credential), d.scopes[credential];
      assert e in es;
      var last := LastOf(front, credential);
      if last >= 0 {
        assert RolesOf(c, credential) == {front[last].role};
        assert front[last].role in RolesOf(c, credential);
      }
    }
  }

  /** Building succeeds exactly when no credential has two roles, and builds the scopes described. */
  lemma {:induction false} BuildMeaning(es: seq<Entry>)
    ensures Build(es).Some? <==> OneRole(es)
    ensures Build(es).Some? ==> forall credential: string :: Describes(Build(es).value, es, credential)
  {
    hide Describes, AddEntry;
    if es == [] {
      forall credential: string ensures Describes(Config(map[], map[]), [], credential) {
        NothingDescribed(credential);
      }
    } else {
      var front, e := es[..|es| - 1], es[|es| - 1];
      BuildMeaning(front);
      if Build(front).Some? {
        var c := Build(front).value;
        ClashMeansTwoRoles(c, es);
        if Build(es).Some? {
          forall credential: string ensures Describes(Build(es).value, es, credential) {
            AddDescribes(c, Build(es).value, es, credential);
          }
        }
      } else {
        assert forall i :: 0 <= i < |front| ==> front[i] == es[i];
      }
    }
  }

  lemma NothingDescribed(credential: string)
    ensures Describes(Config(map[], map[]), [], credential)
  {
  }

  lemma ClashMeansTwoRoles(c: Config, es: seq<Entry>)
    requires es != [] && OneRole(es[..|es| - 1]) && Describes(c, es[..|es| - 1], es[|es| - 1].credential)
    ensures AddEntry(c, es[|es| - 1]).Some? <==> OneRole(es)
  {
    hide Reads, Writes;
    var front, e := es[..|es| - 1], es[|es| - 1];
    assert forall i :: 0 <= i < |front| ==> front[i] == es[i];
    var last := LastOf(front, e.credential);
    if last >= 0 {
      assert RolesOf(c, e.credential) == {front[last].role};
      assert front[last].role in RolesOf(c, e.credential);
      assert forall i :: 0 <= i < |front| && front[i].credential == e.credential ==> front[i].role == front[last].role;
    }
  }

  /** Everything one credential's entries say, with one estate for all of them. */
  predicate OneEstate(es: seq<Entry>, credential: string) {
    forall i, j :: 0 <= i < |es| && 0 <= j < |es| && es[i].credential == credential && es[j].credential == credential
      ==> es[i].estate == es[j].estate
  }

  /** The scopes permit a credential exactly what its entries grant it. */
  ghost predicate Exact(scopes: map<string, Scope>, es: seq<Entry>, credential: string) {
    forall estate: string, station: string, dir: string, op: string ::
      ExactOn(scopes, es, credential, estate, station, dir, op)
  }

  predicate ExactOn(scopes: map<string, Scope>, es: seq<Entry>, credential: string,
                    estate: string, station: string, dir: string, op: string) {
    (credential in scopes && Permits(scopes[credential], estate, station, dir, op))
    <==> (exists e :: e in es && Grants(e, credential, estate, station, dir, op))
  }

  /** What an entry grants: a station reads what is sent to it and writes what it sends, a control the other way. */
  lemma GrantsExactly(e: Entry, credential: string, estate: string, station: string, dir: string, op: string)
    requires WellFormedEntry(e)
    ensures Grants(e, credential, estate, station, dir, op) <==>
              && credential == e.credential && estate == e.estate && station == e.station
              && (|| (e.role == "station" && op == "read" && dir == "c2s")
                  || (e.role == "station" && op == "write" && dir == "s2c")
                  || (e.role == "control" && op == "read" && dir == "s2c")
                  || (e.role == "control" && op == "write" && dir == "c2s"))
  {
  }

  /** What the built scopes permit, for every accepted configuration, in terms of its entries. */
  lemma PermitsMeaning(c: Config, es: seq<Entry>, credential: string, estate: string, station: string, dir: string,
                       op: string)
    requires Describes(c, es, credential) && OneRole(es) && forall e :: e in es ==> WellFormedEntry(e)
    ensures var last := LastOf(es, credential);
            credential in c.scopes && Permits(c.scopes[credential], estate, station, dir, op)
            <==>
            && last >= 0
            && exists e :: e in es && Grants(e.(estate := es[last].estate), credential, estate, station, dir, op)
  {
    var last := LastOf(es, credential);
    if last >= 0 {
      assert es[last] in es;
      var s := c.scopes[credential];
      forall e | e in es && e.credential == credential ensures e.role == es[last].role {
        var i :| 0 <= i < |es| && es[i] == e;
      }
      if Permits(s, estate, station, dir, op) {
        var e :| e in es && e.credential == credential && e.station == station;
        assert Grants(e.(estate := es[last].estate), credential, estate, station, dir, op);
      }
    }
  }

  /**
   Every accepted configuration grants a credential exactly what its entries say if and only
   if those entries all name one estate. With two estates the last one replaces the earlier
   ones while the stations add up.
   */
  lemma ConfigurationExactness(es: seq<Entry>, credential: string)
    requires Build(es).Some? && forall e :: e in es ==> WellFormedEntry(e)
    ensures Exact(Build(es).value.scopes, es, credential) <==> OneEstate(es, credential)
  {
    hide Describes, Grants, Permits, WellFormedEntry, OneRole, Build;
    BuildMeaning(es);
    var c := Build(es).value;
    if OneEstate(es, credential) {
      OneEstateIsExact(c, es, credential);
    } else {
      TwoEstatesIsNot(c, es, credential);
    }
  }

  lemma OneEstateIsExact(c: Config, es: seq<Entry>, credential: string)
    requires Describes(c, es, credential) && OneRole(es) && (forall e :: e in es ==> WellFormedEntry(e)) &&
             OneEstate(es, credential)
    ensures Exact(c.scopes, es, credential)
  {
    hide Permits, Describes, WellFormedEntry, OneRole;
    var last := LastOf(es, credential);
    forall estate: string, station: string, dir: string, op: string
      ensures ExactOn(c.scopes, es, credential, estate, station, dir, op)
    {
      PermitsMeaning(c, es, credential, estate, station, dir, op);
      forall e | e in es && e.credential == credential ensures last >= 0 && e.(estate := es[last].estate) == e {
        var i :| 0 <= i < |es| && es[i] == e;
      }
      if && last >= 0
         && exists e :: e in es && Grants(e.(estate := es[last].estate), credential, estate, station, dir, op) {
        var e :| e in es && Grants(e.(estate := es[last].estate), credential, estate, station, dir, op);
        assert Grants(e, credential, estate, station, dir, op);
      }
      if exists e :: e in es && Grants(e, credential, estate, station, dir, op) {
        var e :| e in es && Grants(e, credential, estate, station, dir, op);
        assert Grants(e.(estate := es[last].estate), credential, estate, station, dir, op);
      }
    }
  }

  lemma TwoEstatesIsNot(c: Config, es: seq<Entry>, credential: string)
    requires Describes(c, es, credential) && OneRole(es) && (forall e :: e in es ==> WellFormedEntry(e)) &&
             !OneEstate(es, credential)
    ensures !Exact(c.scopes, es, credential)
  {
    hide OneRole;
    var i, j :| 0 <= i < |es| && 0 <= j < |es| && es[i].credential == credential && es[j].credential == credential
      && es[i].estate != es[j].estate;
    var last := LastOf(es, credential);
    var e := if es[i].estate != es[last].estate then es[i] else es[j];
    var dir := Reads(e.role)[0];
    assert c.scopes[credential].estate == es[last].estate;
    LostGrant(c.scopes, es, e, dir);
  }

  /** An entry whose estate is not its scope's grants what the scope does not permit. */
  lemma LostGrant(scopes: map<string, Scope>, es: seq<Entry>, e: Entry, dir: string)
    requires e in es && WellFormedEntry(e) && dir == Reads(e.role)[0]
    requires e.credential in scopes && scopes[e.credential].estate != e.estate
    ensures !Exact(scopes, es, e.credential)
  {
    assert Grants(e, e.credential, e.estate, e.station, dir, READ);
    assert !ExactOn(scopes, es, e.credential, e.estate, e.station, dir, READ);
  }

  /** No accepted configuration lets a credential both read and write one direction. */
  lemma NeverBothWays(es: seq<Entry>, credential: string, e1: string, s1: string, e2: string, s2: string, dir: string)
    requires Build(es).Some? && credential in Build(es).value.scopes
    ensures var s := Build(es).value.scopes[credential];
            !(Permits(s, e1, s1, dir, READ) && Permits(s, e2, s2, dir, WRITE))
  {
    hide Build;
    BuildMeaning(es);
    assert Describes(Build(es).value, es, credential);
  }

  lemma {:induction false} ParsedWellFormed(texts: seq<string>)
    requires ParseEntries(texts).Some?
    ensures forall e :: e in ParseEntries(texts).value ==> WellFormedEntry(e)
  {
    hide TrimSpace;
    if texts != [] {
      ParsedWellFormed(texts[..|texts| - 1]);
    }
  }

  /** The same for a specification as the operator writes it. */
  lemma SpecificationExactness(spec: string, credential: string)
    requires ParseScopes(spec).Some?
    ensures var es := ParseEntries(Split(spec, ','));
            es.Some? && (Exact(ParseScopes(spec).value, es.value, credential) <==> OneEstate(es.value, credential))
  {
    hide Exact, OneEstate, Build, ParseEntries;
    var es := ParseEntries(Split(spec, ',')).value;
    ParsedWellFormed(Split(spec, ','));
    ConfigurationExactness(es, credential);
  }

  /** The piece of a specification is blank, or is a well-formed entry written out. */
  ghost predicate Readable(text: string) {
    TrimSpace(text) == "" || exists e :: ParseEntry(TrimSpace(text)) == Some(e)
  }

  lemma {:induction false} ReadableExactly(texts: seq<string>)
    ensures ParseEntries(texts).Some? <==> forall i :: 0 <= i < |texts| ==> Readable(texts[i])
    ensures ParseEntries(texts).Some? ==>
              forall e :: e in ParseEntries(texts).value <==>
                exists i :: 0 <= i < |texts| && TrimSpace(texts[i]) != "" && ParseEntry(TrimSpace(texts[i])) == Some(e)
  {
    hide TrimSpace, ParseEntry;
    if texts != [] {
      var n := |texts| - 1;
      var front := texts[..n];
      ReadableExactly(front);
      assert forall i :: 0 <= i < n ==> front[i] == texts[i];
      assert Readable(texts[n]) <==> TrimSpace(texts[n]) == "" || ParseEntry(TrimSpace(texts[n])).Some?;
    }
  }

  /**
   A specification is accepted exactly when each of its pieces between commas is blank or a
   well-formed entry, some piece is an entry, and no credential has two roles; `EntryReadsExactly`
   says what a well-formed entry is.
   */
  lemma AcceptedExactly(spec: string)
    ensures var texts := Split(spec, ',');
            ParseScopes(spec).Some? <==>
              && (forall i :: 0 <= i < |texts| ==> Readable(texts[i]))
              && (exists i :: 0 <= i < |texts| && TrimSpace(texts[i]) != "")
              && ParseEntries(texts).Some? && OneRole(ParseEntries(texts).value)
  {
    hide TrimSpace, ParseEntry, ParseEntries, Build, OneRole, Split;
    var texts := Split(spec, ',');
    ReadableExactly(texts);
    if ParseEntries(texts).Some? {
      BuildMeaning(ParseEntries(texts).value);
      SomeEntry(texts);
    }
  }

  lemma SomeEntry(texts: seq<string>)
    requires ParseEntries(texts).Some?
    ensures ParseEntries(texts).value != [] <==> exists i :: 0 <= i < |texts| && TrimSpace(texts[i]) != ""
  {
    hide TrimSpace, ParseEntry, ParseEntries;
    ReadableExactly(texts);
    var es := ParseEntries(texts).value;
    if es != [] {
      assert es[0] in es;
    }
    if i :| 0 <= i < |texts| && TrimSpace(texts[i]) != "" {
      assert Readable(texts[i]);
      var e :| ParseEntry(TrimSpace(texts[i])) == Some(e);
      assert e in es;
    }
  }

  // ---- Two estates ----

  /** A well-formed entry written out. */
  function EntryText(e: Entry): string {
    e.estate + ":" + e.station + ":" + e.role + ":" + e.credential
  }

  predicate NoColons(e: Entry) {
    ':' !in e.estate && ':' !in e.station && ':' !in e.role && ':' !in e.credential
  }

  /** The four parts of a text are what its three colons separate. */
  lemma FourParts(a: string, b: string, c: string, d: string)
    requires ':' !in a && ':' !in b && ':' !in c && ':' !in d
    ensures Split(a + ":" + b + ":" + c + ":" + d, ':') == [a, b, c, d]
  {
    hide Split;
    var y := c + [':'] + d;
    var x := b + [':'] + y;
    assert a + ":" + b + ":" + c + ":" + d == a + [':'] + x;
    SplitFirst(a, ':', x);
    SplitFirst(b, ':', y);
    SplitFirst(c, ':', d);
    SplitNone(d, ':');
  }

  /** An entry is read from a text exactly when the text is the entry written out and the entry is well formed. */
  lemma EntryReadsExactly(text: string, e: Entry)
    ensures ParseEntry(text) == Some(e) <==>
              && text == EntryText(e) && NoColons(e)
              && e.estate != "" && e.station != "" && e.credential != "" && (e.role == "control" || e.role == "station")
  {
    hide Split;
    if ParseEntry(text) == Some(e) {
      Rejoins(text, ':');
      var p := Split(text, ':');
      JoinFour(p[0], p[1], p[2], p[3]);
      assert p == [p[0], p[1], p[2], p[3]];
    }
    if text == EntryText(e) && NoColons(e) {
      FourParts(e.estate, e.station, e.role, e.credential);
    }
  }

  /** The parts with the separator between them. */
  function Join(parts: seq<string>, sep: char): string
    requires parts != []
  {
    if |parts| == 1 then parts[0] else parts[0] + [sep] + Join(parts[1..], sep)
  }

  lemma JoinFour(a: string, b: string, c: string, d: string)
    ensures Join([a, b, c, d], ':') == a + ":" + b + ":" + c + ":" + d
  {
    assert [a, b, c, d][1..] == [b, c, d] && [b, c, d][1..] == [c, d] && [c, d][1..] == [d];
    assert Join([d], ':') == d;
    assert Join([c, d], ':') == c + [':'] + d;
    assert Join([b, c, d], ':') == b + [':'] + (c + [':'] + d);
  }

  lemma {:induction false} Rejoins(s: string, sep: char)
    ensures Join(Split(s, sep), sep) == s
    ensures forall i :: 0 <= i < |Split(s, sep)| ==> sep !in Split(s, sep)[i]
    decreases |s|
  {
    if s != "" {
      Rejoins(s[1..], sep);
      var rest := Split(s[1..], sep);
      if s[0] == sep {
        assert ([""] + rest)[1..] == rest;
      } else {
        var parts := [[s[0]] + rest[0]] + rest[1..];
        assert parts[1..] == rest[1..];
        assert Join(parts, sep) == [s[0]] + Join(rest, sep);
      }
    }
  }

  const FIRST := "a:s:station:k"
  const SECOND := "b:t:station:k"

  lemma TwoEstatesSplit()
    ensures Split("a:s:station:k,b:t:station:k", ',') == [FIRST, SECOND]
    ensures TrimSpace(FIRST) == FIRST && TrimSpace(SECOND) == SECOND
  {
    hide Split;
    assert "a:s:station:k,b:t:station:k" == FIRST + [','] + SECOND;
    SplitFirst(FIRST, ',', SECOND);
    SplitNone(SECOND, ',');
  }

  lemma ParsesTwo(x: string, y: string, e: Entry, f: Entry)
    requires TrimSpace(x) == x != "" && TrimSpace(y) == y != "" && ParseEntry(x) == Some(e) && ParseEntry(y) == Some(f)
    ensures ParseEntries([x, y]) == Some([e, f])
  {
    hide ParseEntry, TrimSpace;
    assert [x, y][..1] == [x] && [x][..0] == [];
    assert ParseEntries([]) == Some([]);
    var none: seq<Entry> := [];
    assert none + [e] == [e] && [e] + [f] == [e, f];
    assert ParseEntries([x]) == Some([e]);
  }

  /** Two entries of one credential and one role: the last estate, and both stations. */
  lemma BuildsTwo(e: Entry, f: Entry)
    requires e.credential == f.credential && e.role == f.role && e.station != f.station
    ensures var c := Build([e, f]);
            && c.Some? && e.credential in c.value.scopes
            && c.value.scopes[e.credential]
               == Scope(f.estate, [e.station, f.station], false, Reads(f.role), Writes(f.role))
  {
    hide Reads, Writes;
    assert [e, f][..1] == [e] && [e][..0] == [];
    assert Build([]) == Some(Config(map[], map[]));
    var one := Build([e]);
    var none: set<string> := {};
    assert none + {e.role} == {e.role};
    assert one.Some? && one.value.roles == map[e.credential := {e.role}];
    assert [] + [e.station] == [e.station];
    assert one.value.scopes == map[e.credential := Scope(e.estate, [e.station], false, Reads(e.role), Writes(e.role))];
    assert RolesOf(one.value, e.credential) == {e.role};
    assert [e.station] + [f.station] == [e.station, f.station];
  }

  /** One credential listed under two estates: the second replaces the first, and inherits its station. */
  lemma LastEstateTakesAll()
    ensures var scopes := ParseScopes("a:s:station:k,b:t:station:k");
            && scopes.Some? && "k" in scopes.value
            && !Permits(scopes.value["k"], "a", "s", "c2s", READ)
            && Permits(scopes.value["k"], "b", "s", "c2s", READ)
  {
    hide ParseEntries, Split, Permits, Build, TrimSpace, ParseEntry;
    var e, f := Entry("a", "s", STATION, "k"), Entry("b", "t", STATION, "k");
    TwoEstatesSplit();
    assert ParseEntry(FIRST) == Some(e) by {
      assert FIRST == EntryText(e);
      EntryReadsExactly(FIRST, e);
    }
    assert ParseEntry(SECOND) == Some(f) by {
      assert SECOND == EntryText(f);
      EntryReadsExactly(SECOND, f);
    }
    ParsesTwo(FIRST, SECOND, e, f);
    BuildsTwo(e, f);
    ScopeExample(Scope("b", ["s", "t"], false, ["c2s"], ["s2c"]));
  }

  lemma ScopeExample(s: Scope)
    requires s == Scope("b", ["s", "t"], false, ["c2s"], ["s2c"])
    ensures !Permits(s, "a", "s", "c2s", READ) && Permits(s, "b", "s", "c2s", READ)
  {
    assert s.stations[0] == "s" && s.read[0] == "c2s";
  }
}
