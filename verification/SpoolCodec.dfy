/** The spool's files: their names, and the header line and body inside them (spool.go). */
module SpoolCodec {
  import opened Text
  import opened Messages
  import Json
  import Utf8

  // ---- Names ----

  const EXT := ".msg"
  const TEMP_PREFIX := "writing-"
  const CORRUPT := ".corrupt"

  predicate IsTemp(name: string) {
    HasPrefix(name, TEMP_PREFIX)
  }

  /** The names `load` reads as messages. */
  predicate IsMessageFile(name: string) {
    !IsTemp(name) && HasSuffix(name, EXT)
  }

  /** `spoolNumber`: the digits at the front of a message file's name. */
  function SpoolNumber(name: string): Option<nat> {
    if !HasSuffix(name, EXT) then None
    else
      var trimmed := name[..|name| - |EXT|];
      var n := DigitRun(trimmed);
      if n == 0 || Text.Value(trimmed[..n]) >= UINT64_LIMIT then None else Some(Text.Value(trimmed[..n]))
  }

  /** The twenty digits of a file name hold every 64-bit counter. */
  lemma TwentyDigits()
    ensures UINT64_LIMIT < Pow10(20)
  {
    assert Pow10(5) == 100_000;
    assert Pow10(10) == 100_000 * Pow10(5);
    assert Pow10(15) == 100_000 * Pow10(10);
    assert Pow10(20) == 100_000 * Pow10(15);
  }

  /** The final name of the n-th file; `SpoolNumber` inverts it and `load` reads it. */
  function FileName(n: nat): (name: string)
    requires n < UINT64_LIMIT
    ensures SpoolNumber(name) == Some(n)
    ensures IsMessageFile(name) && !IsTemp(name)
    ensures |name| == 24 && AllDigits(name[..20]) && name[20..] == ".msg"
  {
    var digits := Pad(20, n);
    var name := digits + EXT;
    assert SpoolNumber(name) == Some(n) by {
      TwentyDigits();
      PadValue(20, n);
      assert name[..|name| - 4] == digits && name[|name| - 4..] == EXT;
      assert digits[..20] == digits;
    }
    assert IsDigit(name[0]) && name[0] != 'w';
    name
  }

  function TempName(k: nat): (name: string)
    ensures IsTemp(name) && !IsMessageFile(name)
  {
    TEMP_PREFIX + Dec(k)
  }

  /** File names sort as strings in the order of their numbers. */
  lemma FileNameOrder(a: nat, b: nat)
    requires a < UINT64_LIMIT && b < UINT64_LIMIT
    ensures Less(FileName(a), FileName(b)) <==> a < b
  {
    TwentyDigits();
    if a < b {
      PadOrder(20, a, b);
      LessExtends(Pad(20, a), Pad(20, b), EXT, EXT);
    } else if b < a {
      PadOrder(20, b, a);
      LessExtends(Pad(20, b), Pad(20, a), EXT, EXT);
    }
    LessTotal(FileName(a), FileName(b));
  }

  // ---- Contents ----

  /** The integer widths of the header: `uint64` and `int64`. */
  predicate InRange(r: Record) {
    r.seqno < UINT64_LIMIT && -INT64_LIMIT <= r.at < INT64_LIMIT
  }

  function HeadOf(r: Record): (o: Json.Object)
    ensures o != []
  {
    [Json.Member("id", Json.Str(r.id)), Json.Member("estate", Json.Str(r.route.estate)),
     Json.Member("station", Json.Str(r.route.station)), Json.Member("dir", Json.Str(r.route.dir)),
     Json.Member("seq", Json.Num(r.seqno)), Json.Member("at", Json.Num(r.at))]
  }

  function HeadLine(r: Record): string {
    Json.Marshal(HeadOf(r)) + "\n"
  }

  /** What `write` puts in a file: one line of JSON, a newline, and the body untouched. */
  function Encode(r: Record): string {
    HeadLine(r) + r.body
  }

  function FromHead(o: Json.Object, body: string): Option<Record> {
    match (Json.FindStr(o, "id"), Json.FindStr(o, "estate"), Json.FindStr(o, "station"), Json.FindStr(o, "dir"),
           Json.FindNum(o, "seq", 0, UINT64_LIMIT), Json.FindNum(o, "at", -INT64_LIMIT, INT64_LIMIT))
    case (Some(id), Some(estate), Some(station), Some(dir), Some(seqno), Some(at)) =>
      if ValidRoute(Route(estate, station, dir)) && seqno >= 0
      then Some(Record(id, Route(estate, station, dir), seqno, body, at)) else None
    case _ => None
  }

  function IndexOf(s: string, c: char): (i: Option<nat>)
    ensures i.Some? ==> i.value < |s| && s[i.value] == c && forall j :: 0 <= j < i.value ==> s[j] != c
    ensures i.None? ==> forall j :: 0 <= j < |s| ==> s[j] != c
  {
    if s == "" then None
    else if s[0] == c then Some(0)
    else match IndexOf(s[1..], c)
         case None => None
         case Some(i) => Some(i + 1)
  }

  /** `readSpoolFile` on a file's contents; None stands for its errors. */
  function Decode(raw: string): Option<Record> {
    match IndexOf(raw, '\n')
    case None => None
    case Some(i) =>
      match Json.Unmarshal(raw[..i])
      case None => None
      case Some(o) => FromHead(o, raw[i + 1..])
  }

  /** What a restart makes of a record: its names with every malformed byte replaced. */
  function Sanitized(r: Record): Record {
    r.(id := Utf8.Sanitize(r.id),
       route := Route(Utf8.Sanitize(r.route.estate), Utf8.Sanitize(r.route.station), Utf8.Sanitize(r.route.dir)))
  }

  lemma {:induction false} FindAt(o: Json.Object, i: nat)
    requires i < |o| && forall j :: i < j < |o| ==> o[j].name != o[i].name
    ensures Json.Find(o, o[i].name) == Some(o[i].value)
    decreases |o|
  {
    if i + 1 < |o| {
      FindAt(o[..|o| - 1], i);
    }
  }

  /** The members a restart reads back. */
  lemma HeadReads(r: Record)
    ensures Json.CleanAll(HeadOf(r)) == HeadOf(Sanitized(r))
  {
    hide Utf8.Sanitize;
    Utf8.SanitizeAscii("id");
    Utf8.SanitizeAscii("estate");
    Utf8.SanitizeAscii("station");
    Utf8.SanitizeAscii("dir");
    Utf8.SanitizeAscii("seq");
    Utf8.SanitizeAscii("at");
  }

  lemma FromHeadReads(r: Record, body: string)
    requires InRange(r) && ValidRoute(r.route)
    ensures FromHead(HeadOf(r), body) == Some(r.(body := body))
  {
    var o := HeadOf(r);
    FindAt(o, 0);
    FindAt(o, 1);
    FindAt(o, 2);
    FindAt(o, 3);
    FindAt(o, 4);
    FindAt(o, 5);
  }

  lemma SanitizedRouteValid(r: Route)
    requires ValidRoute(r)
    ensures ValidRoute(Route(Utf8.Sanitize(r.estate), Utf8.Sanitize(r.station), Utf8.Sanitize(r.dir)))
  {
    Utf8.SanitizeGrows(r.estate);
    Utf8.SanitizeGrows(r.station);
    Utf8.SanitizeAscii(r.dir);
  }

  /**
   Reading back any file `write` produced succeeds, whatever bytes the body holds, and
   returns the record with its names sanitised. So no such file is ever quarantined.
   */
  lemma CodecReads(r: Record)
    requires InRange(r) && ValidRoute(r.route)
    ensures Decode(Encode(r)) == Some(Sanitized(r))
  {
    hide Json.Marshal, Json.Unmarshal, FromHead, HeadOf, Utf8.Sanitize;
    var head := Json.Marshal(HeadOf(r));
    var raw := Encode(r);
    Json.MarshalReads(HeadOf(r));
    var i := IndexOf(raw, '\n');
    assert raw[|head|] == '\n';
    assert i == Some(|head|) by {
      assert forall j :: 0 <= j < |head| ==> raw[j] == head[j];
    }
    assert raw[..|head|] == head && raw[|head| + 1..] == r.body;
    HeadReads(r);
    SanitizedRouteValid(r.route);
    FromHeadReads(Sanitized(r), r.body);
  }

  /** Names that survive a restart unchanged. */
  predicate WellFormedNames(r: Record) {
    Utf8.Valid(r.id) && Utf8.Valid(r.route.estate) && Utf8.Valid(r.route.station)
  }

  /**
   The round trip is exact for precisely the messages whose names are well-formed UTF-8.
   Any other message comes back under a different id or on a different route.
   */
  lemma CodecExactness(r: Record)
    requires InRange(r) && ValidRoute(r.route)
    ensures Decode(Encode(r)) == Some(r) <==> WellFormedNames(r)
  {
    hide Decode, Encode, Utf8.Sanitize, Utf8.Valid;
    CodecReads(r);
    Utf8.SanitizeFixesExactlyValid(r.id);
    Utf8.SanitizeFixesExactlyValid(r.route.estate);
    Utf8.SanitizeFixesExactlyValid(r.route.station);
    Utf8.SanitizeAscii(r.route.dir);
  }

  /** An estate of one byte that is not UTF-8 comes back as another estate, so on another route. */
  lemma StrayByteMovesRoute(body: string, at: Time)
    requires -INT64_LIMIT <= at < INT64_LIMIT
    ensures var r := Record("m1", Route([0xFF as char], "s", "c2s"), 1, body, at);
            && ValidRoute(r.route)
            && Decode(Encode(r)) == Some(r.(route := Route(Utf8.REPLACEMENT, "s", "c2s")))
            && Key(Route(Utf8.REPLACEMENT, "s", "c2s")) != Key(r.route)
  {
    hide Decode, Encode;
    var r := Record("m1", Route([0xFF as char], "s", "c2s"), 1, body, at);
    CodecReads(r);
    assert Utf8.Sanitize(r.route.estate) == Utf8.REPLACEMENT by { StrayByte(); }
    Utf8.SanitizeAscii("m1");
    Utf8.SanitizeAscii("s");
    Utf8.SanitizeAscii("c2s");
    assert |Key(Route(Utf8.REPLACEMENT, "s", "c2s"))| != |Key(r.route)|;
  }

  lemma StrayByte()
    ensures Utf8.Sanitize([0xFF as char]) == Utf8.REPLACEMENT
  {
    assert Utf8.RuneLen([0xFF as char]) == 0;
    assert [0xFF as char][1..] == "" && Utf8.Sanitize("") == "";
    assert Utf8.REPLACEMENT + "" == Utf8.REPLACEMENT;
  }

  /** Which names in the directory are what. */
  lemma NamesExactly(name: string)
    ensures IsTemp(name) <==> HasPrefix(name, "writing-")
    ensures IsMessageFile(name) <==> !HasPrefix(name, "writing-") && HasSuffix(name, ".msg")
  {
  }

  /**
   What is read from any text, and what is not: a text with no newline is no message, nor is one
   whose first line names no valid route; what is read has everything after the first newline as
   its body, and numbers that fit.
   */
  lemma DecodeRefuses(raw: string)
    ensures '\n' !in raw ==> Decode(raw).None?
    ensures Decode(raw).Some? ==>
              var rec := Decode(raw).value;
              && rec.seqno <= 18_446_744_073_709_551_615
              && -9_223_372_036_854_775_808 <= rec.at <= 9_223_372_036_854_775_807
              && rec.route.estate != "" && rec.route.station != ""
              && (rec.route.dir == "c2s" || rec.route.dir == "s2c")
              && |rec.body| < |raw| && raw[|raw| - |rec.body| - 1] == '\n' && raw[|raw| - |rec.body|..] == rec.body
              && '\n' !in raw[..|raw| - |rec.body| - 1]
  {
    hide Json.Unmarshal, Json.Find;
  }
}
