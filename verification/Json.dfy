/**
 The JSON that `encoding/json` writes for the spool header and the authority payload, and
 a reader for it: one object whose members are strings, integers, booleans or arrays of
 strings. String escaping is section 7 of RFC 8259 as Go applies it, HTML escaping and
 U+2028 and U+2029 included.
 */
module Json {
  import opened Text
  import Utf8

  datatype Value = Str(text: string) | Num(n: int) | Bool(b: bool) | Strs(items: seq<string>)

  datatype Member = Member(name: string, value: Value)

  type Object = seq<Member>

  lemma Regroup(a: string, b: string, c: string)
    ensures (a + b) + c == a + (b + c)
  {
  }

  // ---- Strings ----

  function HexDigit(d: nat): char
    requires d < 16
  {
    if d < 10 then Digit(d) else ('a' as int + d - 10) as char
  }

  function HexValue(c: char): (r: Option<nat>)
    ensures r.Some? ==> r.value < 16
  {
    if IsDigit(c) then Some(c as int - '0' as int)
    else if 'a' <= c <= 'f' then Some(c as int - 'a' as int + 10)
    else if 'A' <= c <= 'F' then Some(c as int - 'A' as int + 10)
    else None
  }

  function EscapeAscii(c: char): string
    requires c as int < 0x80
  {
    if c == '"' then "\\\"" else if c == '\\' then "\\\\"
    else if c as int == 8 then "\\b" else if c as int == 12 then "\\f"
    else if c == '\n' then "\\n" else if c == '\r' then "\\r" else if c == '\t' then "\\t"
    else if c as int < 0x20 || c == '<' || c == '>' || c == '&'
    then "\\u00" + [HexDigit(c as int / 16), HexDigit(c as int % 16)]
    else [c]
  }

  /** How many bytes of `s` the writer consumes at a time: a rune, or one bad byte. */
  function Advance(s: string): (n: nat)
    requires s != ""
    ensures 0 < n <= |s|
  {
    if Utf8.RuneLen(s) == 0 then 1 else Utf8.RuneLen(s)
  }

  predicate IsLineSeparator(s: string) {
    |s| >= 3 && s[0] as int == 0xE2 && s[1] as int == 0x80 && 0xA8 <= s[2] as int <= 0xA9
  }

  function EscapeHead(s: string): string
    requires s != ""
  {
    if Utf8.RuneLen(s) == 0 then "\\ufffd"
    else if Utf8.RuneLen(s) == 1 then EscapeAscii(s[0])
    else if IsLineSeparator(s) then "\\u202" + [HexDigit(s[2] as int % 16)]
    else s[..Utf8.RuneLen(s)]
  }

  function Escape(s: string): string {
    if s == "" then "" else EscapeHead(s) + Escape(s[Advance(s)..])
  }

  function Quote(s: string): string {
    "\"" + Escape(s) + "\""
  }

  datatype Piece = Piece(text: string, size: nat)

  /** The first character or escape of a string's inside, and how long its spelling is. */
  function UnescapeHead(t: string): (r: Option<Piece>)
    requires t != ""
    ensures r.Some? ==> 0 < r.value.size <= |t|
  {
    if t[0] == '\\' then
      if |t| < 2 then None
      else if t[1] == '"' || t[1] == '\\' || t[1] == '/' then Some(Piece([t[1]], 2))
      else if t[1] == 'b' then Some(Piece([8 as char], 2))
      else if t[1] == 'f' then Some(Piece([12 as char], 2))
      else if t[1] == 'n' then Some(Piece("\n", 2))
      else if t[1] == 'r' then Some(Piece("\r", 2))
      else if t[1] == 't' then Some(Piece("\t", 2))
      else if t[1] == 'u' && |t| >= 6
              && HexValue(t[2]).Some? && HexValue(t[3]).Some? && HexValue(t[4]).Some? && HexValue(t[5]).Some?
      then
        var cp := ((HexValue(t[2]).value * 16 + HexValue(t[3]).value) * 16
                   + HexValue(t[4]).value) * 16 + HexValue(t[5]).value;
        Some(Piece(Utf8.Encode(cp), 6))
      else None
    else if t[0] as int < 0x20 then None
    else if Utf8.RuneLen(t) == 0 then Some(Piece(Utf8.REPLACEMENT, 1))
    else Some(Piece(t[..Utf8.RuneLen(t)], Utf8.RuneLen(t)))
  }

  datatype Parsed<+T> = Parsed(value: T, rest: string)

  /** Reads up to and including the closing quote. */
  function ParseInside(t: string): (r: Option<Parsed<string>>)
    ensures r.Some? ==> |r.value.rest| < |t|
    decreases |t|
  {
    if t == "" then None
    else if t[0] == '"' then Some(Parsed("", t[1..]))
    else
      match UnescapeHead(t)
      case None => None
      case Some(p) =>
        match ParseInside(t[p.size..])
        case None => None
        case Some(tail) => Some(Parsed(p.text + tail.value, tail.rest))
  }

  function ParseString(t: string): (r: Option<Parsed<string>>)
    ensures r.Some? ==> |r.value.rest| < |t|
  {
    if t != "" && t[0] == '"' then ParseInside(t[1..]) else None
  }

  lemma AsciiHeadReads(c: char, tail: string)
    requires c as int < 0x80
    ensures EscapeAscii(c) != "" && EscapeAscii(c)[0] != '"'
    ensures UnescapeHead(EscapeAscii(c) + tail) == Some(Piece([c], |EscapeAscii(c)|))
  {
    var e := EscapeAscii(c);
    var t := e + tail;
    assert forall i :: 0 <= i < |e| ==> t[i] == e[i];
    if |e| == 6 {
      assert HexValue(t[4]) == Some(c as nat / 16) && HexValue(t[5]) == Some(c as nat % 16);
    } else if e == [c] {
      assert Utf8.RuneLen(t) == 1;
      assert t[..1] == [c];
    } else {
      assert e == "\\\"" || e == "\\\\" || e == "\\b" || e == "\\f" || e == "\\n" || e == "\\r" || e == "\\t";
    }
  }

  lemma HeadReads(s: string, tail: string)
    requires s != ""
    ensures EscapeHead(s) != "" && EscapeHead(s)[0] != '"'
    ensures UnescapeHead(EscapeHead(s) + tail)
         == Some(Piece(if Utf8.RuneLen(s) == 0 then Utf8.REPLACEMENT else s[..Utf8.RuneLen(s)], |EscapeHead(s)|))
  {
    var e := EscapeHead(s);
    var t := e + tail;
    var n := Utf8.RuneLen(s);
    assert forall i :: 0 <= i < |e| ==> t[i] == e[i];
    if n == 1 {
      AsciiHeadReads(s[0], tail);
      assert s[..1] == [s[0]];
    } else if n == 0 {
      assert e == "\\ufffd";
      assert Utf8.Encode(0xFFFD) == Utf8.REPLACEMENT;
    } else if IsLineSeparator(s) {
      assert HexValue(t[5]) == Some(s[2] as nat % 16);
      assert s[..3] == [s[0], s[1], s[2]];
      assert Utf8.Encode(0x2020 + s[2] as nat % 16) == s[..3];
    } else {
      Utf8.RuneLenLocal(s, tail);
      assert t[..n] == s[..n];
    }
  }

  lemma InsideStep(e: string, p: string, tail: string)
    requires e != "" && e[0] != '"' && UnescapeHead(e + tail) == Some(Piece(p, |e|))
    ensures ParseInside(e + tail)
         == match ParseInside(tail)
            case None => None
            case Some(more) => Some(Parsed(p + more.value, more.rest))
  {
    hide UnescapeHead;
    assert (e + tail)[0] == e[0] && (e + tail)[|e|..] == tail;
  }

  /** A written string reads back as its sanitised form, whatever follows it. */
  lemma {:induction false} InsideReads(s: string, rest: string)
    ensures ParseInside(Escape(s) + "\"" + rest) == Some(Parsed(Utf8.Sanitize(s), rest))
  {
    hide UnescapeHead, EscapeHead, Utf8.RuneLen;
    if s == "" {
      assert Escape(s) + "\"" + rest == "\"" + rest;
      assert ("\"" + rest)[1..] == rest;
    } else {
      var e, inner := EscapeHead(s), Escape(s[Advance(s)..]);
      InsideReads(s[Advance(s)..], rest);
      HeadReads(s, inner + "\"" + rest);
      InsideStep(e, if Utf8.RuneLen(s) == 0 then Utf8.REPLACEMENT else s[..Utf8.RuneLen(s)], inner + "\"" + rest);
      Regroup(e, inner, "\"");
      Regroup(e, inner + "\"", rest);
    }
  }

  lemma StringReads(s: string, rest: string)
    ensures ParseString(Quote(s) + rest) == Some(Parsed(Utf8.Sanitize(s), rest))
  {
    hide ParseInside, Escape, Utf8.Sanitize;
    InsideReads(s, rest);
    assert (Quote(s) + rest)[1..] == Escape(s) + "\"" + rest;
  }

  /** Bytes, and no raw newline among them. */
  predicate OneLine(s: string) {
    forall i :: 0 <= i < |s| ==> s[i] != '\n' && s[i] as int < 0x100
  }

  /** An escaped string holds no raw newline. */
  lemma {:induction false} EscapeOneLine(s: string)
    ensures OneLine(Escape(s))
  {
    if s != "" {
      var head := EscapeHead(s);
      assert OneLine(head);
      EscapeOneLine(s[Advance(s)..]);
    }
  }

  lemma QuoteShape(s: string)
    ensures Quote(s) != "" && Quote(s)[0] == '"' && OneLine(Quote(s))
  {
    EscapeOneLine(s);
  }

  // ---- Integers ----

  function Signed(n: int): string {
    if n < 0 then "-" + Dec(-n) else Dec(n)
  }

  function ParseNat(t: string): (r: Option<Parsed<nat>>)
    ensures r.Some? ==> |r.value.rest| < |t|
  {
    var n := DigitRun(t);
    if n == 0 || (n > 1 && t[0] == '0') then None else Some(Parsed(Text.Value(t[..n]), t[n..]))
  }

  function ParseInt(t: string): (r: Option<Parsed<int>>)
    ensures r.Some? ==> |r.value.rest| < |t|
  {
    var negative := t != "" && t[0] == '-';
    match ParseNat(if negative then t[1..] else t)
    case None => None
    case Some(p) =>
      var n: int := if negative then 0 - p.value else p.value;
      Some(Parsed(n, p.rest))
  }

  predicate NoDigit(rest: string) {
    rest == "" || !IsDigit(rest[0])
  }

  lemma {:induction false} DecLeading(n: nat)
    ensures |Dec(n)| > 1 ==> Dec(n)[0] != '0'
  {
    if n >= 10 {
      DecLeading(n / 10);
    }
  }

  lemma NatReads(n: nat, rest: string)
    requires NoDigit(rest)
    ensures ParseNat(Dec(n) + rest) == Some(Parsed(n, rest))
  {
    var t := Dec(n) + rest;
    var k := DigitRun(t);
    DecLeading(n);
    assert forall i :: 0 <= i < |Dec(n)| ==> t[i] == Dec(n)[i];
    assert forall i :: 0 <= i < k ==> IsDigit(t[i]) by {
      assert forall i :: 0 <= i < k ==> t[..k][i] == t[i];
    }
    assert rest != "" ==> t[|Dec(n)|] == rest[0];
    assert k == |Dec(n)|;
    assert t[..k] == Dec(n) && t[k..] == rest;
  }

  lemma IntReads(n: int, rest: string)
    requires NoDigit(rest)
    ensures ParseInt(Signed(n) + rest) == Some(Parsed(n, rest))
  {
    hide Dec, ParseNat, Text.Value;
    if n < 0 {
      NatReads(-n, rest);
      assert (Signed(n) + rest)[1..] == Dec(-n) + rest;
    } else {
      NatReads(n, rest);
      assert IsDigit((Signed(n) + rest)[0]);
    }
  }

  // ---- Arrays of strings ----

  function Items(items: seq<string>): string
    requires items != []
  {
    Quote(items[0]) + if |items| == 1 then "]" else "," + Items(items[1..])
  }

  function ParseItems(t: string): (r: Option<Parsed<seq<string>>>)
    ensures r.Some? ==> |r.value.rest| < |t|
    decreases |t|
  {
    match ParseString(t)
    case None => None
    case Some(p) =>
      if p.rest != "" && p.rest[0] == ']' then Some(Parsed([p.value], p.rest[1..]))
      else if p.rest != "" && p.rest[0] == ',' then
        match ParseItems(p.rest[1..])
        case None => None
        case Some(tail) => Some(Parsed([p.value] + tail.value, tail.rest))
      else None
  }

  function SanitizeAll(items: seq<string>): (r: seq<string>)
    ensures |r| == |items| && forall i :: 0 <= i < |r| ==> r[i] == Utf8.Sanitize(items[i])
  {
    seq(|items|, i requires 0 <= i < |items| => Utf8.Sanitize(items[i]))
  }

  lemma {:induction false} ItemsRead(items: seq<string>, rest: string)
    requires items != []
    ensures ParseItems(Items(items) + rest) == Some(Parsed(SanitizeAll(items), rest))
  {
    hide ParseString, Quote, SanitizeAll, Utf8.Sanitize;
    var tail := if |items| == 1 then "]" else "," + Items(items[1..]);
    var end := tail + rest;
    Regroup(Quote(items[0]), tail, rest);
    StringReads(items[0], end);
    if |items| == 1 {
      assert end[1..] == rest;
      assert SanitizeAll(items) == [Utf8.Sanitize(items[0])];
    } else {
      ItemsRead(items[1..], rest);
      assert end[1..] == Items(items[1..]) + rest;
      assert SanitizeAll(items) == [Utf8.Sanitize(items[0])] + SanitizeAll(items[1..]);
    }
  }

  // ---- Values and objects ----

  function Write(v: Value): string {
    match v
    case Str(s) => Quote(s)
    case Num(n) => Signed(n)
    case Bool(b) => if b then "true" else "false"
    case Strs(items) => if items == [] then "[]" else "[" + Items(items)
  }

  function ParseValue(t: string): (r: Option<Parsed<Value>>)
    ensures r.Some? ==> |r.value.rest| < |t|
  {
    if t == "" then None
    else if t[0] == '"' then
      match ParseString(t)
      case None => None
      case Some(p) => Some(Parsed(Str(p.value), p.rest))
    else if HasPrefix(t, "true") then Some(Parsed(Bool(true), t[4..]))
    else if HasPrefix(t, "false") then Some(Parsed(Bool(false), t[5..]))
    else if HasPrefix(t, "[]") then Some(Parsed(Strs([]), t[2..]))
    else if t[0] == '[' then
      match ParseItems(t[1..])
      case None => None
      case Some(p) => Some(Parsed(Strs(p.value), p.rest))
    else
      match ParseInt(t)
      case None => None
      case Some(p) => Some(Parsed(Num(p.value), p.rest))
  }

  function Clean(v: Value): Value {
    match v
    case Str(s) => Str(Utf8.Sanitize(s))
    case Strs(items) => Strs(SanitizeAll(items))
    case _ => v
  }

  lemma ItemsShape(items: seq<string>)
    requires items != []
    ensures Items(items) != "" && Items(items)[0] == '"'
  {
    QuoteShape(items[0]);
  }

  lemma ValueReads(v: Value, rest: string)
    requires NoDigit(rest)
    ensures ParseValue(Write(v) + rest) == Some(Parsed(Clean(v), rest))
  {
    hide ParseString, ParseInt, ParseItems, Dec, Items, Quote, SanitizeAll, Utf8.Sanitize;
    var t := Write(v) + rest;
    match v
    case Str(s) =>
      StringReads(s, rest);
      QuoteShape(s);
      assert t[0] == '"';
    case Num(n) =>
      IntReads(n, rest);
      assert t[0] == '-' || IsDigit(t[0]);
    case Bool(b) =>
      assert t[..if b then 4 else 5] == Write(v);
      assert t[if b then 4 else 5..] == rest;
      assert !b ==> t[0] == 'f';
    case Strs(items) =>
      if items == [] {
        assert t[..2] == "[]" && t[2..] == rest;
        assert t[0] == '[';
        assert Clean(v) == Strs([]);
      } else {
        ItemsRead(items, rest);
        assert t[1..] == Items(items) + rest;
        ItemsShape(items);
        assert t[1] == Items(items)[0];
      }
  }

  function Members(o: Object): string
    requires o != []
  {
    Quote(o[0].name) + ":" + Write(o[0].value) + if |o| == 1 then "}" else "," + Members(o[1..])
  }

  /** `json.Marshal` of a struct, given the members that are not omitted. */
  function Marshal(o: Object): string
    requires o != []
  {
    "{" + Members(o)
  }

  function ParseMembers(t: string): (r: Option<Parsed<Object>>)
    ensures r.Some? ==> |r.value.rest| < |t|
    decreases |t|
  {
    match ParseString(t)
    case None => None
    case Some(k) =>
      if k.rest == "" || k.rest[0] != ':' then None
      else
        match ParseValue(k.rest[1..])
        case None => None
        case Some(v) =>
          if v.rest != "" && v.rest[0] == '}' then Some(Parsed([Member(k.value, v.value)], v.rest[1..]))
          else if v.rest != "" && v.rest[0] == ',' then
            match ParseMembers(v.rest[1..])
            case None => None
            case Some(tail) => Some(Parsed([Member(k.value, v.value)] + tail.value, tail.rest))
          else None
  }

  /** `json.Unmarshal` of one object with nothing after it. */
  function Unmarshal(t: string): Option<Object> {
    if t == "{}" then Some([])
    else if t != "" && t[0] == '{' then
      match ParseMembers(t[1..])
      case None => None
      case Some(p) => if p.rest == "" then Some(p.value) else None
    else None
  }

  function CleanAll(o: Object): (r: Object)
    ensures |r| == |o|
    ensures forall i :: 0 <= i < |o| ==> r[i] == Member(Utf8.Sanitize(o[i].name), Clean(o[i].value))
  {
    seq(|o|, i requires 0 <= i < |o| => Member(Utf8.Sanitize(o[i].name), Clean(o[i].value)))
  }

  /** One member and what follows it, as the reader steps over them. */
  lemma MemberReads(m: Member, end: string)
    requires end != "" && (end[0] == '}' || end[0] == ',')
    ensures ParseMembers(Quote(m.name) + ":" + Write(m.value) + end)
         == var head := Member(Utf8.Sanitize(m.name), Clean(m.value));
            if end[0] == '}' then Some(Parsed([head], end[1..]))
            else match ParseMembers(end[1..])
                 case None => None
                 case Some(tail) => Some(Parsed([head] + tail.value, tail.rest))
  {
    hide ParseString, ParseValue, Quote, Write, Clean, Utf8.Sanitize;
    var value := Write(m.value) + end;
    Regroup(Quote(m.name) + ":", Write(m.value), end);
    Regroup(Quote(m.name), ":", value);
    StringReads(m.name, ":" + value);
    assert (":" + value)[1..] == value;
    ValueReads(m.value, end);
  }

  lemma CleanCons(o: Object)
    requires o != []
    ensures CleanAll(o) == [Member(Utf8.Sanitize(o[0].name), Clean(o[0].value))] + CleanAll(o[1..])
    ensures CleanAll([]) == []
  {
  }

  lemma {:induction false} ItemsOneLine(items: seq<string>)
    requires items != []
    ensures OneLine(Items(items))
  {
    hide Quote;
    QuoteShape(items[0]);
    if |items| > 1 {
      ItemsOneLine(items[1..]);
    }
  }

  lemma WriteOneLine(v: Value)
    ensures OneLine(Write(v))
  {
    hide Quote, Dec, Items;
    match v
    case Str(s) => QuoteShape(s);
    case Strs(items) => if items != [] { ItemsOneLine(items); }
    case _ =>
  }

  lemma {:induction false} MembersOneLine(o: Object)
    requires o != []
    ensures OneLine(Members(o))
  {
    hide Quote, Write;
    QuoteShape(o[0].name);
    WriteOneLine(o[0].value);
    if |o| > 1 {
      MembersOneLine(o[1..]);
    }
  }

  lemma {:induction false} MembersRead(o: Object, rest: string)
    requires o != []
    ensures ParseMembers(Members(o) + rest) == Some(Parsed(CleanAll(o), rest))
  {
    hide ParseMembers, Quote, Write, Clean, CleanAll, Utf8.Sanitize;
    var head := Quote(o[0].name) + ":" + Write(o[0].value);
    CleanCons(o);
    if |o| == 1 {
      MemberReads(o[0], "}" + rest);
      Regroup(head, "}", rest);
      assert o[1..] == [];
      assert CleanAll(o) == [Member(Utf8.Sanitize(o[0].name), Clean(o[0].value))];
      assert ("}" + rest)[1..] == rest;
    } else {
      var more := Members(o[1..]);
      MembersRead(o[1..], rest);
      MemberReads(o[0], "," + more + rest);
      Regroup(head, "," + more, rest);
      assert ("," + more + rest)[1..] == more + rest;
    }
  }

  /** Reading a written object returns it with its strings sanitised, and it is one line. */
  lemma MarshalReads(o: Object)
    requires o != []
    ensures Unmarshal(Marshal(o)) == Some(CleanAll(o))
    ensures OneLine(Marshal(o))
  {
    MembersRead(o, "");
    MembersOneLine(o);
    assert Members(o) + "" == Members(o);
    assert Marshal(o)[1..] == Members(o);
    assert Marshal(o)[1] == '"';
  }

  // ---- Field access ----

  /** The value of a field: the last member of that name, as Unmarshal leaves it. */
  function Find(o: Object, name: string): Option<Value> {
    if o == [] then None
    else if o[|o| - 1].name == name then Some(o[|o| - 1].value)
    else Find(o[..|o| - 1], name)
  }

  /** A string field; absent means "", another type is an error. */
  function FindStr(o: Object, name: string): Option<string> {
    match Find(o, name)
    case None => Some("")
    case Some(Str(s)) => Some(s)
    case _ => None
  }

  /** An integer field bounded like its Go type; absent means 0. */
  function FindNum(o: Object, name: string, lo: int, hi: int): Option<int> {
    match Find(o, name)
    case None => Some(0)
    case Some(Num(n)) => if lo <= n < hi then Some(n) else None
    case _ => None
  }

  function FindBool(o: Object, name: string): Option<bool> {
    match Find(o, name)
    case None => Some(false)
    case Some(Bool(b)) => Some(b)
    case _ => None
  }

  function FindStrs(o: Object, name: string): Option<seq<string>> {
    match Find(o, name)
    case None => Some([])
    case Some(Strs(items)) => Some(items)
    case _ => None
  }

  /** How `encoding/json` spells what it does not copy: quotes, control characters, HTML characters. */
  lemma EscapesExactly(c: char)
    requires c as int < 0x80
    ensures EscapeAscii('"') == "\\\"" && EscapeAscii('\\') == "\\\\"
    ensures EscapeAscii('\n') == "\\n" && EscapeAscii('\r') == "\\r" && EscapeAscii('\t') == "\\t"
    ensures EscapeAscii(8 as char) == "\\b" && EscapeAscii(12 as char) == "\\f"
    ensures EscapeAscii('<') == "\\u003c" && EscapeAscii('>') == "\\u003e" && EscapeAscii('&') == "\\u0026"
    ensures EscapeAscii(0 as char) == "\\u0000" && EscapeAscii(31 as char) == "\\u001f"
    ensures c as int >= 0x20 && c != '"' && c != '\\' && c != '<' && c != '>' && c != '&' ==> EscapeAscii(c) == [c]
  {
  }

  /** The line separators of Unicode, and a byte of no rune. */
  lemma HeadsExactly(rest: string)
    ensures EscapeHead([0xE2 as char, 0x80 as char, 0xA8 as char] + rest) == "\\u2028"
    ensures EscapeHead([0xE2 as char, 0x80 as char, 0xA9 as char] + rest) == "\\u2029"
    ensures EscapeHead([0xFF as char] + rest) == "\\ufffd"
  {
    var a, b, c := [0xE2 as char, 0x80 as char, 0xA8 as char] + rest, [0xE2 as char, 0x80 as char, 0xA9 as char] + rest,
      [0xFF as char] + rest;
    assert a[0] as int == 0xE2 && a[1] as int == 0x80 && a[2] as int == 0xA8;
    assert b[0] as int == 0xE2 && b[1] as int == 0x80 && b[2] as int == 0xA9;
    assert c[0] as int == 0xFF;
  }

  /** An object, written out. */
  lemma MarshalExample()
    ensures Marshal([Member("a", Num(5)), Member("b", Str("x"))]) == "{\"a\":5,\"b\":\"x\"}"
  {
    hide Write;
    OneLetter("a");
    OneLetter("b");
    assert Write(Num(5)) == "5" by { WritesFive(); }
    assert Write(Str("x")) == "\"x\"" by { OneLetter("x"); WritesText("x"); }
    var o := [Member("a", Num(5)), Member("b", Str("x"))];
    assert o[1..] == [Member("b", Str("x"))];
  }

  lemma WritesFive()
    ensures Write(Num(5)) == "5"
  {
  }

  lemma WritesText(s: string)
    ensures Write(Str(s)) == Quote(s)
  {
  }

  lemma OneLetter(s: string)
    requires |s| == 1 && 'a' <= s[0] <= 'z'
    ensures Quote(s) == "\"" + s + "\""
  {
    assert s[1..] == "" && Escape("") == "";
    assert Utf8.RuneLen(s) == 1 && EscapeHead(s) == [s[0]];
    assert Escape(s) == s;
  }
}
