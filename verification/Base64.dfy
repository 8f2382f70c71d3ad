/** Unpadded base64url, section 5 of RFC 4648, as Go's `base64.RawURLEncoding` does it. */
module Base64 {
  import opened Text

  predicate AllBytes(s: string) {
    forall i :: 0 <= i < |s| ==> s[i] as int < 0x100
  }

  function Digit64(v: nat): (c: char)
    requires v < 64
    ensures Value64(c) == Some(v)
  {
    if v < 26 then ('A' as int + v) as char
    else if v < 52 then ('a' as int + v - 26) as char
    else if v < 62 then ('0' as int + v - 52) as char
    else if v == 62 then '-' else '_'
  }

  function Value64(c: char): (r: Option<nat>)
    ensures r.Some? ==> r.value < 64
  {
    if 'A' <= c <= 'Z' then Some(c as int - 'A' as int)
    else if 'a' <= c <= 'z' then Some(c as int - 'a' as int + 26)
    else if '0' <= c <= '9' then Some(c as int - '0' as int + 52)
    else if c == '-' then Some(62) else if c == '_' then Some(63) else None
  }

  /** `EncodeToString`. */
  function Encode(s: string): string
    requires AllBytes(s)
  {
    if s == "" then ""
    else
      var a := s[0] as nat;
      if |s| == 1 then [Digit64(a / 4), Digit64(a % 4 * 16)]
      else
        var b := s[1] as nat;
        if |s| == 2 then [Digit64(a / 4), Digit64(a % 4 * 16 + b / 16), Digit64(b % 16 * 4)]
        else
          var c := s[2] as nat;
          [Digit64(a / 4), Digit64(a % 4 * 16 + b / 16), Digit64(b % 16 * 4 + c / 64), Digit64(c % 64)] + Encode(s[3..])
  }

  /** Decoding of text without line breaks: groups of four digits, and a last one of two or three. */
  function DecodeGroups(t: string): Option<string> {
    if t == "" then Some("")
    else if |t| == 1 || Value64(t[0]).None? || Value64(t[1]).None? then None
    else
      var v, w := Value64(t[0]).value, Value64(t[1]).value;
      if |t| == 2 then Some([(v * 4 + w / 16) as char])
      else if Value64(t[2]).None? then None
      else
        var x := Value64(t[2]).value;
        if |t| == 3 then Some([(v * 4 + w / 16) as char, (w % 16 * 16 + x / 4) as char])
        else if Value64(t[3]).None? then None
        else
          var rest := DecodeGroups(t[4..]);
          if rest.None? then None
          else
            Some([(v * 4 + w / 16) as char, (w % 16 * 16 + x / 4) as char, (x % 4 * 64 + Value64(t[3]).value) as char]
              + rest.value)
  }

  function StripBreaks(t: string): string {
    if t == "" then ""
    else if t[0] == '\n' || t[0] == '\r' then StripBreaks(t[1..])
    else [t[0]] + StripBreaks(t[1..])
  }

  /** `DecodeString`, which passes over line breaks; None stands for its error. */
  function Decode(t: string): Option<string> {
    DecodeGroups(StripBreaks(t))
  }

  /** Three bytes survive being cut into four digits. */
  lemma CutAndJoin(a: nat, b: nat, c: nat)
    requires a < 256 && b < 256 && c < 256
    ensures var w, x := a % 4 * 16 + b / 16, b % 16 * 4 + c / 64;
            && a / 4 < 64 && w < 64 && x < 64 && c % 64 < 64
            && a / 4 * 4 + w / 16 == a && w % 16 * 16 + x / 4 == b && x % 4 * 64 + c % 64 == c
  {
  }

  lemma FourDigits(v: nat, w: nat, x: nat, y: nat, rest: string)
    requires v < 64 && w < 64 && x < 64 && y < 64 && DecodeGroups(rest).Some?
    ensures DecodeGroups([Digit64(v), Digit64(w), Digit64(x), Digit64(y)] + rest)
         == Some([(v * 4 + w / 16) as char, (w % 16 * 16 + x / 4) as char, (x % 4 * 64 + y) as char]
           + DecodeGroups(rest).value)
  {
    hide Digit64, Value64;
    var t := [Digit64(v), Digit64(w), Digit64(x), Digit64(y)] + rest;
    assert t[4..] == rest;
  }

  lemma FewDigits(v: nat, w: nat, x: nat)
    requires v < 64 && w < 64 && x < 64
    ensures DecodeGroups([Digit64(v), Digit64(w)]) == Some([(v * 4 + w / 16) as char])
    ensures DecodeGroups([Digit64(v), Digit64(w), Digit64(x)])
         == Some([(v * 4 + w / 16) as char, (w % 16 * 16 + x / 4) as char])
  {
    hide Digit64, Value64;
  }

  /** The last group of one or two bytes. */
  lemma LastGroup(s: string)
    requires AllBytes(s) && 1 <= |s| <= 2
    ensures DecodeGroups(Encode(s)) == Some(s)
  {
    hide Digit64, Value64, DecodeGroups;
    var a := s[0] as nat;
    if |s| == 1 {
      CutAndJoin(a, 0, 0);
      FewDigits(a / 4, a % 4 * 16, 0);
      assert s == [a as char];
    } else {
      var b := s[1] as nat;
      CutAndJoin(a, b, 0);
      FewDigits(a / 4, a % 4 * 16 + b / 16, b % 16 * 4);
      assert s == [a as char, b as char];
    }
  }

  lemma {:induction false} GroupsDecode(s: string)
    requires AllBytes(s)
    ensures DecodeGroups(Encode(s)) == Some(s)
  {
    hide Digit64, Value64, DecodeGroups;
    if |s| >= 3 {
      var a, b, c, rest := s[0] as nat, s[1] as nat, s[2] as nat, Encode(s[3..]);
      GroupsDecode(s[3..]);
      CutAndJoin(a, b, c);
      FourDigits(a / 4, a % 4 * 16 + b / 16, b % 16 * 4 + c / 64, c % 64, rest);
      assert s == [a as char, b as char, c as char] + s[3..];
    } else if |s| > 0 {
      LastGroup(s);
    } else {
      EmptyDecodes();
    }
  }

  lemma EmptyDecodes()
    ensures DecodeGroups("") == Some("")
  {
  }

  /** Encoded text is digits of the alphabet: no separator and no line break among them. */
  lemma {:induction false} EncodeAlphabet(s: string)
    requires AllBytes(s)
    ensures forall i :: 0 <= i < |Encode(s)| ==> Value64(Encode(s)[i]).Some?
  {
    if |s| >= 3 {
      EncodeAlphabet(s[3..]);
    }
  }

  lemma {:induction false} NothingToStrip(t: string)
    requires forall i :: 0 <= i < |t| ==> Value64(t[i]).Some?
    ensures StripBreaks(t) == t
  {
    if t != "" {
      NothingToStrip(t[1..]);
    }
  }

  /** Decoding inverts encoding, for byte strings of every length. */
  lemma RoundTrip(s: string)
    requires AllBytes(s)
    ensures Decode(Encode(s)) == Some(s) && '.' !in Encode(s)
  {
    hide Encode, DecodeGroups, StripBreaks;
    EncodeAlphabet(s);
    NothingToStrip(Encode(s));
    GroupsDecode(s);
  }

  /** Single bytes and both digits that are not letters or numbers, as section 5 of RFC 4648 has them. */
  lemma Examples()
    ensures Encode("M") == "TQ" && Encode("Ma") == "TWE" && Encode("Man") == "TWFu"
    ensures Encode([0xFB as char, 0xEF as char, 0xBE as char]) == "----"
    ensures Encode([0xFF as char, 0xFF as char, 0xFF as char]) == "____"
  {
    assert "Man"[3..] == "" && Encode("") == "";
    assert [0xFB as char, 0xEF as char, 0xBE as char][3..] == "";
    assert [0xFF as char, 0xFF as char, 0xFF as char][3..] == "";
  }
}
