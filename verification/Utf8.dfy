/**
 UTF-8 as Go's `unicode/utf8` decodes it, and what JSON encoding does to a byte string
 that is not UTF-8.
 */
module Utf8 {

  predicate Within(c: char, lo: int, hi: int) {
    lo <= c as int <= hi
  }

  /** The length of the well-formed rune at the front of `s`, or 0 when there is none. */
  function RuneLen(s: string): (n: nat)
    requires s != ""
    ensures n <= |s| && n <= 4
  {
    var b := s[0];
    if Within(b, 0, 0x7F) then 1
    else if Within(b, 0xC2, 0xDF) then
      if |s| >= 2 && Within(s[1], 0x80, 0xBF) then 2 else 0
    else if Within(b, 0xE0, 0xEF) then
      if |s| >= 3
         && Within(s[1], if b as int == 0xE0 then 0xA0 else 0x80, if b as int == 0xED then 0x9F else 0xBF)
         && Within(s[2], 0x80, 0xBF)
      then 3 else 0
    else if Within(b, 0xF0, 0xF4) then
      if |s| >= 4
         && Within(s[1], if b as int == 0xF0 then 0x90 else 0x80, if b as int == 0xF4 then 0x8F else 0xBF)
         && Within(s[2], 0x80, 0xBF) && Within(s[3], 0x80, 0xBF)
      then 4 else 0
    else 0
  }

  /** Whether the whole of `s` is well-formed UTF-8. */
  predicate Valid(s: string) {
    s == "" || (RuneLen(s) > 0 && Valid(s[RuneLen(s)..]))
  }

  /** U+FFFD, the replacement character, as UTF-8. */
  const REPLACEMENT: string := [0xEF as char, 0xBF as char, 0xBD as char]

  /** `s` with each byte that is not part of a well-formed rune replaced by U+FFFD. */
  function Sanitize(s: string): string {
    if s == "" then ""
    else if RuneLen(s) == 0 then REPLACEMENT + Sanitize(s[1..])
    else s[..RuneLen(s)] + Sanitize(s[RuneLen(s)..])
  }

  /** A Unicode scalar value: a code point that is no surrogate. */
  predicate Scalar(cp: nat) {
    cp < 0x110000 && !(0xD800 <= cp < 0xE000)
  }

  /** The UTF-8 form of a scalar value, section 3 of RFC 3629. */
  function Form(cp: nat): string
    requires Scalar(cp)
  {
    if cp < 0x80 then [cp as char]
    else if cp < 0x800 then [(0xC0 + cp / 64) as char, (0x80 + cp % 64) as char]
    else if cp < 0x10000 then
      [(0xE0 + cp / 4096) as char, (0x80 + cp / 64 % 64) as char, (0x80 + cp % 64) as char]
    else
      [(0xF0 + cp / 262144) as char, (0x80 + cp / 4096 % 64) as char,
       (0x80 + cp / 64 % 64) as char, (0x80 + cp % 64) as char]
  }

  /** What a `\u` escape of one code point stands for; half of a surrogate pair becomes U+FFFD. */
  function Encode(cp: nat): string
    requires cp < 0x10000
  {
    if Scalar(cp) then Form(cp) else REPLACEMENT
  }

  /** Only the rune's own bytes decide its length, so it decodes the same in any context. */
  lemma RuneLenLocal(s: string, t: string)
    requires s != "" && RuneLen(s) > 0
    ensures RuneLen(s[..RuneLen(s)] + t) == RuneLen(s)
  {
    var n := RuneLen(s);
    var u := s[..n] + t;
    assert forall i :: 0 <= i < n ==> u[i] == s[i];
  }

  lemma {:induction false} SanitizeGrows(s: string)
    ensures |Sanitize(s)| >= |s|
    ensures !Valid(s) ==> |Sanitize(s)| > |s|
  {
    if s != "" {
      SanitizeGrows(if RuneLen(s) == 0 then s[1..] else s[RuneLen(s)..]);
    }
  }

  /** Sanitising changes nothing exactly on well-formed UTF-8. */
  lemma {:induction false} SanitizeFixesExactlyValid(s: string)
    ensures Sanitize(s) == s <==> Valid(s)
  {
    SanitizeGrows(s);
    if s != "" && Valid(s) {
      SanitizeFixesExactlyValid(s[RuneLen(s)..]);
      assert s == s[..RuneLen(s)] + s[RuneLen(s)..];
    }
  }

  /** What sanitising makes is well-formed. */
  lemma {:induction false} SanitizeValid(s: string)
    ensures Valid(Sanitize(s))
  {
    if s != "" {
      var n := RuneLen(s);
      var head, rest := if n == 0 then REPLACEMENT else s[..n], Sanitize(if n == 0 then s[1..] else s[n..]);
      SanitizeValid(if n == 0 then s[1..] else s[n..]);
      if n > 0 { RuneLenLocal(s, rest); }
      assert RuneLen(head + rest) == |head| && (head + rest)[|head|..] == rest;
    }
  }

  lemma {:induction false} AsciiValid(s: string)
    requires forall i :: 0 <= i < |s| ==> s[i] as int < 0x80
    ensures Valid(s)
  {
    if s != "" {
      AsciiValid(s[1..]);
    }
  }

  lemma SanitizeAscii(s: string)
    requires forall i :: 0 <= i < |s| ==> s[i] as int < 0x80
    ensures Sanitize(s) == s
  {
    AsciiValid(s);
    SanitizeFixesExactlyValid(s);
  }

  // ---- What well-formed means ----

  lemma TwoBytes(a: nat, b: nat) returns (cp: nat)
    requires 0xC2 <= a <= 0xDF && 0x80 <= b <= 0xBF
    ensures Scalar(cp) && Form(cp) == [a as char, b as char]
  {
    cp := (a - 0xC0) * 64 + (b - 0x80);
  }

  lemma ThreeBytes(a: nat, b: nat, c: nat) returns (cp: nat)
    requires 0xE0 <= a <= 0xEF && 0x80 <= b <= 0xBF && 0x80 <= c <= 0xBF
    requires (a == 0xE0 ==> b >= 0xA0) && (a == 0xED ==> b <= 0x9F)
    ensures Scalar(cp) && Form(cp) == [a as char, b as char, c as char]
  {
    cp := (a - 0xE0) * 4096 + (b - 0x80) * 64 + (c - 0x80);
    assert cp / 64 == (a - 0xE0) * 64 + (b - 0x80);
  }

  lemma FourBytes(a: nat, b: nat, c: nat, d: nat) returns (cp: nat)
    requires 0xF0 <= a <= 0xF4 && 0x80 <= b <= 0xBF && 0x80 <= c <= 0xBF && 0x80 <= d <= 0xBF
    requires (a == 0xF0 ==> b >= 0x90) && (a == 0xF4 ==> b <= 0x8F)
    ensures Scalar(cp) && Form(cp) == [a as char, b as char, c as char, d as char]
  {
    cp := (a - 0xF0) * 262144 + (b - 0x80) * 4096 + (c - 0x80) * 64 + (d - 0x80);
    assert cp / 64 == (a - 0xF0) * 4096 + (b - 0x80) * 64 + (c - 0x80);
    assert cp / 4096 == (a - 0xF0) * 64 + (b - 0x80);
  }

  /** A rune at the front of a string is the form of a scalar value. */
  lemma RuneHasForm(s: string) returns (cp: nat)
    requires s != "" && RuneLen(s) > 0
    ensures Scalar(cp) && Form(cp) == s[..RuneLen(s)]
  {
    hide Form;
    var n := RuneLen(s);
    if n == 1 {
      cp := s[0] as nat;
      OneByte(cp);
      assert s[..1] == [s[0]];
    } else if n == 2 {
      cp := TwoBytes(s[0] as nat, s[1] as nat);
      assert s[..2] == [s[0], s[1]];
    } else if n == 3 {
      cp := ThreeBytes(s[0] as nat, s[1] as nat, s[2] as nat);
      assert s[..3] == [s[0], s[1], s[2]];
    } else {
      cp := FourBytes(s[0] as nat, s[1] as nat, s[2] as nat, s[3] as nat);
      assert s[..4] == [s[0], s[1], s[2], s[3]];
    }
  }

  lemma OneByte(cp: nat)
    requires cp < 0x80
    ensures Scalar(cp) && Form(cp) == [cp as char]
  {
  }

  /** And every form of a scalar value is a rune. */
  lemma FormIsRune(cp: nat, t: string)
    requires Scalar(cp)
    ensures RuneLen(Form(cp) + t) == |Form(cp)|
  {
    var u := Form(cp) + t;
    assert forall i :: 0 <= i < |Form(cp)| ==> u[i] == Form(cp)[i];
  }

  /** Each byte that belongs to no rune becomes EF BF BD, one for one. */
  lemma SanitizeExamples()
    ensures var bad := [0xEF as char, 0xBF as char, 0xBD as char];
            && Sanitize([0xFF as char, 0xFE as char]) == bad + bad
            && Sanitize([0xE2 as char, 0x82 as char, 'A']) == bad + bad + "A"
  {
    var a, b := [0xFF as char, 0xFE as char], [0xFE as char];
    assert a[1..] == b && b[1..] == "";
    assert RuneLen(a) == 0 && RuneLen(b) == 0 && Sanitize("") == "";
    assert Sanitize(b) == REPLACEMENT + "";
    var x, y, z := [0xE2 as char, 0x82 as char, 'A'], [0x82 as char, 'A'], ['A'];
    assert x[1..] == y && y[1..] == z && z[1..] == "" && z[..1] == z;
    assert RuneLen(x) == 0 && RuneLen(y) == 0 && RuneLen(z) == 1;
    assert Sanitize(z) == z + "";
    assert Sanitize(y) == REPLACEMENT + z;
  }
}
