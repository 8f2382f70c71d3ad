/**
 Strings as the relay's Go code sees them: one `char` per byte, compared byte by byte.
 Decimal numerals, fixed-width numerals, the string order `sort.Strings` uses, and the
 splitting and trimming the configuration and token parsers rely on.
 */
module Text {

  datatype Option<+T> = None | Some(value: T)

  const UINT64_LIMIT: int := 0x1_0000_0000_0000_0000
  const INT64_LIMIT: int := 0x8000_0000_0000_0000

  predicate HasPrefix(s: string, p: string) {
    p <= s
  }

  predicate HasSuffix(s: string, p: string) {
    |p| <= |s| && s[|s| - |p|..] == p
  }

  // ---- Decimal numerals ----

  predicate IsDigit(c: char) {
    '0' <= c <= '9'
  }

  predicate AllDigits(s: string) {
    forall i :: 0 <= i < |s| ==> IsDigit(s[i])
  }

  function Digit(d: nat): (c: char)
    requires d < 10
    ensures IsDigit(c) && c as int - '0' as int == d
  {
    ('0' as int + d) as char
  }

  /** The number a string of digits denotes, however long it is. */
  function Value(s: string): nat
    requires AllDigits(s)
  {
    if s == "" then 0 else 10 * Value(s[..|s| - 1]) + (s[|s| - 1] as int - '0' as int)
  }

  /** `strconv.FormatUint(n, 10)`. */
  function Dec(n: nat): (s: string)
    ensures s != "" && AllDigits(s) && Value(s) == n
    ensures s[0] == '0' ==> n == 0 && s == "0"
  {
    if n < 10 then [Digit(n)] else
      var front := Dec(n / 10);
      var s := front + [Digit(n % 10)];
      assert s[..|s| - 1] == front;
      s
  }

  /** The length of the run of digits at the front of `t`. */
  function DigitRun(t: string): (n: nat)
    ensures n <= |t| && AllDigits(t[..n]) && (n < |t| ==> !IsDigit(t[n]))
  {
    if t == "" || !IsDigit(t[0]) then 0
    else
      var n := 1 + DigitRun(t[1..]);
      assert t[..n] == [t[0]] + t[1..][..n - 1];
      n
  }

  /** `strconv.ParseUint(s, 10, 64)`; None stands for its error. */
  function ParseUint(s: string): Option<nat> {
    if s != "" && AllDigits(s) && Value(s) < UINT64_LIMIT then Some(Value(s)) else None
  }

  // ---- Fixed-width numerals ----

  function Pow10(w: nat): (p: nat)
    ensures p > 0
  {
    if w == 0 then 1 else 10 * Pow10(w - 1)
  }

  /** The last `w` digits of `n`, zero padded. */
  function Pad(w: nat, n: nat): (s: string)
    ensures |s| == w && AllDigits(s)
  {
    if w == 0 then "" else Pad(w - 1, n / 10) + [Digit(n % 10)]
  }

  lemma {:induction false} PadValue(w: nat, n: nat)
    requires n < Pow10(w)
    ensures Value(Pad(w, n)) == n
  {
    if w > 0 {
      PadValue(w - 1, n / 10);
      assert Pad(w, n)[..w - 1] == Pad(w - 1, n / 10);
    }
  }

  // ---- String order ----

  /** The byte-wise order of Go strings, which `sort.Strings` sorts by. */
  predicate Less(a: string, b: string) {
    b != "" && (a == "" || a[0] < b[0] || (a[0] == b[0] && Less(a[1..], b[1..])))
  }

  lemma {:induction false} LessTransitive(a: string, b: string, c: string)
    requires Less(a, b) && Less(b, c)
    ensures Less(a, c)
  {
    if a != "" && a[0] == b[0] && b[0] == c[0] {
      LessTransitive(a[1..], b[1..], c[1..]);
    }
  }

  lemma {:induction false} LessTotal(a: string, b: string)
    ensures Less(a, b) || Less(b, a) || a == b
    ensures !(Less(a, b) && Less(b, a)) && (Less(a, b) ==> a != b)
  {
    if a != "" && b != "" && a[0] == b[0] {
      LessTotal(a[1..], b[1..]);
      assert a == [a[0]] + a[1..] && b == [b[0]] + b[1..];
    }
  }

  /** Strings of one length that differ in order keep that order whatever follows. */
  lemma {:induction false} LessExtends(a: string, b: string, s: string, t: string)
    requires |a| == |b| && Less(a, b)
    ensures Less(a + s, b + t)
  {
    assert (a + s)[0] == a[0] && (b + t)[0] == b[0];
    if a[0] == b[0] {
      LessExtends(a[1..], b[1..], s, t);
      assert (a + s)[1..] == a[1..] + s && (b + t)[1..] == b[1..] + t;
    }
  }

  lemma {:induction false} LessAfterPrefix(p: string, s: string, t: string)
    ensures Less(p + s, p + t) == Less(s, t)
  {
    if p == "" {
      assert p + s == s && p + t == t;
    } else {
      LessAfterPrefix(p[1..], s, t);
      assert (p + s)[1..] == p[1..] + s && (p + t)[1..] == p[1..] + t;
    }
  }

  /** Zero-padded numerals of one width sort as strings in numeric order. */
  lemma {:induction false} PadOrder(w: nat, a: nat, b: nat)
    requires a < b < Pow10(w)
    ensures Less(Pad(w, a), Pad(w, b))
  {
    if a / 10 < b / 10 {
      PadOrder(w - 1, a / 10, b / 10);
      LessExtends(Pad(w - 1, a / 10), Pad(w - 1, b / 10), [Digit(a % 10)], [Digit(b % 10)]);
    } else {
      LessAfterPrefix(Pad(w - 1, a / 10), [Digit(a % 10)], [Digit(b % 10)]);
    }
  }

  // ---- Splitting and trimming ----

  /** `strings.Split(s, sep)` for a one-byte separator. */
  function Split(s: string, sep: char): (parts: seq<string>)
    ensures |parts| >= 1
    decreases |s|
  {
    if s == "" then [""]
    else
      var rest := Split(s[1..], sep);
      if s[0] == sep then [""] + rest else [[s[0]] + rest[0]] + rest[1..]
  }

  lemma {:induction false} SplitNone(a: string, sep: char)
    requires sep !in a
    ensures Split(a, sep) == [a]
  {
    if a != "" {
      SplitNone(a[1..], sep);
      assert a == [a[0]] + a[1..];
    }
  }

  lemma {:induction false} SplitFirst(a: string, sep: char, b: string)
    requires sep !in a
    ensures Split(a + [sep] + b, sep) == [a] + Split(b, sep)
  {
    var s := a + [sep] + b;
    if a == "" {
      assert s[1..] == b;
    } else {
      SplitFirst(a[1..], sep, b);
      assert s[1..] == a[1..] + [sep] + b;
      assert a == [a[0]] + a[1..];
    }
  }

  /** The bytes `strings.TrimSpace` strips, for text in the ASCII range. */
  predicate IsSpace(c: char) {
    c in {' ', '\t', '\n', '\r', 11 as char, 12 as char}
  }

  function TrimLeft(s: string): string {
    if s != "" && IsSpace(s[0]) then TrimLeft(s[1..]) else s
  }

  function TrimSpace(s: string): string {
    var t := TrimLeft(s);
    TrimRight(t)
  }

  function TrimRight(s: string): string {
    if s != "" && IsSpace(s[|s| - 1]) then TrimRight(s[..|s| - 1]) else s
  }

  // ---- Sequences ----

  /** No element stands in two places. */
  predicate Distinct<T(==)>(s: seq<T>) {
    forall i, j :: 0 <= i < j < |s| ==> s[i] != s[j]
  }

  // ---- Counting ----

  function Count(s: string, c: char): nat {
    if s == "" then 0 else (if s[0] == c then 1 else 0) + Count(s[1..], c)
  }

  lemma {:induction false} CountAppend(s: string, t: string, c: char)
    ensures Count(s + t, c) == Count(s, c) + Count(t, c)
  {
    if s == "" {
      assert s + t == t;
    } else {
      CountAppend(s[1..], t, c);
      assert (s + t)[1..] == s[1..] + t;
    }
  }

  lemma {:induction false} CountZero(s: string, c: char)
    ensures Count(s, c) == 0 <==> c !in s
  {
    if s != "" {
      CountZero(s[1..], c);
      assert c in s <==> s[0] == c || c in s[1..];
    }
  }

  /** A text is a 64-bit number exactly when it is digits, some, and not too large. */
  lemma ParseUintExactly(s: string, n: nat)
    ensures ParseUint(s) == Some(n) <==>
              && s != "" && (forall i :: 0 <= i < |s| ==> '0' <= s[i] <= '9')
              && Value(s) == n <= 18_446_744_073_709_551_615
  {
  }

  predicate Spaces(s: string) {
    forall i :: 0 <= i < |s| ==> IsSpace(s[i])
  }

  lemma {:induction false} TrimLeftExactly(s: string)
    ensures exists a: string :: s == a + TrimLeft(s) && Spaces(a)
    ensures TrimLeft(s) == "" || !IsSpace(TrimLeft(s)[0])
  {
    if s != "" && IsSpace(s[0]) {
      TrimLeftExactly(s[1..]);
      var a :| s[1..] == a + TrimLeft(s[1..]) && Spaces(a);
      assert s == ([s[0]] + a) + TrimLeft(s) && Spaces([s[0]] + a);
    } else {
      assert s == "" + TrimLeft(s) && Spaces("");
    }
  }

  lemma {:induction false} TrimRightExactly(s: string)
    ensures exists b: string :: s == TrimRight(s) + b && Spaces(b)
    ensures TrimRight(s) == "" || (!IsSpace(TrimRight(s)[|TrimRight(s)| - 1]) && TrimRight(s)[0] == s[0])
  {
    if s != "" && IsSpace(s[|s| - 1]) {
      var front := s[..|s| - 1];
      TrimRightExactly(front);
      var b :| front == TrimRight(front) + b && Spaces(b);
      assert s == TrimRight(s) + (b + [s[|s| - 1]]) && Spaces(b + [s[|s| - 1]]);
    } else {
      assert s == TrimRight(s) + "" && Spaces("");
    }
  }

  /** Trimming takes white space off both ends and stops at anything else. */
  lemma TrimSpaceExactly(s: string)
    ensures exists a: string, b: string :: s == a + TrimSpace(s) + b && Spaces(a) && Spaces(b)
    ensures var t := TrimSpace(s); t == "" || (!IsSpace(t[0]) && !IsSpace(t[|t| - 1]))
  {
    hide TrimLeft, TrimRight;
    TrimLeftExactly(s);
    var t := TrimLeft(s);
    TrimRightExactly(t);
    var a: string :| s == a + t && Spaces(a);
    var b: string :| t == TrimRight(t) + b && Spaces(b);
    assert s == a + TrimSpace(s) + b;
  }
}
