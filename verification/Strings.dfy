/** The few operations of Go's package strings that the printers, parsers and paths below rest on. */
module Strings {
  /** strings.Split with a one-character separator. */
  function Split(s: string, sep: char): (parts: seq<string>)
    ensures |parts| > 0
  {
    if s == "" then [""]
    else
      var rest := Split(s[1..], sep);
      if s[0] == sep then [""] + rest else [[s[0]] + rest[0]] + rest[1..]
  }

  /** strings.Join with a one-character separator. */
  function Join(parts: seq<string>, sep: char): string {
    if parts == [] then "" else if |parts| == 1 then parts[0] else parts[0] + [sep] + Join(parts[1..], sep)
  }

  /** A separator cuts the string in two, wherever it stands. */
  lemma {:induction false} SplitAtSeparator(a: string, b: string, sep: char)
    ensures Split(a + [sep] + b, sep) == Split(a, sep) + Split(b, sep)
  {
    var s := a + [sep] + b;
    if a == "" {
      assert s[1..] == b;
    } else {
      assert s[1..] == a[1..] + [sep] + b;
      SplitAtSeparator(a[1..], b, sep);
    }
  }

  lemma {:induction false} SplitWithout(s: string, sep: char)
    requires sep !in s
    ensures Split(s, sep) == [s]
  {
    if s != "" {
      SplitWithout(s[1..], sep);
      assert [s[0]] + s[1..] == s;
    }
  }

  lemma {:induction false} SplitJoin(parts: seq<string>, sep: char)
    requires parts != [] && forall i | 0 <= i < |parts| :: sep !in parts[i]
    ensures Split(Join(parts, sep), sep) == parts
  {
    SplitWithout(parts[0], sep);
    if |parts| > 1 {
      SplitAtSeparator(parts[0], Join(parts[1..], sep), sep);
      SplitJoin(parts[1..], sep);
    }
  }

  lemma {:induction false} SplitPieces(s: string, sep: char)
    ensures forall i | 0 <= i < |Split(s, sep)| :: sep !in Split(s, sep)[i]
  {
    if s != "" {
      SplitPieces(s[1..], sep);
    }
  }

  predicate HasPrefix(s: string, prefix: string) {
    prefix <= s
  }

  /** strings.ReplaceAll for single characters. */
  function ReplaceAll(s: string, from: char, to: char): (r: string)
    ensures |r| == |s|
    ensures forall i | 0 <= i < |s| :: r[i] == if s[i] == from then to else s[i]
  {
    seq(|s|, i requires 0 <= i < |s| => if s[i] == from then to else s[i])
  }

  /** strings.TrimRight with a one-character cutset. */
  function TrimRight(s: string, c: char): string {
    if s != "" && s[|s| - 1] == c then TrimRight(s[..|s| - 1], c) else s
  }

  function TrimLeft(s: string, c: char): string {
    if s != "" && s[0] == c then TrimLeft(s[1..], c) else s
  }

  /** strings.Trim with a one-character cutset. */
  function Trim(s: string, c: char): string {
    TrimRight(TrimLeft(s, c), c)
  }

  function Repeat(c: char, n: nat): string {
    seq(n, i => c)
  }

  /** All the characters at the end go, and nothing else. */
  lemma {:induction false} TrimRightIs(s: string, c: char, n: nat)
    requires s == "" || s[|s| - 1] != c
    ensures TrimRight(s + Repeat(c, n), c) == s
  {
    if n > 0 {
      var all := s + Repeat(c, n);
      assert all[..|all| - 1] == s + Repeat(c, n - 1);
      TrimRightIs(s, c, n - 1);
    } else {
      assert s + Repeat(c, n) == s;
    }
  }

  lemma {:induction false} TrimIs(s: string, c: char, m: nat, n: nat)
    requires s != "" && s[0] != c && s[|s| - 1] != c
    ensures Trim(Repeat(c, m) + s + Repeat(c, n), c) == s
  {
    var all := Repeat(c, m) + s + Repeat(c, n);
    if m > 0 {
      assert all[1..] == Repeat(c, m - 1) + s + Repeat(c, n);
      TrimIs(s, c, m - 1, n);
    } else {
      assert all == s + Repeat(c, n);
      TrimRightIs(s, c, n);
    }
  }

  /** unicode.IsSpace */
  predicate IsSpace(c: char) {
    '\t' <= c <= '\r' || c == ' ' || c == '\U{85}' || c == '\U{A0}' || c == '\U{1680}'
    || '\U{2000}' <= c <= '\U{200A}' || c == '\U{2028}' || c == '\U{2029}' || c == '\U{202F}'
    || c == '\U{205F}' || c == '\U{3000}'
  }

  /** The characters with the property White_Space. */
  lemma SpacesAre(c: char)
    ensures IsSpace(c) <==> c as int in {9, 10, 11, 12, 13, 32, 133, 160, 5760, 8192, 8193, 8194, 8195, 8196, 8197, 8198, 8199,
                                         8200, 8201, 8202, 8232, 8233, 8239, 8287, 12288}
  {}

  /** strings.TrimSpace(s) == "" */
  predicate Blank(s: string) {
    forall k | 0 <= k < |s| :: IsSpace(s[k])
  }

  function TrimSpace(s: string): (r: string)
    ensures r != "" ==> !IsSpace(r[0]) && !IsSpace(r[|r| - 1])
    ensures r == "" <==> Blank(s)
    decreases |s|
  {
    if s == "" then ""
    else if IsSpace(s[0]) then TrimSpace(s[1..])
    else if IsSpace(s[|s| - 1]) then TrimSpace(s[..|s| - 1])
    else s
  }

  /** What is left is what stands between the blanks on both sides. */
  lemma {:induction false} TrimSpaceIs(s: string, i: nat, j: nat)
    requires i < j <= |s| && Blank(s[..i]) && Blank(s[j..]) && !IsSpace(s[i]) && !IsSpace(s[j - 1])
    ensures TrimSpace(s) == s[i..j]
    decreases |s|
  {
    if i > 0 {
      assert IsSpace(s[..i][0]) && s[1..][..i - 1] == s[..i][1..] && s[1..][j - 1..] == s[j..];
      TrimSpaceIs(s[1..], i - 1, j - 1);
      assert s[1..][i - 1..j - 1] == s[i..j];
    } else if j < |s| {
      var front := s[..|s| - 1];
      assert IsSpace(s[j..][|s| - 1 - j]) && front[j..] == s[j..][..|s| - 1 - j] && front[..i] == s[..i];
      TrimSpaceIs(front, i, j);
      assert front[i..j] == s[i..j];
    } else {
      assert s[i..j] == s;
    }
  }

  // ─── Decimal numbers ───

  predicate Digits(s: string) {
    forall i | 0 <= i < |s| :: '0' <= s[i] <= '9'
  }

  function Decimal(s: string): nat
    requires Digits(s)
  {
    if s == "" then 0 else 10 * Decimal(s[..|s| - 1]) + (s[|s| - 1] - '0') as nat
  }

  lemma DecimalAppend(s: string, d: char)
    requires Digits(s) && '0' <= d <= '9'
    ensures Digits(s + [d]) && Decimal(s + [d]) == 10 * Decimal(s) + (d - '0') as nat
  {
    assert (s + [d])[..|s|] == s;
  }

  /** %d of a nonnegative number. */
  function Print(n: nat): (s: string)
    ensures s != "" && Digits(s) && Decimal(s) == n
  {
    if n < 10 then [('0' as int + n) as char]
    else
      var s := Print(n / 10);
      var d := ('0' as int + n % 10) as char;
      DecimalAppend(s, d);
      s + [d]
  }

  const MAXINT := 0x7FFF_FFFF_FFFF_FFFF

  /** strconv.Atoi: the value that comes with a range error is the nearest int, with a syntax error 0. */
  function Atoi(s: string): (int, bool) {
    var digits := if s != "" && s[0] in "+-" then s[1..] else s;
    if digits == "" || !Digits(digits) then (0, false)
    else
      var n: int := Decimal(digits);
      if s[0] == '-' then (if n > MAXINT + 1 then (-MAXINT - 1, false) else (-n, true))
      else if n > MAXINT then (MAXINT, false)
      else (n, true)
  }

  lemma AtoiPrint(n: nat)
    requires n <= MAXINT
    ensures Atoi(Print(n)) == (n, true)
  {}

  /** A minus sign; out of range the nearest int comes with an error. */
  lemma AtoiNegative(digits: string)
    requires digits != "" && Digits(digits)
    ensures Atoi(['-'] + digits) ==
            if Decimal(digits) <= MAXINT + 1 then (-(Decimal(digits) as int), true) else (-MAXINT - 1, false)
  {
    assert (['-'] + digits)[1..] == digits;
  }

  lemma AtoiPositive(digits: string)
    requires digits != "" && Digits(digits)
    ensures Atoi(digits) == if Decimal(digits) <= MAXINT then (Decimal(digits) as int, true) else (MAXINT, false)
    ensures Atoi(['+'] + digits) == Atoi(digits)
  {
    assert (['+'] + digits)[1..] == digits;
  }

  /** Anything but digits, behind a sign or not, counts as 0. */
  lemma AtoiOther(s: string)
    requires || s in {"", "+", "-"} || (s[0] !in "+-" && !('0' <= s[0] <= '9'))
             || exists i :: 0 < i < |s| && !('0' <= s[i] <= '9')
    ensures Atoi(s) == (0, false)
  {
    if s !in {"", "+", "-"} && (s[0] in "+-" || '0' <= s[0] <= '9') {
      var i :| 0 < i < |s| && !('0' <= s[i] <= '9');
      assert s[1..][i - 1] == s[i];
    }
  }
}
