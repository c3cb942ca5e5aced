/**
 Time-based one-time passwords (RFC 6238 over RFC 4226) and the window with
 replay protection around them.  HMAC-SHA1 is a parameter.
 */
module Totp {
  import opened Wrappers
  import opened Strings

  type byte = x: int | 0 <= x < 256

  type Digest = s: seq<byte> | |s| == 20 witness seq(20, i => 0)

  type Hmac = (seq<byte>, seq<byte>) -> Digest

  // ─── The counter as eight bytes ───

  /** Big-endian value, section 5.1 of RFC 4226. */
  function Value(msg: seq<byte>): nat {
    if msg == [] then 0 else 256 * Value(msg[..|msg| - 1]) + msg[|msg| - 1]
  }

  function Pow256(n: nat): (p: nat)
    ensures p >= 1
  {
    if n == 0 then 1 else 256 * Pow256(n - 1)
  }

  /**
   The buffer filled from its end with the low bytes of the counter; >>= is an arithmetic shift, so a
   negative counter is read in two's complement.
   */
  function Filled(counter: int, buf: seq<byte>): (msg: seq<byte>)
    ensures |msg| == |buf|
    decreases |buf|
  {
    if buf == [] then [] else Filled(counter / 256, buf[..|buf| - 1]) + [counter % 256]
  }

  /** var msg [8]byte */
  function Buffer(): (buf: seq<byte>)
    ensures |buf| == 8
  {
    seq(8, i => 0)
  }

  function Message(counter: int): (msg: seq<byte>)
    ensures |msg| == 8
  {
    Filled(counter, Buffer())
  }

  lemma ModStep(c: int, p: nat)
    requires p >= 1
    ensures 256 * ((c / 256) % p) + c % 256 == c % (256 * p)
  {
    var q, r := (c / 256) / p, (c / 256) % p;
    assert c / 256 == q * p + r;
    assert c == 256 * (q * p + r) + c % 256;
    assert c == q * (256 * p) + (256 * r + c % 256);
    assert 256 * r + c % 256 < 256 * p;
    ModUnique(c, 256 * p, q, 256 * r + c % 256);
  }

  lemma ModUnique(c: int, m: nat, q: int, r: nat)
    requires m > 0 && c == q * m + r && r < m
    ensures c % m == r
  {
    var k := c / m - q;
    assert k * m == r - c % m;
    if k != 0 {
      AtLeast(k, m);
    }
  }

  lemma AtLeast(k: int, m: nat)
    requires k != 0
    ensures k * m >= m || k * m <= 0 - m
  {}

  lemma {:induction false} ValueOfFilled(c: int, buf: seq<byte>)
    ensures Value(Filled(c, buf)) == c % Pow256(|buf|)
    decreases |buf|
  {
    if buf != [] {
      var front := buf[..|buf| - 1];
      ValueOfFilled(c / 256, front);
      assert Filled(c, buf)[..|front|] == Filled(c / 256, front);
      ModStep(c, Pow256(|front|));
    }
  }

  lemma SixtyFourBits()
    ensures Pow256(8) == 2 * (MAXINT + 1)
  {}

  lemma SmallMod(c: nat, m: nat)
    requires c < m
    ensures c % m == c
  {}

  /** The message is the eight-byte big-endian encoding: modulo 2^64, and exact for a counter that is not negative. */
  lemma ValueOfMessage(c: int)
    ensures Value(Message(c)) == c % (2 * (MAXINT + 1))
    ensures 0 <= c <= MAXINT ==> Value(Message(c)) == c
  {
    ValueOfFilled(c, Buffer());
    SixtyFourBits();
    if 0 <= c <= MAXINT {
      SmallMod(c, 2 * (MAXINT + 1));
    }
  }

  /** Different counters have different messages. */
  lemma MessagesDiffer(c: nat, d: nat)
    requires c <= MAXINT && d <= MAXINT && Message(c) == Message(d)
    ensures c == d
  {
    ValueOfMessage(c);
    ValueOfMessage(d);
  }

  // ─── The code ───

  /** Dynamic truncation, section 5.3 of RFC 4226; the four parts take different bits. */
  function Truncated(sum: Digest): (bin: nat)
    ensures bin < 0x8000_0000
  {
    var offset := sum[|sum| - 1] % 16;
    var b0: int, b1: int, b2: int, b3: int := sum[offset], sum[offset + 1], sum[offset + 2], sum[offset + 3];
    b0 % 128 * 0x100_0000 + b1 * 0x1_0000 + b2 * 0x100 + b3
  }

  lemma FourBytes(b0: byte, b1: byte, b2: byte, b3: byte)
    ensures Value([b0, b1, b2, b3]) == 0x100_0000 * (b0 as int) + 0x1_0000 * (b1 as int) + 0x100 * (b2 as int) + b3
  {
    var three, two, one := [b0, b1, b2], [b0, b1], [b0];
    assert Value([]) == 0;
    assert one[..0] == [] && Value(one) == b0;
    assert two[..1] == one && Value(two) == 256 * Value(one) + b1;
    assert three[..2] == two && Value(three) == 256 * Value(two) + b2;
    assert [b0, b1, b2, b3][..3] == three;
  }

  /** The low nibble of the last byte says where the four bytes start; of their value the sign bit goes. */
  lemma TruncatedReads(sum: Digest, h: nat, o: nat)
    requires sum[19] == 16 * h + o && o < 16
    ensures Truncated(sum) == Value(sum[o..o + 4]) % 0x8000_0000
  {
    assert sum[o..o + 4] == [sum[o], sum[o + 1], sum[o + 2], sum[o + 3]];
    FourBytes(sum[o], sum[o + 1], sum[o + 2], sum[o + 3]);
    var b0: int, b1: int, b2: int, b3: int := sum[o], sum[o + 1], sum[o + 2], sum[o + 3];
    var low := 0x1_0000 * b1 + 0x100 * b2 + b3;
    ModUnique(0x100_0000 * b0 + low, 0x8000_0000, b0 / 128, 0x100_0000 * (b0 % 128) + low);
  }

  lemma PrintDigit(q: nat, d: nat)
    requires q > 0 && d < 10
    ensures Print(10 * q + d) == Print(q) + [('0' as int + d) as char]
  {
    assert (10 * q + d) / 10 == q && (10 * q + d) % 10 == d;
  }

  lemma PrintExample()
    ensures Padded(872921) == "872921"
  {
    assert Print(8) == "8";
    PrintDigit(8, 7);
    assert Print(87) == "87";
    PrintDigit(87, 2);
    assert Print(872) == "872";
    PrintDigit(872, 9);
    assert Print(8729) == "8729";
    PrintDigit(8729, 2);
    assert Print(87292) == "87292";
    PrintDigit(87292, 1);
  }

  lemma ExampleTruncated(sum: Digest)
    requires sum[19] == 0x5a && sum[10..14] == [0x50, 0xef, 0x7f, 0x19]
    ensures Truncated(sum) == 0x50ef7f19
  {
    TruncatedReads(sum, 5, 10);
    FourBytes(0x50, 0xef, 0x7f, 0x19);
    SmallMod(0x50ef7f19, 0x8000_0000);
  }

  /** The digest worked through in section 5.4 of RFC 4226, by the bytes that matter. */
  lemma RfcExample(hmac: Hmac, secret: seq<byte>, counter: int)
    requires var sum := hmac(secret, Message(counter)); sum[19] == 0x5a && sum[10..14] == [0x50, 0xef, 0x7f, 0x19]
    ensures Code(hmac, secret, counter) == "872921"
  {
    ExampleTruncated(hmac(secret, Message(counter)));
    PrintExample();
  }

  function Zeros(n: nat): (s: string)
    ensures |s| == n && Digits(s)
  {
    seq(n, i => '0')
  }

  /** %06d of a nonnegative number. */
  function Padded(n: nat): string {
    var s := Print(n);
    if |s| >= 6 then s else Zeros(6 - |s|) + s
  }

  function Code(hmac: Hmac, secret: seq<byte>, counter: int): string {
    Padded(Truncated(hmac(secret, Message(counter))) % 1_000_000)
  }

  function Pow10(n: nat): nat {
    if n == 0 then 1 else 10 * Pow10(n - 1)
  }

  lemma {:induction false} PrintedLength(n: nat, k: nat)
    requires k >= 1 && n < Pow10(k)
    ensures |Print(n)| <= k
  {
    if n >= 10 {
      PrintedLength(n / 10, k - 1);
    }
  }

  lemma {:induction false} LeadingZeros(k: nat, s: string)
    requires Digits(s)
    ensures Decimal(Zeros(k) + s) == Decimal(s)
  {
    if s != "" {
      LeadingZeros(k, s[..|s| - 1]);
      assert (Zeros(k) + s)[..k + |s| - 1] == Zeros(k) + s[..|s| - 1];
    } else if k > 0 {
      LeadingZeros(k - 1, s);
      assert (Zeros(k) + s)[..k - 1] == Zeros(k - 1) + s;
    }
  }

  /** Six digits that read back as the truncated value modulo 10^6. */
  lemma CodeShape(hmac: Hmac, secret: seq<byte>, counter: int)
    ensures var code := Code(hmac, secret, counter);
            && |code| == 6 && Digits(code)
            && Decimal(code) == Truncated(hmac(secret, Message(counter))) % 1_000_000 < 1_000_000
  {
    var otp := Truncated(hmac(secret, Message(counter))) % 1_000_000;
    assert Pow10(6) == 1_000_000;
    PrintedLength(otp, 6);
    LeadingZeros(6 - |Print(otp)|, Print(otp));
  }

  /** One turn of the byte loop: the last byte of what is still to fill goes in front of the tail. */
  lemma FillOne(c: int, buf: seq<byte>, tail: seq<byte>)
    requires buf != []
    ensures Filled(c, buf) + tail == Filled(c / 256, buf[..|buf| - 1]) + ([c % 256] + tail)
  {}

  method Gen(hmac: Hmac, secret: seq<byte>, counter: int) returns (code: string)
    ensures code == Code(hmac, secret, counter)
  {
    var msg := new byte[8](i => 0);
    ghost var buf := Buffer();
    var c := counter;
    var i := 7;
    while i >= 0
      invariant -1 <= i <= 7
      invariant |buf| == i + 1
      invariant Message(counter) == Filled(c, buf) + msg[i + 1..]
    {
      ghost var tail := msg[i + 1..];
      FillOne(c, buf, tail);
      msg[i] := c % 256;
      assert msg[i..] == [c % 256] + tail;
      c, buf := c / 256, buf[..i];
      i := i - 1;
    }
    assert msg[..] == Message(counter);
    code := Padded(Truncated(hmac(secret, msg[..])) % 1_000_000);
  }

  // ─── Verification ───

  /** Division of int64 truncates toward zero. */
  function Period(unix: int): int {
    if unix >= 0 then unix / 30 else -(-unix / 30)
  }

  /** Periods of 30 seconds, the one around zero twice as long. */
  lemma PeriodTruncates(unix: int)
    ensures unix >= 0 ==> 30 * Period(unix) <= unix < 30 * Period(unix) + 30
    ensures unix <= 0 ==> 30 * Period(unix) - 30 < unix <= 30 * Period(unix)
  {}

  /** Within the window, not used up, and the code of that counter. */
  predicate Matches(hmac: Hmac, secret: seq<byte>, trimmed: string, period: int, steps: int, last: Option<int>, c: int) {
    && period - steps <= c <= period + steps
    && (last.Some? ==> c > last.value)
    && Code(hmac, secret, c) == trimmed
  }

  /** A counter that would be accepted at that time. */
  predicate Acceptable(hmac: Hmac, secret: seq<byte>, code: string, unix: int, steps: int, last: Option<int>, c: int) {
    |TrimSpace(code)| == 6 && Matches(hmac, secret, TrimSpace(code), Period(unix), steps, last, c)
  }

  /** The smallest acceptable counter, or nothing when there is none. */
  ghost predicate Answers(hmac: Hmac, secret: seq<byte>, code: string, unix: int, steps: int, last: Option<int>,
                          ok: bool, counter: int)
  {
    if ok then
      && Acceptable(hmac, secret, code, unix, steps, last, counter)
      && forall c | c < counter :: !Acceptable(hmac, secret, code, unix, steps, last, c)
    else
      counter == 0 && forall c :: !Acceptable(hmac, secret, code, unix, steps, last, c)
  }

  /** The loop of Verify: the first counter of the window that matches. */
  method Scan(hmac: Hmac, secret: seq<byte>, trimmed: string, period: int, steps: int, last: Option<int>)
    returns (found: Option<int>)
    ensures found.Some? ==> Matches(hmac, secret, trimmed, period, steps, last, found.value)
    ensures found.Some? ==> forall d | d < found.value :: !Matches(hmac, secret, trimmed, period, steps, last, d)
    ensures found.None? ==> forall d :: !Matches(hmac, secret, trimmed, period, steps, last, d)
  {
    var end := period + steps;
    var c := period - steps;
    while c <= end
      invariant forall d | d < c :: !Matches(hmac, secret, trimmed, period, steps, last, d)
      decreases end - c
    {
      if last.None? || c > last.value {
        var expected := Gen(hmac, secret, c);
        if expected == trimmed {
          assert Matches(hmac, secret, trimmed, period, steps, last, c);
          return Some(c);
        }
      }
      assert !Matches(hmac, secret, trimmed, period, steps, last, c);
      c := c + 1;
    }
    return None;
  }

  method Verify(hmac: Hmac, secret: seq<byte>, code: string, unix: int, steps: int, last: Option<int>)
    returns (ok: bool, counter: int)
    ensures Answers(hmac, secret, code, unix, steps, last, ok, counter)
  {
    var trimmed := TrimSpace(code);
    if |trimmed| != 6 {
      return false, 0;
    }
    var found := Scan(hmac, secret, trimmed, Period(unix), steps, last);
    if found.Some? {
      return true, found.value;
    }
    return false, 0;
  }

  // ─── Runs that feed the accepted counter back ───

  datatype Attempt = Attempt(unix: int, code: string, ok: bool, counter: int)

  /** The counter remembered after the attempts. */
  function Last(start: Option<int>, run: seq<Attempt>): Option<int> {
    if run == [] then start
    else if run[|run| - 1].ok then Some(run[|run| - 1].counter)
    else Last(start, run[..|run| - 1])
  }

  /** Each attempt got an answer of Verify with the counter remembered so far. */
  ghost predicate Honest(hmac: Hmac, secret: seq<byte>, steps: int, start: Option<int>, run: seq<Attempt>) {
    forall i | 0 <= i < |run| ::
      Answers(hmac, secret, run[i].code, run[i].unix, steps, Last(start, run[..i]), run[i].ok, run[i].counter)
  }

  function Accepted(run: seq<Attempt>): seq<int> {
    if run == [] then []
    else
      Accepted(run[..|run| - 1]) + if run[|run| - 1].ok then [run[|run| - 1].counter] else []
  }

  predicate Climbing(cs: seq<int>, above: Option<int>) {
    && (forall i, j | 0 <= i < j < |cs| :: cs[i] < cs[j])
    && (above.Some? ==> forall i | 0 <= i < |cs| :: above.value < cs[i])
  }

  ghost predicate Fed(start: Option<int>, run: seq<Attempt>) {
    forall i | 0 <= i < |run| && run[i].ok ::
      Last(start, run[..i]).Some? ==> run[i].counter > Last(start, run[..i]).value
  }

  lemma ClimbFurther(cs: seq<int>, above: Option<int>, c: int)
    requires Climbing(cs, above)
    requires if cs == [] then above.Some? ==> c > above.value else c > cs[|cs| - 1]
    ensures Climbing(cs + [c], above)
  {}

  lemma FedFront(start: Option<int>, run: seq<Attempt>)
    requires Fed(start, run) && run != []
    ensures var front, a := run[..|run| - 1], run[|run| - 1];
            Fed(start, front) && (a.ok && Last(start, front).Some? ==> a.counter > Last(start, front).value)
  {
    var front := run[..|run| - 1];
    assert run[..|run| - 1] == front;
    forall i | 0 <= i < |front| && front[i].ok
      ensures Last(start, front[..i]).Some? ==> front[i].counter > Last(start, front[..i]).value
    {
      assert front[..i] == run[..i];
    }
  }

  /** One more attempt keeps the accepted counters climbing, and the last of them remembered. */
  lemma ClimbLast(start: Option<int>, run: seq<Attempt>)
    requires run != []
    requires var front, a := run[..|run| - 1], run[|run| - 1];
             && Climbing(Accepted(front), start) && Last(start, front) == LastIn(start, Accepted(front))
             && (a.ok && Last(start, front).Some? ==> a.counter > Last(start, front).value)
    ensures Climbing(Accepted(run), start) && Last(start, run) == LastIn(start, Accepted(run))
  {
    var front, a := run[..|run| - 1], run[|run| - 1];
    if a.ok {
      assert Accepted(run) == Accepted(front) + [a.counter];
      ClimbFurther(Accepted(front), start, a.counter);
    } else {
      assert Accepted(run) == Accepted(front);
    }
  }

  function LastIn(start: Option<int>, cs: seq<int>): Option<int> {
    if cs == [] then start else Some(cs[|cs| - 1])
  }

  lemma {:induction false} FedClimb(start: Option<int>, run: seq<Attempt>)
    requires Fed(start, run)
    ensures Climbing(Accepted(run), start)
    ensures Last(start, run) == LastIn(start, Accepted(run))
  {
    if run != [] {
      FedFront(start, run);
      FedClimb(start, run[..|run| - 1]);
      ClimbLast(start, run);
    }
  }

  /**
   Accepted counters strictly increase, beyond the one remembered at the start, and the last of them is
   the one remembered.
   */
  lemma AcceptedClimb(hmac: Hmac, secret: seq<byte>, steps: int, start: Option<int>, run: seq<Attempt>)
    requires Honest(hmac, secret, steps, start, run)
    ensures Climbing(Accepted(run), start)
    ensures Last(start, run) == LastIn(start, Accepted(run))
  {
    forall i | 0 <= i < |run| && run[i].ok
      ensures Last(start, run[..i]).Some? ==> run[i].counter > Last(start, run[..i]).value
    {
      assert Acceptable(hmac, secret, run[i].code, run[i].unix, steps, Last(start, run[..i]), run[i].counter);
    }
    FedClimb(start, run);
  }

  /** Each accepted counter is within the window of the attempt that brought it. */
  lemma AcceptedInWindow(hmac: Hmac, secret: seq<byte>, steps: int, start: Option<int>, run: seq<Attempt>)
    requires Honest(hmac, secret, steps, start, run)
    ensures forall i | 0 <= i < |run| && run[i].ok ::
              Period(run[i].unix) - steps <= run[i].counter <= Period(run[i].unix) + steps
    ensures forall i | 0 <= i < |run| && run[i].ok && run[i].unix >= 0 ::
              run[i].unix / 30 - steps <= run[i].counter <= run[i].unix / 30 + steps
  {
    forall i | 0 <= i < |run| && run[i].ok
      ensures Period(run[i].unix) - steps <= run[i].counter <= Period(run[i].unix) + steps
    {
      assert Acceptable(hmac, secret, run[i].code, run[i].unix, steps, Last(start, run[..i]), run[i].counter);
    }
  }

  lemma {:induction false} AcceptedWithin(run: seq<Attempt>, lo: int, hi: int)
    requires forall i | 0 <= i < |run| && run[i].ok :: lo <= run[i].counter <= hi
    ensures forall i | 0 <= i < |Accepted(run)| :: lo <= Accepted(run)[i] <= hi
  {
    if run != [] {
      AcceptedWithin(run[..|run| - 1], lo, hi);
    }
  }

  lemma {:induction false} ClimbingFits(cs: seq<int>, lo: int, hi: int)
    requires Climbing(cs, None) && forall i | 0 <= i < |cs| :: lo <= cs[i] <= hi
    ensures |cs| > 0 ==> |cs| <= hi - lo + 1
  {
    if |cs| > 1 {
      ClimbingFits(cs[..|cs| - 1], lo, cs[|cs| - 1] - 1);
    }
  }

  lemma PeriodMonotone(a: int, b: int)
    requires a <= b
    ensures Period(a) <= Period(b)
  {}

  /**
   However many attempts are made between two times, in whatever order, at most one code per period of the
   interval, widened by the window on both sides, is accepted.
   */
  lemma AcceptedBound(hmac: Hmac, secret: seq<byte>, steps: nat, start: Option<int>, run: seq<Attempt>, t0: int, t1: int)
    requires Honest(hmac, secret, steps, start, run)
    requires t0 <= t1 && forall i | 0 <= i < |run| :: t0 <= run[i].unix <= t1
    ensures |Accepted(run)| <= Period(t1) - Period(t0) + 2 * steps + 1
    ensures t0 >= 0 ==> |Accepted(run)| <= t1 / 30 - t0 / 30 + 2 * steps + 1
  {
    AcceptedClimb(hmac, secret, steps, start, run);
    forall i | 0 <= i < |run| ensures Period(t0) <= Period(run[i].unix) <= Period(t1) {
      PeriodMonotone(t0, run[i].unix);
      PeriodMonotone(run[i].unix, t1);
    }
    AcceptedInWindow(hmac, secret, steps, start, run);
    AcceptedWithin(run, Period(t0) - steps, Period(t1) + steps);
    PeriodMonotone(t0, t1);
    ClimbingFits(Accepted(run), Period(t0) - steps, Period(t1) + steps);
  }

  /** The window admits a fresh code: nothing remembered blocks it, so some counter is accepted. */
  lemma FreshCodePasses(hmac: Hmac, secret: seq<byte>, unix: int, steps: nat, last: Option<int>, c: int, ok: bool, counter: int)
    requires Period(unix) - steps <= c <= Period(unix) + steps && (last.Some? ==> c > last.value)
    ensures Answers(hmac, secret, Code(hmac, secret, c), unix, steps, last, ok, counter) ==> ok && counter <= c
  {
    CodeShape(hmac, secret, c);
    NoSpaces(Code(hmac, secret, c));
    assert Acceptable(hmac, secret, Code(hmac, secret, c), unix, steps, last, c);
  }

  lemma NoSpaces(s: string)
    requires Digits(s)
    ensures TrimSpace(s) == s
  {}
}
