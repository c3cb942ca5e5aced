/**
 The PHC string of Argon2id: the printer in Hash, the parser in Verify, and the
 decimal and base64 codecs between them.  The key derivation is a parameter.
 */
module Phc {
  import opened Wrappers
  import opened Strings

  type byte = bv8

  // ─── Unpadded base64, section 4 of RFC 4648 ───

  type sextet = bv6

  /** The standard alphabet. */
  function CharAt(i: int): char
    requires 0 <= i < 64
  {
    if i < 26 then ('A' as int + i) as char
    else if i < 52 then ('a' as int + i - 26) as char
    else if i < 62 then ('0' as int + i - 52) as char
    else if i == 62 then '+' else '/'
  }

  /** A to Z, a to z, 0 to 9, plus and slash. */
  lemma StandardAlphabet(i: int)
    ensures CharAt(0) == 'A' && CharAt(25) == 'Z' && CharAt(26) == 'a' && CharAt(51) == 'z'
    ensures CharAt(52) == '0' && CharAt(61) == '9' && CharAt(62) == '+' && CharAt(63) == '/'
    ensures 0 <= i < 61 && i != 25 && i != 51 ==> CharAt(i + 1) as int == CharAt(i) as int + 1
  {}

  function CharOf(v: sextet): char {
    CharAt(v as int)
  }

  /** The place of a character in the standard or the URL alphabet, -1 if it has none. */
  function IndexOf(c: char, url: bool): (i: int)
    ensures -1 <= i < 64
  {
    if 'A' <= c <= 'Z' then c as int - 'A' as int
    else if 'a' <= c <= 'z' then c as int - 'a' as int + 26
    else if '0' <= c <= '9' then c as int - '0' as int + 52
    else if c == (if url then '-' else '+') then 62
    else if c == (if url then '_' else '/') then 63
    else -1
  }

  /** The four sextets of three bytes. */
  function First(b0: byte): sextet { (b0 >> 2) as sextet }
  function Second(b0: byte, b1: byte): sextet { ((b0 & 3) as sextet << 4) | (b1 >> 4) as sextet }
  function Third(b1: byte, b2: byte): sextet { ((b1 & 15) as sextet << 2) | (b2 >> 6) as sextet }
  function Fourth(b2: byte): sextet { (b2 & 63) as sextet }

  /** The three bytes of four sextets. */
  function High(s0: sextet, s1: sextet): byte { (s0 as byte << 2) | (s1 >> 4) as byte }
  function Middle(s1: sextet, s2: sextet): byte { ((s1 & 15) as byte << 4) | (s2 >> 2) as byte }
  function Low(s2: sextet, s3: sextet): byte { ((s2 & 3) as byte << 6) | s3 as byte }

  function Sextets(bytes: seq<byte>): seq<sextet> {
    if bytes == [] then []
    else if |bytes| == 1 then [First(bytes[0]), Second(bytes[0], 0)]
    else if |bytes| == 2 then [First(bytes[0]), Second(bytes[0], bytes[1]), Third(bytes[1], 0)]
    else
      [First(bytes[0]), Second(bytes[0], bytes[1]), Third(bytes[1], bytes[2]), Fourth(bytes[2])] + Sextets(bytes[3..])
  }

  /** The four sextets are the same number as the three bytes. */
  lemma SameNumber(b0: byte, b1: byte, b2: byte)
    ensures ((First(b0) as bv24) << 18) | ((Second(b0, b1) as bv24) << 12) | ((Third(b1, b2) as bv24) << 6) | (Fourth(b2) as bv24)
         == ((b0 as bv24) << 16) | ((b1 as bv24) << 8) | (b2 as bv24)
  {}

  /** The bits an incomplete group leaves over are zero. */
  lemma ZeroPadding(b0: byte, b1: byte)
    ensures var one, two := Sextets([b0]), Sextets([b0, b1]);
            |one| == 2 && one[0] == First(b0) && one[1] & 15 == 0 && |two| == 3 && two[..2] == Sextets([b0, b1, 0])[..2] && two[2] & 3 == 0
  {}

  /** Bits left over at the end are dropped; a single character left over is an error. */
  function Bytes(sx: seq<sextet>): Option<seq<byte>> {
    if sx == [] then Some([])
    else if |sx| == 1 then None
    else if |sx| == 2 then Some([High(sx[0], sx[1])])
    else if |sx| == 3 then Some([High(sx[0], sx[1]), Middle(sx[1], sx[2])])
    else
      match Bytes(sx[4..])
      case None => None
      case Some(rest) => Some([High(sx[0], sx[1]), Middle(sx[1], sx[2]), Low(sx[2], sx[3])] + rest)
  }

  lemma BytesOfOne(b: byte)
    ensures Bytes(Sextets([b])) == Some([b])
  {}

  lemma BytesOfTwo(b0: byte, b1: byte)
    ensures Bytes(Sextets([b0, b1])) == Some([b0, b1])
  {}

  lemma BytesOfThree(b0: byte, b1: byte, b2: byte, more: seq<sextet>)
    requires Bytes(more).Some?
    ensures Bytes([First(b0), Second(b0, b1), Third(b1, b2), Fourth(b2)] + more) == Some([b0, b1, b2] + Bytes(more).value)
  {}

  lemma {:induction false} BytesOfSextets(bytes: seq<byte>)
    ensures Bytes(Sextets(bytes)) == Some(bytes)
  {
    if |bytes| >= 3 {
      BytesOfSextets(bytes[3..]);
      BytesOfThree(bytes[0], bytes[1], bytes[2], Sextets(bytes[3..]));
      assert bytes == [bytes[0], bytes[1], bytes[2]] + bytes[3..];
    } else if |bytes| == 2 {
      assert bytes == [bytes[0], bytes[1]];
      BytesOfTwo(bytes[0], bytes[1]);
    } else if |bytes| == 1 {
      assert bytes == [bytes[0]];
      BytesOfOne(bytes[0]);
    }
  }

  /** Characters as sextets; line ends are skipped, anything else outside the alphabet is an error. */
  function Values(s: string, url: bool): Option<seq<sextet>> {
    if s == "" then Some([])
    else
      match Values(s[..|s| - 1], url)
      case None => None
      case Some(front) =>
        var c := s[|s| - 1];
        if c == '\r' || c == '\n' then Some(front)
        else if IndexOf(c, url) < 0 then None
        else Some(front + [IndexOf(c, url) as sextet])
  }

  function Decode(s: string, url: bool): Option<seq<byte>> {
    match Values(s, url)
    case None => None
    case Some(sx) => Bytes(sx)
  }

  function DecodeB64(s: string): Option<seq<byte>> {
    match Decode(s, false)
    case Some(b) => Some(b)
    case None => Decode(s, true)
  }

  function Encode(bytes: seq<byte>): string {
    var sx := Sextets(bytes);
    seq(|sx|, i requires 0 <= i < |sx| => CharOf(sx[i]))
  }

  lemma CharBack(v: sextet)
    ensures IndexOf(CharOf(v), false) == v as int && (v as int) as sextet == v
    ensures CharOf(v) != '\r' && CharOf(v) != '\n'
  {}

  lemma {:induction false} ValuesOfChars(sx: seq<sextet>, s: string)
    requires |s| == |sx| && forall i | 0 <= i < |sx| :: s[i] == CharOf(sx[i])
    ensures Values(s, false) == Some(sx)
  {
    if sx != [] {
      var n := |sx| - 1;
      ValuesOfChars(sx[..n], s[..n]);
      CharBack(sx[n]);
      assert sx == sx[..n] + [sx[n]];
    }
  }

  lemma DecodeEncode(bytes: seq<byte>)
    ensures DecodeB64(Encode(bytes)) == Some(bytes)
  {
    ValuesOfChars(Sextets(bytes), Encode(bytes));
    BytesOfSextets(bytes);
  }

  /** What separates the parts of the string, or a base64 line, or a sign. */
  predicate Separator(c: char) {
    c in "$,=\r\n"
  }

  lemma EncodeHasNoSeparator(bytes: seq<byte>, c: char)
    requires Separator(c)
    ensures c !in Encode(bytes)
  {}

  /** The same in the URL alphabet. */
  function EncodeUrl(bytes: seq<byte>): string {
    ReplaceAll(ReplaceAll(Encode(bytes), '+', '-'), '/', '_')
  }

  function UrlChar(c: char): char {
    if c == '+' then '-' else if c == '/' then '_' else c
  }

  lemma UrlCharBack(v: sextet)
    ensures var c := CharOf(v);
            var u := UrlChar(c);
            && IndexOf(u, true) == v as int && u != '\r' && u != '\n'
            && IndexOf(u, false) == if u == c then v as int else -1
  {}

  lemma ValuesAppend(s: string, c: char, url: bool)
    requires c != '\r' && c != '\n'
    ensures Values(s + [c], url) == if Values(s, url).None? || IndexOf(c, url) < 0 then None
                                    else Some(Values(s, url).value + [IndexOf(c, url) as sextet])
  {
    assert (s + [c])[..|s|] == s;
  }

  lemma {:induction false} UrlValues(sx: seq<sextet>, u: string)
    requires |u| == |sx| && forall i | 0 <= i < |sx| :: u[i] == UrlChar(CharOf(sx[i]))
    ensures Values(u, true) == Some(sx)
  {
    if sx != [] {
      var n := |sx| - 1;
      UrlValues(sx[..n], u[..n]);
      UrlCharBack(sx[n]);
      ValuesAppend(u[..n], u[n], true);
      assert sx == sx[..n] + [sx[n]] && u == u[..n] + [u[n]];
    }
  }

  /** With a character of its own the URL alphabet is not mistaken for the standard one. */
  lemma {:induction false} UrlRefused(sx: seq<sextet>, u: string, i: nat)
    requires i < |u| == |sx| && u[i] == UrlChar(CharOf(sx[i])) != CharOf(sx[i])
    ensures Values(u, false) == None
  {
    var n := |sx| - 1;
    assert u == u[..n] + [u[n]];
    if i < n {
      UrlRefused(sx[..n], u[..n], i);
    } else {
      UrlCharBack(sx[i]);
      ValuesAppend(u[..n], u[n], false);
    }
  }

  /** The URL alphabet is read as well. */
  lemma DecodeEncodeUrl(bytes: seq<byte>)
    ensures DecodeB64(EncodeUrl(bytes)) == Some(bytes)
  {
    var sx, s, u := Sextets(bytes), Encode(bytes), EncodeUrl(bytes);
    UrlValues(sx, u);
    BytesOfSextets(bytes);
    if i :| 0 <= i < |u| && u[i] != s[i] {
      UrlRefused(sx, u, i);
    } else {
      assert u == s;
      ValuesOfChars(sx, s);
    }
  }

  /** One character outside both alphabets, or one of each, and the string is refused. */
  lemma NotBase64(s: string, i: nat, j: nat)
    requires i < |s| && j < |s|
    requires (s[i] in "+/" && s[j] in "-_") || (IndexOf(s[i], false) < 0 && s[i] !in "-_\r\n")
    ensures DecodeB64(s) == None
  {
    Refused(s, false, if s[i] in "+/" then j else i);
    Refused(s, true, i);
  }

  lemma {:induction false} Refused(s: string, url: bool, i: nat)
    requires i < |s| && IndexOf(s[i], url) < 0 && s[i] != '\r' && s[i] != '\n'
    ensures Values(s, url) == None
  {
    if i < |s| - 1 {
      Refused(s[..|s| - 1], url, i);
    }
  }

  /** Line ends do not count. */
  lemma LineEnds(s: string, c: char, url: bool)
    requires c in "\r\n"
    ensures Values(s + [c], url) == Values(s, url)
  {
    assert (s + [c])[..|s|] == s;
  }

  // ─── Hash ───

  const U32 := 0x1_0000_0000

  type uint32 = x: int | 0 <= x < U32
  type uint8 = x: int | 0 <= x < 256

  datatype Params = Params(memory: uint32, time: uint32, parallelism: uint8, keyLen: uint32)

  /** argon2.IDKey(password, salt, time, memory, threads, keyLen); None where it panics. */
  type Kdf = (string, seq<byte>, uint32, uint32, uint8, uint32) -> Option<seq<byte>>

  /** With at least one round, one thread and one byte it answers with as many bytes as it was asked for. */
  ghost predicate Lawful(kdf: Kdf) {
    forall pw, salt, t, m, p, n | t >= 1 && p >= 1 && n >= 1 ::
      kdf(pw, salt, t, m, p, n).Some? && |kdf(pw, salt, t, m, p, n).value| == n
  }

  function Item(k: char, n: nat): string {
    [k, '='] + Print(n)
  }

  function Settings(m: nat, t: nat, p: nat): string {
    Join([Item('m', m), Item('t', t), Item('p', p)], ',')
  }

  function Parts(m: nat, t: nat, p: nat, salt: seq<byte>, dk: seq<byte>): seq<string> {
    ["", "argon2id", "v=19", Settings(m, t, p), Encode(salt), Encode(dk)]
  }

  function Printed(m: nat, t: nat, p: nat, salt: seq<byte>, dk: seq<byte>): string {
    Join(Parts(m, t, p, salt, dk), '$')
  }

  /** The string as it is stored. */
  lemma PrintedIs(m: nat, t: nat, p: nat, salt: seq<byte>, dk: seq<byte>)
    ensures Printed(m, t, p, salt, dk) ==
            "" + ['$'] + ("argon2id" + ['$'] + ("v=19" + ['$'] + (Settings(m, t, p) + ['$'] + (Encode(salt) + ['$'] + Encode(dk)))))
    ensures Settings(m, t, p) == "m=" + Print(m) + [','] + ("t=" + Print(t) + [','] + ("p=" + Print(p)))
  {
    var items := [Item('m', m), Item('t', t), Item('p', p)];
    JoinTwo(items[0], items[1..], ',');
    JoinTwo(items[1], items[2..], ',');
    assert items[1..][1..] == items[2..];
    var parts := Parts(m, t, p, salt, dk);
    JoinTwo(parts[0], parts[1..], '$');
    JoinTwo(parts[1], parts[2..], '$');
    JoinTwo(parts[2], parts[3..], '$');
    JoinTwo(parts[3], parts[4..], '$');
    JoinTwo(parts[4], parts[5..], '$');
  }

  lemma JoinTwo(first: string, rest: seq<string>, sep: char)
    ensures Join([first] + rest, sep) == if rest == [] then first else first + [sep] + Join(rest, sep)
  {
    assert ([first] + rest)[1..] == rest;
  }

  datatype Hashed = EmptyPassword | KdfPanics | Hashed(phc: string)

  /** `salt` is what the random source gave. */
  function Hash(kdf: Kdf, prm: Params, plain: string, salt: seq<byte>): Hashed {
    if plain == "" then EmptyPassword
    else
      match kdf(plain, salt, prm.time, prm.memory, prm.parallelism, prm.keyLen)
      case None => KdfPanics
      case Some(dk) => Hashed(Printed(prm.memory, prm.time, prm.parallelism, salt, dk))
  }

  // ─── Verify ───

  function Cut(s: string, c: char): (r: Option<(string, string)>)
    ensures r.None? ==> c !in s
    ensures r.Some? ==> s == r.value.0 + [c] + r.value.1 && c !in r.value.0
  {
    if s == "" then None
    else if s[0] == c then Some(("", s[1..]))
    else
      match Cut(s[1..], c)
      case None => None
      case Some(p) => Some(([s[0]] + p.0, p.1))
  }

  datatype Numbers = Numbers(m: int, t: int, p: int)

  /** One k=v item; unknown keys and items without '=' are skipped, a bad number counts as its Atoi value. */
  function Assign(n: Numbers, item: string): Numbers {
    match Cut(item, '=')
    case None => n
    case Some(kv) =>
      if kv.0 == "m" then n.(m := Atoi(kv.1).0)
      else if kv.0 == "t" then n.(t := Atoi(kv.1).0)
      else if kv.0 == "p" then n.(p := Atoi(kv.1).0)
      else n
  }

  function AssignAll(items: seq<string>): Numbers {
    if items == [] then Numbers(0, 0, 0) else Assign(AssignAll(items[..|items| - 1]), items[|items| - 1])
  }

  datatype Fields = Fields(m: int, t: int, p: int, salt: seq<byte>, dk: seq<byte>)

  function Parse(phc: string): Option<Fields> {
    ParseParts(Split(phc, '$'))
  }

  function ParseParts(parts: seq<string>): Option<Fields> {
    if |parts| < 6 || parts[1] != "argon2id" || !HasPrefix(parts[2], "v=") || Atoi(parts[2][2..]) != (19, true) then None
    else
      var n := AssignAll(Split(parts[3], ','));
      var salt, dk := DecodeB64(parts[4]), DecodeB64(parts[5]);
      if n.m <= 0 || n.t <= 0 || n.p <= 0 || salt.None? || dk.None? then None
      else Some(Fields(n.m, n.t, n.p, salt.value, dk.value))
  }

  datatype Verdict = Match | Mismatch | Panics

  function Verified(kdf: Kdf, plain: string, phc: string): Verdict {
    if plain == "" then Mismatch
    else
      match Parse(phc)
      case None => Mismatch
      case Some(f) => Derives(kdf, plain, f)
  }

  /** The integer conversions drop high bits. */
  function Derives(kdf: Kdf, plain: string, f: Fields): Verdict {
    match kdf(plain, f.salt, f.t % U32, f.m % U32, f.p % 256, |f.dk| % U32)
    case None => Panics
    case Some(dk) => if dk == f.dk then Match else Mismatch
  }

  method Verify(kdf: Kdf, plain: string, phc: string) returns (r: Verdict)
    ensures r == Verified(kdf, plain, phc)
  {
    if plain == "" || phc == "" {
      return Mismatch;
    }
    var parts := Split(phc, '$');
    if |parts| < 6 || parts[1] != "argon2id" {
      return Mismatch;
    }
    if !HasPrefix(parts[2], "v=") {
      return Mismatch;
    }
    var (v, ok) := Atoi(parts[2][2..]);
    if !ok || v != 19 {
      return Mismatch;
    }
    var m, t, p := 0, 0, 0;
    var items := Split(parts[3], ',');
    for i := 0 to |items|
      invariant Numbers(m, t, p) == AssignAll(items[..i])
    {
      assert items[..i + 1][..i] == items[..i];
      var kvp := Cut(items[i], '=');
      if kvp.None? {
        continue;
      }
      match kvp.value.0 {
        case "m" => m := Atoi(kvp.value.1).0;
        case "t" => t := Atoi(kvp.value.1).0;
        case "p" => p := Atoi(kvp.value.1).0;
        case _ =>
      }
    }
    assert items[..|items|] == items;
    if m <= 0 || t <= 0 || p <= 0 {
      return Mismatch;
    }
    var salt := DecodeB64(parts[4]);
    if salt.None? {
      return Mismatch;
    }
    var stored := DecodeB64(parts[5]);
    if stored.None? {
      return Mismatch;
    }
    var dk := kdf(plain, salt.value, t % U32, m % U32, p % 256, |stored.value| % U32);
    if dk.None? {
      return Panics;
    }
    return if dk.value == stored.value then Match else Mismatch;
  }

  // ─── Round trip ───

  lemma {:induction false} CutAtFirst(k: string, v: string, c: char)
    requires c !in k
    ensures Cut(k + [c] + v, c) == Some((k, v))
  {
    var s := k + [c] + v;
    if k == "" {
      assert s[1..] == v;
    } else {
      assert s[1..] == k[1..] + [c] + v;
      CutAtFirst(k[1..], v, c);
      assert [k[0]] + k[1..] == k;
    }
  }

  lemma ItemReads(k: char, n: nat)
    requires k != '='
    ensures Cut(Item(k, n), '=') == Some(([k], Print(n)))
  {
    assert Item(k, n) == [k] + ['='] + Print(n);
    CutAtFirst([k], Print(n), '=');
  }

  lemma AssignThree(a: string, b: string, c: string)
    ensures AssignAll([a, b, c]) == Assign(Assign(Assign(Numbers(0, 0, 0), a), b), c)
  {
    assert AssignAll([a]) == Assign(Numbers(0, 0, 0), a) by {
      assert [a][..0] == [];
    }
    assert AssignAll([a, b]) == Assign(AssignAll([a]), b) by {
      assert [a, b][..1] == [a];
    }
    assert [a, b, c][..2] == [a, b];
  }

  lemma SettingsSplit(m: nat, t: nat, p: nat)
    ensures Split(Settings(m, t, p), ',') == [Item('m', m), Item('t', t), Item('p', p)]
  {
    SplitJoin([Item('m', m), Item('t', t), Item('p', p)], ',');
  }

  lemma AssignItem(n: Numbers, k: char, v: nat)
    requires k in "mtp" && v <= MAXINT
    ensures Assign(n, Item(k, v)) == if k == 'm' then n.(m := v) else if k == 't' then n.(t := v) else n.(p := v)
  {
    ItemReads(k, v);
    AtoiPrint(v);
    OneChar(k);
  }

  lemma OneChar(k: char)
    ensures ([k] == "m" <==> k == 'm') && ([k] == "t" <==> k == 't') && ([k] == "p" <==> k == 'p')
  {}

  lemma SettingsRead(m: nat, t: nat, p: nat)
    requires m <= MAXINT && t <= MAXINT && p <= MAXINT
    ensures AssignAll(Split(Settings(m, t, p), ',')) == Numbers(m, t, p)
  {
    SettingsSplit(m, t, p);
    AssignThree(Item('m', m), Item('t', t), Item('p', p));
    AssignItem(Numbers(0, 0, 0), 'm', m);
    AssignItem(Numbers(m, 0, 0), 't', t);
    AssignItem(Numbers(m, t, 0), 'p', p);
  }

  lemma SettingsHaveNoDollar(m: nat, t: nat, p: nat)
    ensures '$' !in Settings(m, t, p)
  {
    var items := [Item('m', m), Item('t', t), Item('p', p)];
    assert Join(items[1..], ',') == items[1] + [','] + Join(items[2..], ',');
    assert Settings(m, t, p) == items[0] + [','] + Join(items[1..], ',');
    assert items[2..] == [items[2]];
  }

  lemma PrintedSplits(m: nat, t: nat, p: nat, salt: seq<byte>, dk: seq<byte>)
    ensures Split(Printed(m, t, p, salt, dk), '$') == Parts(m, t, p, salt, dk)
  {
    SettingsHaveNoDollar(m, t, p);
    EncodeHasNoSeparator(salt, '$');
    EncodeHasNoSeparator(dk, '$');
    SplitJoin(Parts(m, t, p, salt, dk), '$');
  }

  lemma VersionReads()
    ensures "v=19"[2..] == "19" && Atoi("19") == (19, true)
  {
    assert "19"[..1] == "1" && "1"[..0] == "";
    assert Decimal("1") == 1;
  }

  /** Parsing the printed string gives back every field; a zero parameter is what the parser refuses. */
  lemma ParsePrinted(m: nat, t: nat, p: nat, salt: seq<byte>, dk: seq<byte>)
    requires m <= MAXINT && t <= MAXINT && p <= MAXINT
    ensures Parse(Printed(m, t, p, salt, dk)) ==
            if m > 0 && t > 0 && p > 0 then Some(Fields(m, t, p, salt, dk)) else None
  {
    PrintedSplits(m, t, p, salt, dk);
    SettingsRead(m, t, p);
    DecodeEncode(salt);
    DecodeEncode(dk);
    VersionReads();
  }

  /** An empty password is neither hashed nor accepted. */
  lemma EmptyRefused(kdf: Kdf, prm: Params, salt: seq<byte>, phc: string)
    ensures Hash(kdf, prm, "", salt) == EmptyPassword && Verified(kdf, "", phc) == Mismatch
  {}

  lemma SecondPart(front: string, second: string, rest: string)
    requires '$' !in front && '$' !in second
    ensures Split(front + ['$'] + (second + ['$'] + rest), '$') == [front, second] + Split(rest, '$')
  {
    SplitAtSeparator(front, second + ['$'] + rest, '$');
    SplitAtSeparator(second, rest, '$');
    SplitWithout(front, '$');
    SplitWithout(second, '$');
  }

  /** Another algorithm is refused. */
  lemma OtherAlgorithm(front: string, algorithm: string, rest: string)
    requires '$' !in front && '$' !in algorithm && algorithm != "argon2id"
    ensures Parse(front + ['$'] + (algorithm + ['$'] + rest)) == None
  {
    SecondPart(front, algorithm, rest);
  }

  /** So is another version, and one that is not a number. */
  lemma OtherVersion(front: string, algorithm: string, version: string, rest: string)
    requires '$' !in front && '$' !in algorithm && '$' !in version
    requires !("v=" <= version) || Atoi(version[2..]) != (19, true)
    ensures Parse(front + ['$'] + (algorithm + ['$'] + (version + ['$'] + rest))) == None
  {
    SecondPart(front, algorithm, version + ['$'] + rest);
    SplitAtSeparator(version, rest, '$');
    SplitWithout(version, '$');
  }

  /** Behind the key anything may follow. */
  lemma TrailingParts(phc: string, more: string)
    requires |Split(phc, '$')| >= 6
    ensures Parse(phc + ['$'] + more) == Parse(phc)
  {
    SplitAtSeparator(phc, more, '$');
  }

  /** Settings with another key, or without '=', change nothing. */
  lemma UnknownSetting(items: seq<string>, key: string, value: string)
    requires '=' !in key && key !in {"m", "t", "p"}
    ensures AssignAll(items + [key + ['='] + value]) == AssignAll(items) == AssignAll(items + [key])
  {
    CutAtFirst(key, value, '=');
    assert (items + [key])[..|items|] == items && (items + [key + ['='] + value])[..|items|] == items;
  }

  lemma VerifiedByFields(kdf: Kdf, plain: string, phc: string)
    requires plain != ""
    ensures Verified(kdf, plain, phc) == if Parse(phc).None? then Mismatch else Derives(kdf, plain, Parse(phc).value)
  {}

  lemma DerivesInRange(kdf: Kdf, plain: string, f: Fields)
    requires 0 <= f.m < U32 && 0 <= f.t < U32 && 0 <= f.p < 256 && |f.dk| < U32
    ensures Derives(kdf, plain, f) ==
            match kdf(plain, f.salt, f.t, f.m, f.p, |f.dk|)
            case None => Panics
            case Some(dk) => if dk == f.dk then Match else Mismatch
  {}

  /**
   For every password and all parameters argon2 takes, a string made by Hash accepts exactly the
   passwords that derive the same key, provided the memory is not zero; with zero memory it accepts none.
   */
  lemma HashThenVerify(kdf: Kdf, prm: Params, plain: string, salt: seq<byte>, other: string)
    requires Lawful(kdf) && prm.time >= 1 && prm.parallelism >= 1 && prm.keyLen >= 1 && plain != ""
    ensures Hash(kdf, prm, plain, salt).Hashed?
    ensures Verified(kdf, other, Hash(kdf, prm, plain, salt).phc) == Match <==>
            && other != "" && prm.memory > 0
            && kdf(other, salt, prm.time, prm.memory, prm.parallelism, prm.keyLen)
               == kdf(plain, salt, prm.time, prm.memory, prm.parallelism, prm.keyLen)
    ensures Verified(kdf, other, Hash(kdf, prm, plain, salt).phc) != Panics
  {
    var dk := kdf(plain, salt, prm.time, prm.memory, prm.parallelism, prm.keyLen).value;
    var phc := Printed(prm.memory, prm.time, prm.parallelism, salt, dk);
    var f := Fields(prm.memory, prm.time, prm.parallelism, salt, dk);
    var parsed := Parse(phc);
    assert parsed == if prm.memory > 0 then Some(f) else None by {
      ParsePrinted(prm.memory, prm.time, prm.parallelism, salt, dk);
    }
    assert Hash(kdf, prm, plain, salt) == Hashed(phc);
    var verdict := Verified(kdf, other, phc);
    assert verdict == if other == "" || prm.memory == 0 then Mismatch else Derives(kdf, other, f) by {
      if other != "" {
        VerifiedByFields(kdf, other, phc);
      }
    }
    DerivesInRange(kdf, other, f);
  }

  /** A stored string whose t is a positive multiple of 2^32 passes every check, and argon2 is run with no round. */
  lemma RoundsWrap(kdf: Kdf, plain: string, m: uint32, t: nat, p: uint8, salt: seq<byte>, dk: seq<byte>)
    requires plain != "" && m > 0 && p > 0 && 0 < t <= MAXINT && t % U32 == 0 && |dk| < U32
    ensures Verified(kdf, plain, Printed(m, t, p, salt, dk)) == Derives(kdf, plain, Fields(m, 0, p, salt, dk))
  {
    var phc := Printed(m, t, p, salt, dk);
    assert Parse(phc) == Some(Fields(m, t, p, salt, dk)) by {
      ParsePrinted(m, t, p, salt, dk);
    }
    VerifiedByFields(kdf, plain, phc);
  }
}
