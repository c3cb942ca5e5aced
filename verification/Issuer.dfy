/**
 The issuer URL of a tenant and the way back: the slug read out of the iss claim
 when a token is verified.  Strings are byte strings; whether an authority is
 well formed is a parameter.
 */
module Issuer {
  import opened Wrappers
  import opened Strings

  /** override, mode and slug into the issuer of a tenant. */
  function ResolveIssuer(baseUrl: string, mode: string, slug: string, overriding: string): string {
    if overriding != "" then TrimRight(overriding, '/')
    else
      var base := TrimRight(baseUrl, '/');
      if mode == "path" || mode == "domain" then base + "/t/" + slug else base
  }

  // ─── url.Parse, as far as Path ───

  /** The part before the first c. */
  function UpTo(s: string, c: char): (r: string)
    ensures c !in r && r <= s
    ensures c !in s ==> r == s
    ensures |r| < |s| ==> s[|r|] == c
  {
    if s == "" || s[0] == c then "" else [s[0]] + UpTo(s[1..], c)
  }

  /** The part after the first c. */
  function After(s: string, c: char): string {
    var head := UpTo(s, c);
    if |head| < |s| then s[|head| + 1..] else ""
  }

  predicate Control(c: char) {
    c < ' ' || c == '\U{7F}'
  }

  predicate HasControl(s: string) {
    exists i :: 0 <= i < |s| && Control(s[i])
  }

  predicate Hex(c: char) {
    '0' <= c <= '9' || 'a' <= c <= 'f' || 'A' <= c <= 'F'
  }

  function HexValue(c: char): (n: nat)
    requires Hex(c)
    ensures n < 16
  {
    if c <= '9' then (c - '0') as nat else if c <= 'F' then (c - 'A') as nat + 10 else (c - 'a') as nat + 10
  }

  function Unescape(s: string): Option<string> {
    if s == "" then Some("")
    else if s[0] == '%' then
      if |s| < 3 || !Hex(s[1]) || !Hex(s[2]) then None
      else
        match Unescape(s[3..])
        case None => None
        case Some(rest) => Some([(16 * HexValue(s[1]) + HexValue(s[2])) as char] + rest)
    else
      match Unescape(s[1..])
      case None => None
      case Some(rest) => Some([s[0]] + rest)
  }

  datatype Scheme = NoScheme | Missing | EndsAt(i: nat)

  /** getScheme: where the colon after the scheme is. */
  function SchemeFrom(s: string, i: nat): (r: Scheme)
    requires i <= |s|
    ensures r.EndsAt? ==> i <= r.i < |s| && s[r.i] == ':'
    decreases |s| - i
  {
    if i == |s| then NoScheme
    else if 'a' <= s[i] <= 'z' || 'A' <= s[i] <= 'Z' then SchemeFrom(s, i + 1)
    else if '0' <= s[i] <= '9' || s[i] in "+-." then (if i == 0 then NoScheme else SchemeFrom(s, i + 1))
    else if s[i] == ':' then (if i == 0 then Missing else EndsAt(i))
    else NoScheme
  }

  /** What follows scheme and query is cut: None is an error, an opaque URL has no path. */
  function HierPath(auth: string -> bool, scheme: bool, rest: string): Option<string> {
    if !("/" <= rest) && scheme then Some("")
    else if !("/" <= rest) && ':' in UpTo(rest, '/') then None
    else if (scheme || !("///" <= rest)) && "//" <= rest then
      AfterAuthority(auth, rest[2..])
    else Unescape(rest)
  }

  function AfterAuthority(auth: string -> bool, s: string): Option<string> {
    var authority := UpTo(s, '/');
    if auth(authority) then Unescape(s[|authority|..]) else None
  }

  /** What is behind a scheme, if there is one, up to the query. */
  function HeadOf(u: string, scheme: Scheme): string
    requires scheme.EndsAt? ==> scheme.i < |u|
  {
    UpTo(if scheme.EndsAt? then u[scheme.i + 1..] else u, '?')
  }

  function BehindScheme(auth: string -> bool, u: string, scheme: Scheme): Option<string>
    requires scheme.EndsAt? ==> scheme.i < |u|
  {
    if scheme.Missing? then None else HierPath(auth, scheme.EndsAt?, HeadOf(u, scheme))
  }

  function ParseNoFragment(auth: string -> bool, u: string): Option<string> {
    if HasControl(u) then None
    else if u == "*" then Some("*")
    else BehindScheme(auth, u, SchemeFrom(u, 0))
  }

  /** u.Path of url.Parse, None where it returns an error. */
  function UrlPath(auth: string -> bool, s: string): Option<string> {
    var path := ParseNoFragment(auth, UpTo(s, '#'));
    if path.Some? && Unescape(After(s, '#')).None? then None else path
  }

  // ─── The slug in a path ───

  /** The segment after the last "t" that has one. */
  function SlugIn(parts: seq<string>): string {
    if |parts| < 2 then ""
    else if parts[|parts| - 2] == "t" then parts[|parts| - 1]
    else SlugIn(parts[..|parts| - 1])
  }

  predicate FollowsT(parts: seq<string>, i: int) {
    0 < i < |parts| && parts[i - 1] == "t"
  }

  /** Of the segments that follow a "t" it is the last, wherever that stands; without one there is no slug. */
  lemma {:induction false} LastAfterT(parts: seq<string>, i: int)
    ensures FollowsT(parts, i) && (forall k | i < k :: !FollowsT(parts, k)) ==> SlugIn(parts) == parts[i]
    ensures (forall k :: !FollowsT(parts, k)) ==> SlugIn(parts) == ""
  {
    if |parts| >= 2 && !FollowsT(parts, |parts| - 1) {
      var front := parts[..|parts| - 1];
      forall k ensures FollowsT(front, k) <==> FollowsT(parts, k) {}
      LastAfterT(front, i);
    }
  }

  function SlugOfIssuer(auth: string -> bool, iss: string): string {
    if iss == "" then ""
    else
      match UrlPath(auth, iss)
      case None => ""
      case Some(path) => SlugInPath(path)
  }

  function SlugInPath(path: string): string {
    SlugIn(Split(Trim(path, '/'), '/'))
  }

  method ExtractSlug(auth: string -> bool, iss: string) returns (slug: string)
    ensures slug == SlugOfIssuer(auth, iss)
  {
    slug := "";
    if iss != "" {
      var path := UrlPath(auth, iss);
      if path.Some? {
        var parts := Split(Trim(path.value, '/'), '/');
        for idx := 0 to |parts| - 1
          invariant slug == SlugIn(parts[..idx + 1])
        {
          assert parts[..idx + 2][..idx + 1] == parts[..idx + 1];
          if parts[idx] == "t" {
            slug := parts[idx + 1];
          }
        }
        assert parts[..|parts|] == parts;
      }
    }
  }

  datatype Claims = Claims(iss: Option<string>, tid: Option<string>)

  /** Lookups the verifier makes: a UUID test, the resolver from ID to slug, and the two keyrings. */
  datatype Lookups<Key> = Lookups(
    auth: string -> bool,
    isUuid: string -> bool,
    resolver: Option<string -> Option<string>>,
    tenantKey: (string, string) -> Option<Key>,
    globalKey: string -> Option<Key>)

  function TenantOfClaims<Key>(l: Lookups<Key>, c: Claims): string {
    var slug := if c.iss.Some? then SlugOfIssuer(l.auth, c.iss.value) else "";
    if slug != "" then slug
    else if c.tid.None? || c.tid.value == "" then ""
    else if !l.isUuid(c.tid.value) then c.tid.value
    else if l.resolver.None? then ""
    else
      match l.resolver.value(c.tid.value)
      case None => ""
      case Some(slug) => slug
  }

  /** The tenant's own key of that ID comes first, then the global one. */
  method KeyFromTokenClaims<Key>(l: Lookups<Key>, kid: string, c: Claims) returns (key: Option<Key>)
    ensures kid == "" ==> key == None
    ensures kid != "" ==>
              var tenant := TenantOfClaims(l, c);
              key == if tenant != "" && l.tenantKey(tenant, kid).Some? then l.tenantKey(tenant, kid) else l.globalKey(kid)
  {
    if kid == "" {
      return None;
    }
    var slug := "";
    if c.iss.Some? {
      slug := ExtractSlug(l.auth, c.iss.value);
    }
    if slug == "" && c.tid.Some? && c.tid.value != "" {
      if l.isUuid(c.tid.value) {
        if l.resolver.Some? {
          var found := l.resolver.value(c.tid.value);
          if found.Some? {
            slug := found.value;
          }
        }
      } else {
        slug := c.tid.value;
      }
    }
    if slug != "" {
      key := l.tenantKey(slug, kid);
      if key.Some? {
        return;
      }
    }
    key := l.globalKey(kid);
  }

  // ─── Round trip ───

  predicate SlugChar(c: char) {
    'a' <= c <= 'z' || '0' <= c <= '9' || c == '-'
  }

  predicate ValidSlug(slug: string) {
    slug != "" && forall i | 0 <= i < |slug| :: SlugChar(slug[i])
  }

  /** What the resolver appends: slug characters and slashes. */
  predicate Tail(s: string) {
    forall i | 0 <= i < |s| :: SlugChar(s[i]) || s[i] == '/'
  }

  lemma {:induction false} UpToKeeps(s: string, x: string, c: char)
    ensures c in s ==> UpTo(s + x, c) == UpTo(s, c)
    ensures c !in s ==> UpTo(s + x, c) == s + UpTo(x, c)
  {
    if s == "" {
      assert s + x == x;
    } else if s[0] != c {
      assert (s + x)[1..] == s[1..] + x;
      UpToKeeps(s[1..], x, c);
    }
  }

  lemma {:induction false} SchemeStops(s: string, x: string, i: nat, k: nat)
    requires i <= k < |s| && s[k] == '/'
    ensures SchemeFrom(s + x, i) == SchemeFrom(s, i)
    decreases k - i
  {
    if i < k {
      SchemeStops(s, x, i + 1, k);
    }
  }

  lemma {:induction false} UnescapePlain(x: string)
    requires '%' !in x
    ensures Unescape(x) == Some(x)
  {
    if x != "" {
      UnescapePlain(x[1..]);
      assert x == [x[0]] + x[1..];
    }
  }

  lemma Regrouped(c: char, q: Option<string>, x: string)
    ensures q.Some? ==> [c] + (q.value + x) == ([c] + q.value) + x
  {}

  /** An escape never runs across a slash. */
  lemma {:induction false} UnescapeAppend(p: string, x: string)
    requires '%' !in x
    ensures Unescape(p + "/" + x) == match Unescape(p + "/") {
                                       case None => None
                                       case Some(q) => Some(q + x)
                                     }
    ensures Unescape(p + "/").Some? ==> Unescape(p).Some? && Unescape(p + "/").value == Unescape(p).value + "/"
  {
    var s, t := p + "/" + x, p + "/";
    if p == "" {
      UnescapePlain(x);
      UnescapePlain("/" + x);
      UnescapePlain("/");
      assert s == "/" + x && t == "/";
    } else if p[0] != '%' {
      assert s[1..] == p[1..] + "/" + x && t[1..] == p[1..] + "/";
      UnescapeAppend(p[1..], x);
      Regrouped(p[0], Unescape(t[1..]), x);
      Regrouped(p[0], Unescape(p[1..]), "/");
    } else if |p| >= 3 {
      assert s[3..] == p[3..] + "/" + x && t[3..] == p[3..] + "/";
      UnescapeAppend(p[3..], x);
      if Hex(p[1]) && Hex(p[2]) {
        var c := (16 * HexValue(p[1]) + HexValue(p[2])) as char;
        Regrouped(c, Unescape(t[3..]), x);
        Regrouped(c, Unescape(p[3..]), "/");
      }
    } else {
      assert s[|p|] == '/' && t[|p|] == '/' && !Hex('/');
    }
  }

  function Extended(path: Option<string>, x: string): Option<string> {
    if path.None? || path.value == "" then path else Some(path.value + x)
  }

  lemma EndsInSlash(p: string)
    requires Unescape(p + "/").Some?
    ensures var q := Unescape(p + "/").value; q != "" && q[|q| - 1] == '/'
  {
    UnescapeAppend(p, "");
  }

  lemma SameStart(r: string, x: string)
    requires x != "" && x[0] != '/' && (r != "" ==> r[|r| - 1] != '/')
    ensures "//" <= r + "/" + x <==> "//" <= r
    ensures "//" <= r + "/" <==> "//" <= r
    ensures "///" <= r + "/" + x <==> "///" <= r
    ensures "///" <= r + "/" <==> "///" <= r
    ensures "//" <= r ==> |r| >= 3
  {
    var s, t := r + "/" + x, r + "/";
    assert |s| >= 2 && s[|r|] == '/' && s[|r| + 1] == x[0];
    assert forall i | 0 <= i < |r| :: s[i] == r[i] && t[i] == r[i];
  }

  /** The path of a base closed by a slash, and the same with x behind it. */
  predicate Extends(longer: Option<string>, shorter: Option<string>, x: string) {
    && longer == Extended(shorter, x)
    && (shorter.Some? && shorter.value != "" ==> shorter.value[|shorter.value| - 1] == '/')
  }

  lemma PlainExtends(r: string, x: string)
    requires '%' !in x
    ensures Extends(Unescape(r + "/" + x), Unescape(r + "/"), x)
  {
    UnescapeAppend(r, x);
    if Unescape(r + "/").Some? {
      EndsInSlash(r);
    }
  }

  lemma UpToSlash(r: string, x: string)
    ensures UpTo(r + "/" + x, '/') == UpTo(r, '/') == UpTo(r + "/", '/')
  {
    assert r + "/" + x == r + ("/" + x);
    UpToKeeps(r, "/" + x, '/');
    UpToKeeps(r, "/", '/');
  }

  /** What is before the first mark and what is behind it, once the base holds one. */
  lemma MarkAt(base: string, y: string, c: char)
    requires c in base
    ensures |UpTo(base, c)| < |base|
    ensures UpTo(base + y, c) == UpTo(base, c)
    ensures After(base + y, c) == base[|UpTo(base, c)| + 1..] + y
  {
    UpToKeeps(base, y, c);
    SliceBehind(base, y, |UpTo(base, c)| + 1);
  }

  lemma SliceBehind(base: string, y: string, n: nat)
    requires n <= |base|
    ensures (base + y)[n..] == base[n..] + y
  {}

  lemma Assoc(a: string, x: string)
    ensures a + "/" + x == a + ("/" + x)
  {}

  lemma AuthorityExtends(auth: string -> bool, r: string, x: string)
    requires '%' !in x
    ensures Extends(AfterAuthority(auth, r + "/" + x), AfterAuthority(auth, r + "/"), x)
  {
    UpToSlash(r, x);
    var a := UpTo(r, '/');
    var p := r[|a|..];
    assert (r + "/" + x)[|a|..] == p + "/" + x && (r + "/")[|a|..] == p + "/";
    PlainExtends(p, x);
  }

  /** Appending to a base that ends in one slash appends to its path. */
  lemma HierPathExtends(auth: string -> bool, scheme: bool, r: string, x: string)
    requires '%' !in x && x != "" && x[0] != '/' && (r != "" ==> r[|r| - 1] != '/')
    ensures Extends(HierPath(auth, scheme, r + "/" + x), HierPath(auth, scheme, r + "/"), x)
  {
    var s, t := r + "/" + x, r + "/";
    assert s == t + x;
    SameStart(r, x);
    if !("/" <= t) {
      UpToKeeps(t, x, '/');
      if !scheme && ':' !in UpTo(t, '/') {
        PlainExtends(r, x);
      }
    } else if "//" <= t && (scheme || !("///" <= t)) {
      assert s[2..] == r[2..] + "/" + x && t[2..] == r[2..] + "/";
      AuthorityExtends(auth, r[2..], x);
    } else {
      PlainExtends(r, x);
    }
  }

  predicate NoQuery(base: string) {
    '#' !in base && '?' !in base
  }

  lemma TailIsPlain(x: string)
    requires Tail(x)
    ensures '#' !in x && '?' !in x && '%' !in x && !HasControl(x)
  {}

  lemma ControlsOf(t: string, x: string)
    requires !HasControl(x)
    ensures HasControl(t + x) == HasControl(t)
  {
    var s := t + x;
    assert forall i | 0 <= i < |t| :: s[i] == t[i];
    assert forall i | |t| <= i < |s| :: s[i] == x[i - |t|];
  }

  /** The scheme, and what is behind it, of a base with something appended. */
  lemma SchemeOf(base: string, x: string)
    ensures SchemeFrom(base + "/" + x, 0) == SchemeFrom(base + "/", 0)
    ensures SchemeFrom(base + "/", 0).EndsAt? ==> SchemeFrom(base + "/", 0).i < |base|
  {
    var t := base + "/";
    assert t[|base|] == '/';
    assert base + "/" + x == t + x;
    SchemeStops(t, x, 0, |base|);
  }

  lemma BehindSchemeExtends(auth: string -> bool, base: string, x: string, scheme: Scheme)
    requires '?' !in base && Tail(x) && x != "" && x[0] != '/' && (base != "" ==> base[|base| - 1] != '/')
    requires scheme.EndsAt? ==> scheme.i < |base|
    ensures Extends(BehindScheme(auth, base + "/" + x, scheme), BehindScheme(auth, base + "/", scheme), x)
  {
    TailIsPlain(x);
    match scheme {
      case Missing =>
      case NoScheme =>
        HierPathExtends(auth, false, base, x);
      case EndsAt(i) =>
        EndsAtExtends(auth, base, x, i);
    }
  }

  lemma EndsAtExtends(auth: string -> bool, base: string, x: string, i: nat)
    requires '?' !in base && Tail(x) && x != "" && x[0] != '/' && (base != "" ==> base[|base| - 1] != '/')
    requires i < |base|
    ensures Extends(BehindScheme(auth, base + "/" + x, EndsAt(i)), BehindScheme(auth, base + "/", EndsAt(i)), x)
  {
    TailIsPlain(x);
    var r := base[i + 1..];
    Assoc(base, x);
    Assoc(r, x);
    SliceBehind(base, "/" + x, i + 1);
    SliceBehind(base, "/", i + 1);
    HierPathExtends(auth, true, r, x);
  }

  lemma NoFragmentExtends(auth: string -> bool, base: string, x: string)
    requires '?' !in base && Tail(x) && x != "" && x[0] != '/' && (base != "" ==> base[|base| - 1] != '/')
    ensures Extends(ParseNoFragment(auth, base + "/" + x), ParseNoFragment(auth, base + "/"), x)
  {
    var s, t := base + "/" + x, base + "/";
    assert s == t + x;
    TailIsPlain(x);
    ControlsOf(t, x);
    SchemeOf(base, x);
    assert s[|base|] == '/' && t[|base|] == '/';
    BehindSchemeExtends(auth, base, x, SchemeFrom(t, 0));
  }

  lemma WithoutFragment(auth: string -> bool, s: string)
    requires '#' !in s
    ensures UrlPath(auth, s) == ParseNoFragment(auth, s)
  {}

  lemma UrlPathExtends(auth: string -> bool, base: string, x: string)
    requires NoQuery(base) && Tail(x) && x != "" && x[0] != '/' && (base != "" ==> base[|base| - 1] != '/')
    ensures Extends(UrlPath(auth, base + "/" + x), UrlPath(auth, base + "/"), x)
  {
    TailIsPlain(x);
    WithoutFragment(auth, base + "/" + x);
    WithoutFragment(auth, base + "/");
    NoFragmentExtends(auth, base, x);
  }

  /** Behind a query or a fragment mark nothing reaches the path. */
  lemma MarkHides(auth: string -> bool, base: string, x: string, y: string)
    requires !NoQuery(base) && Tail(x) && Tail(y)
    ensures UrlPath(auth, base + "/" + x) == UrlPath(auth, base + "/" + y)
  {
    TailIsPlain(x);
    TailIsPlain(y);
    if '#' in base {
      FragmentHides(auth, base, x);
      FragmentHides(auth, base, y);
    } else {
      QueryHides(auth, base, x);
      QueryHides(auth, base, y);
    }
  }

  lemma FragmentHides(auth: string -> bool, base: string, x: string)
    requires '#' in base && '%' !in x
    ensures UrlPath(auth, base + "/" + x) == UrlPath(auth, base + "/")
  {
    Assoc(base, x);
    MarkAt(base, "/" + x, '#');
    MarkAt(base, "/", '#');
    var f := base[|UpTo(base, '#')| + 1..];
    Assoc(f, x);
    UnescapeAppend(f, x);
  }

  lemma QueryHides(auth: string -> bool, base: string, x: string)
    requires '?' in base && '#' !in base && Tail(x)
    ensures UrlPath(auth, base + "/" + x) == UrlPath(auth, base + "/")
  {
    TailIsPlain(x);
    WithoutFragment(auth, base + "/" + x);
    WithoutFragment(auth, base + "/");
    QueryHidesPath(auth, base, x);
  }

  lemma QueryHidesPath(auth: string -> bool, base: string, x: string)
    requires '?' in base && !HasControl(x)
    ensures ParseNoFragment(auth, base + "/" + x) == ParseNoFragment(auth, base + "/")
  {
    var s, t := base + "/" + x, base + "/";
    assert s == t + x;
    assert s[|base|] == '/' && t[|base|] == '/';
    ControlsOf(t, x);
    SchemeOf(base, x);
    var k := SchemeFrom(t, 0);
    if k.EndsAt? {
      MarkBehindScheme(base, k.i);
    }
    SameHead(base, x, k);
  }

  lemma SameHead(base: string, x: string, k: Scheme)
    requires '?' in base && (k.EndsAt? ==> k.i < |base| && '?' in base[k.i + 1..])
    ensures HeadOf(base + "/" + x, k) == HeadOf(base + "/", k)
  {
    if k.EndsAt? {
      SameTail(base, x, k.i);
    } else {
      SameUpTo(base, x);
    }
  }

  lemma SameUpTo(base: string, x: string)
    requires '?' in base
    ensures UpTo(base + "/" + x, '?') == UpTo(base + "/", '?')
  {
    Assoc(base, x);
    MarkAt(base, "/" + x, '?');
    MarkAt(base, "/", '?');
  }

  lemma SameTail(base: string, x: string, i: nat)
    requires i < |base| && '?' in base[i + 1..]
    ensures UpTo((base + "/" + x)[i + 1..], '?') == UpTo((base + "/")[i + 1..], '?')
  {
    Assoc(base, x);
    SliceBehind(base, "/" + x, i + 1);
    SliceBehind(base, "/", i + 1);
    Assoc(base[i + 1..], x);
    SameUpTo(base[i + 1..], x);
  }

  lemma MarkBehindScheme(base: string, i: nat)
    requires '?' in base && SchemeFrom(base + "/", 0) == EndsAt(i) && i < |base|
    ensures '?' in base[i + 1..]
  {
    var t := base + "/";
    SchemeHasNoMark(t, 0);
    var m :| 0 <= m < |base| && base[m] == '?';
    assert t[m] == '?';
    assert base[i + 1..][m - i - 1] == '?';
  }

  lemma {:induction false} SchemeHasNoMark(s: string, i: nat)
    requires i <= |s| && SchemeFrom(s, i).EndsAt?
    ensures forall k | i <= k <= SchemeFrom(s, i).i :: s[k] != '?'
    decreases |s| - i
  {
    if s[i] != ':' {
      SchemeHasNoMark(s, i + 1);
    }
  }

  // ─── URLs of known form ───

  predicate Letter(c: char) {
    'a' <= c <= 'z' || 'A' <= c <= 'Z'
  }

  /** Section 3.1 of RFC 3986. */
  predicate ValidScheme(s: string) {
    && s != "" && Letter(s[0])
    && forall i | 0 <= i < |s| :: Letter(s[i]) || '0' <= s[i] <= '9' || s[i] == '+' || s[i] == '-' || s[i] == '.'
  }

  /** Nothing that ends, escapes or forbids anything. */
  predicate PlainChars(s: string) {
    forall i | 0 <= i < |s| :: s[i] != '?' && s[i] != '#' && s[i] != '%' && ' ' <= s[i] != '\U{7F}'
  }

  lemma {:induction false} SchemeIs(scheme: string, rest: string, i: nat)
    requires ValidScheme(scheme) && i <= |scheme|
    ensures SchemeFrom(scheme + (":" + rest), i) == EndsAt(|scheme|)
    decreases |scheme| - i
  {
    var s := scheme + (":" + rest);
    if i < |scheme| {
      assert s[i] == scheme[i];
      SchemeIs(scheme, rest, i + 1);
    } else {
      assert s[i] == ':';
    }
  }

  lemma PlainParts(scheme: string, rest: string)
    requires ValidScheme(scheme) && PlainChars(rest)
    ensures PlainChars(scheme + (":" + rest))
  {
    var s := scheme + (":" + rest);
    forall i | 0 <= i < |s|
      ensures s[i] != '?' && s[i] != '#' && s[i] != '%' && ' ' <= s[i] != '\U{7F}'
    {
      if i < |scheme| {
        assert s[i] == scheme[i];
      } else if i > |scheme| {
        assert s[i] == rest[i - |scheme| - 1];
      }
    }
  }

  lemma BehindValidScheme(auth: string -> bool, scheme: string, rest: string)
    requires ValidScheme(scheme) && PlainChars(rest)
    ensures UrlPath(auth, scheme + (":" + rest)) == HierPath(auth, true, rest)
  {
    PlainParts(scheme, rest);
    SchemeIs(scheme, rest, 0);
    BehindColon(scheme, rest);
    WithScheme(auth, scheme + (":" + rest), |scheme|, rest);
  }

  lemma BehindColon(scheme: string, rest: string)
    ensures (scheme + (":" + rest))[|scheme| + 1..] == rest
  {}

  lemma WithScheme(auth: string -> bool, u: string, i: nat, rest: string)
    requires PlainChars(u) && i < |u| && SchemeFrom(u, 0) == EndsAt(i) && u[i + 1..] == rest
    ensures UrlPath(auth, u) == HierPath(auth, true, rest)
  {
    WithoutFragment(auth, u);
    assert '?' !in rest;
    assert HeadOf(u, EndsAt(i)) == rest;
  }

  /** scheme://authority/path has that path if the authority is well formed; scheme:rest without a slash has none. */
  lemma UrlForms(auth: string -> bool, scheme: string, authority: string, path: string)
    requires ValidScheme(scheme) && PlainChars(authority) && '/' !in authority && PlainChars(path)
    requires path != "" ==> path[0] == '/'
    ensures UrlPath(auth, scheme + (":" + ("//" + (authority + path)))) == if auth(authority) then Some(path) else None
    ensures authority != "" ==> UrlPath(auth, scheme + (":" + (authority + path))) == Some("")
  {
    var rest := authority + path;
    assert PlainChars(rest) && PlainChars("//" + rest);
    BehindValidScheme(auth, scheme, "//" + rest);
    assert ("//" + rest)[2..] == rest;
    AuthorityUpTo(authority, path);
    assert rest[|authority|..] == path;
    UnescapePlain(path);
    BehindValidScheme(auth, scheme, rest);
    if authority != "" {
      assert rest[0] == authority[0];
    }
  }

  lemma AuthorityUpTo(authority: string, path: string)
    requires '/' !in authority && (path != "" ==> path[0] == '/')
    ensures UpTo(authority + path, '/') == authority
  {
    UpToKeeps(authority, path, '/');
    assert UpTo(path, '/') == "";
    assert authority + "" == authority;
  }

  lemma WithoutScheme(auth: string -> bool, u: string)
    requires PlainChars(u) && SchemeFrom(u, 0) == NoScheme && u != "*"
    ensures UrlPath(auth, u) == HierPath(auth, false, u)
  {
    WithoutFragment(auth, u);
    assert HeadOf(u, NoScheme) == u;
  }

  /** A path whose first segment has no colon is itself. */
  lemma RelativeForm(auth: string -> bool, first: string, path: string)
    requires PlainChars(first) && first != "" && '/' !in first && ':' !in first && PlainChars(path) && path != "" && path[0] == '/'
    ensures UrlPath(auth, first + path) == Some(first + path)
  {
    var u := first + path;
    NoColonNoScheme(first, path, 0);
    assert u[0] == first[0] && u[|first|] == '/';
    WithoutScheme(auth, u);
    AuthorityUpTo(first, path);
    UnescapePlain(u);
  }

  /** So is a path that does not start with two slashes. */
  lemma RootedForm(auth: string -> bool, path: string)
    requires PlainChars(path) && path != "" && path[0] == '/' && !("//" <= path)
    ensures UrlPath(auth, path) == Some(path)
  {
    WithoutScheme(auth, path);
    UnescapePlain(path);
  }

  /** A colon in front is an error. */
  lemma MissingScheme(auth: string -> bool, rest: string)
    requires PlainChars(rest)
    ensures UrlPath(auth, ":" + rest) == None
  {
    PlainColon(rest);
    WithoutFragment(auth, ":" + rest);
    assert (":" + rest)[0] == ':';
    assert SchemeFrom(":" + rest, 0) == Missing;
  }

  lemma PlainColon(rest: string)
    requires PlainChars(rest)
    ensures PlainChars(":" + rest)
  {
    forall i | 0 < i <= |rest| ensures (":" + rest)[i] == rest[i - 1] {}
  }

  lemma {:induction false} NoColonNoScheme(first: string, path: string, i: nat)
    requires ':' !in first && i <= |first| && path != "" && path[0] == '/'
    ensures SchemeFrom(first + path, i) == NoScheme
    decreases |first| - i
  {
    var s := first + path;
    if i < |first| {
      assert s[i] == first[i];
      NoColonNoScheme(first, path, i + 1);
    } else {
      assert s[i] == '/';
    }
  }

  /** A name before a colon that does not start with a letter is no scheme, and a colon in the first segment is an error. */
  lemma NotAScheme(auth: string -> bool, first: string, path: string)
    requires PlainChars(first) && '/' !in first && ':' in first && '0' <= first[0] <= '9' && PlainChars(path)
    requires path != "" && path[0] == '/'
    ensures UrlPath(auth, first + path) == None
  {
    var u := first + path;
    assert u[0] == first[0] && u[|first|] == '/';
    WithoutScheme(auth, u);
    AuthorityUpTo(first, path);
  }

  /** The asterisk of an OPTIONS request is a path of its own. */
  lemma Asterisk(auth: string -> bool)
    ensures UrlPath(auth, "*") == Some("*")
  {
    WithoutFragment(auth, "*");
  }

  /** A fragment with a broken escape makes the URL malformed, whatever is before it. */
  lemma BrokenFragment(auth: string -> bool, u: string, fragment: string)
    requires Unescape(fragment) == None && '#' !in u
    ensures UrlPath(auth, u + (['#'] + fragment)) == None
  {
    UpToKeeps(u, ['#'] + fragment, '#');
    assert UpTo(['#'] + fragment, '#') == "";
    assert u + "" == u;
    assert (u + (['#'] + fragment))[|u| + 1..] == fragment;
  }

  function HexDigit(n: nat, upper: bool): char
    requires n < 16
  {
    if upper then "0123456789ABCDEF"[n] else "0123456789abcdef"[n]
  }

  /** %XX for every byte, in digits of either case. */
  function Escaped(s: string, upper: bool): string
    requires forall i | 0 <= i < |s| :: s[i] as int < 256
  {
    if s == "" then ""
    else ['%', HexDigit(s[0] as int / 16, upper), HexDigit(s[0] as int % 16, upper)] + Escaped(s[1..], upper)
  }

  lemma HexBack(n: nat, upper: bool)
    requires n < 16
    ensures Hex(HexDigit(n, upper)) && HexValue(HexDigit(n, upper)) == n
  {}

  /** Every byte string is read back from its escapes; an escape that is cut off or has other digits is an error. */
  lemma {:induction false} UnescapeEscaped(s: string, upper: bool)
    requires forall i | 0 <= i < |s| :: s[i] as int < 256
    ensures Unescape(Escaped(s, upper)) == Some(s)
  {
    if s != "" {
      UnescapeEscaped(s[1..], upper);
      UnescapeOne(s[0], Escaped(s[1..], upper), s[1..], upper);
      assert [s[0]] + s[1..] == s;
    }
  }

  lemma UnescapeOne(c: char, rest: string, plain: string, upper: bool)
    requires c as int < 256 && Unescape(rest) == Some(plain)
    ensures Unescape(['%', HexDigit(c as int / 16, upper), HexDigit(c as int % 16, upper)] + rest) == Some([c] + plain)
  {
    var n := c as int;
    HexBack(n / 16, upper);
    HexBack(n % 16, upper);
    var e := ['%', HexDigit(n / 16, upper), HexDigit(n % 16, upper)] + rest;
    assert e[3..] == rest;
    assert 16 * (n / 16) + n % 16 == n && n as char == c;
  }

  lemma BadEscape(s: string)
    requires |s| >= 1 && s[0] == '%'
    requires |s| < 3 || s[1] !in "0123456789ABCDEFabcdef" || s[2] !in "0123456789ABCDEFabcdef"
    ensures Unescape(s) == None
  {
    if |s| >= 3 {
      DigitNeeded(s[1]);
      DigitNeeded(s[2]);
    }
  }

  lemma DigitNeeded(c: char)
    ensures Hex(c) <==> c in "0123456789ABCDEFabcdef"
  {
    if Hex(c) {
      var n, text := HexValue(c), "0123456789ABCDEFabcdef";
      assert if c <= 'F' then text[n] == c else text[n + 6] == c;
    }
  }

  // ─── Slugs come back ───

  lemma {:induction false} TrimmedRight(s: string)
    ensures TrimRight(s, '/') != "" ==> TrimRight(s, '/')[|TrimRight(s, '/')| - 1] != '/'
  {
    if s != "" && s[|s| - 1] == '/' {
      TrimmedRight(s[..|s| - 1]);
    }
  }

  lemma {:induction false} TrimmedLeft(p: string, x: string)
    requires x != "" && x[0] != '/' && p != "" && p[|p| - 1] == '/'
    ensures var q := TrimLeft(p + x, '/');
            q == x || exists y :: q == y + "/" + x
  {
    var s := p + x;
    if p[0] == '/' {
      assert s[1..] == p[1..] + x;
      if |p| > 1 {
        TrimmedLeft(p[1..], x);
      } else {
        assert s[1..] == x;
      }
    } else {
      var y := p[..|p| - 1];
      assert p == y + "/";
      assert s == y + "/" + x;
    }
  }

  lemma TailSplits(slug: string)
    requires '/' !in slug
    ensures Split("t/" + slug, '/') == ["t", slug]
  {
    assert "t" + ['/'] + slug == "t/" + slug;
    SplitWithout("t", '/');
    SplitWithout(slug, '/');
    SplitAtSeparator("t", slug, '/');
  }

  lemma SlugOfTrimmed(q: string, slug: string)
    requires '/' !in slug
    requires q == "t/" + slug || exists y :: q == y + "/" + ("t/" + slug)
    ensures SlugIn(Split(q, '/')) == slug
  {
    TailSplits(slug);
    if q != "t/" + slug {
      var y :| q == y + "/" + ("t/" + slug);
      SplitAtSeparator(y, "t/" + slug, '/');
    }
  }

  /** The last match wins: whatever comes before, the segment after the last "t" is the slug. */
  lemma SlugOfPath(p: string, slug: string)
    requires ValidSlug(slug) && p != "" && p[|p| - 1] == '/'
    ensures SlugInPath(p + ("t/" + slug)) == slug
  {
    var x := "t/" + slug;
    TrimmedLeft(p, x);
    var q := TrimLeft(p + x, '/');
    assert x[|x| - 1] == slug[|slug| - 1];
    assert q[|q| - 1] == x[|x| - 1];
    SlugOfTrimmed(q, slug);
  }

  /** The base has a path of its own once it is closed by a slash: it parses and is not opaque. */
  predicate Readable(auth: string -> bool, base: string) {
    UrlPath(auth, base + "/").Some? && UrlPath(auth, base + "/").value != ""
  }

  lemma ResolvedIs(base: string, mode: string, slug: string)
    requires mode == "path" || mode == "domain"
    ensures ResolveIssuer(base, mode, slug, "") == TrimRight(base, '/') + "/" + ("t/" + slug)
  {}

  /** Without query or fragment, a slug comes back if and only if the base is readable. */
  lemma SlugRoundTrip(auth: string -> bool, base: string, mode: string, slug: string)
    requires (mode == "path" || mode == "domain") && ValidSlug(slug) && NoQuery(TrimRight(base, '/'))
    ensures SlugOfIssuer(auth, ResolveIssuer(base, mode, slug, "")) == slug <==> Readable(auth, TrimRight(base, '/'))
  {
    var b := TrimRight(base, '/');
    var x := "t/" + slug;
    assert forall i | 0 <= i < |x| :: SlugChar(x[i]) || x[i] == '/';
    ResolvedIs(base, mode, slug);
    TrimmedRight(base);
    UrlPathExtends(auth, b, x);
    SlugBehind(auth, b, slug);
  }

  lemma ByPath(auth: string -> bool, iss: string)
    requires iss != ""
    ensures SlugOfIssuer(auth, iss) == if UrlPath(auth, iss).Some? then SlugInPath(UrlPath(auth, iss).value) else ""
  {}

  lemma NoPathNoSlug()
    ensures SlugInPath("") == ""
  {}

  lemma SlugBehind(auth: string -> bool, base: string, slug: string)
    requires ValidSlug(slug)
    requires Extends(UrlPath(auth, base + "/" + ("t/" + slug)), UrlPath(auth, base + "/"), "t/" + slug)
    ensures SlugOfIssuer(auth, base + "/" + ("t/" + slug)) == slug <==> Readable(auth, base)
  {
    var path := UrlPath(auth, base + "/");
    ByPath(auth, base + "/" + ("t/" + slug));
    if Readable(auth, base) {
      SlugOfPath(path.value, slug);
    } else {
      NoPathNoSlug();
    }
  }

  /** Every slug comes back if and only if the base has no query or fragment and is readable. */
  lemma EverySlugRoundTripsIff(auth: string -> bool, base: string, mode: string)
    requires mode == "path" || mode == "domain"
    ensures (forall slug | ValidSlug(slug) :: SlugOfIssuer(auth, ResolveIssuer(base, mode, slug, "")) == slug)
       <==> NoQuery(TrimRight(base, '/')) && Readable(auth, TrimRight(base, '/'))
  {
    var b := TrimRight(base, '/');
    if NoQuery(b) {
      forall slug | ValidSlug(slug)
        ensures SlugOfIssuer(auth, ResolveIssuer(base, mode, slug, "")) == slug <==> Readable(auth, b)
      {
        SlugRoundTrip(auth, base, mode, slug);
      }
      assert ValidSlug("a");
    } else {
      assert ValidSlug("a") && ValidSlug("b");
      ResolvedIs(base, mode, "a");
      ResolvedIs(base, mode, "b");
      assert "t/" + "a" == "t/a" && "t/" + "b" == "t/b";
      MarkHides(auth, b, "t/a", "t/b");
      assert SlugOfIssuer(auth, ResolveIssuer(base, mode, "a", "")) == SlugOfIssuer(auth, ResolveIssuer(base, mode, "b", ""));
    }
  }

  /** An override wins, without its final slashes; path and domain mode append the slug to the base, other modes do not. */
  lemma IssuerForms(base: string, n: nat, mode: string, slug: string, other: string)
    requires base != "" ==> base[|base| - 1] != '/'
    ensures base + Repeat('/', n) != "" ==> ResolveIssuer(other, mode, slug, base + Repeat('/', n)) == base
    ensures ResolveIssuer(base + Repeat('/', n), mode, slug, "") == if mode in {"path", "domain"} then base + "/t/" + slug else base
  {
    TrimRightIs(base, '/', n);
  }

  /** With a base scheme://authority and a plain path, every slug comes back if and only if the authority is well formed. */
  lemma UsualBase(auth: string -> bool, scheme: string, authority: string, path: string, mode: string, slug: string)
    requires ValidScheme(scheme) && PlainChars(authority) && authority != "" && '/' !in authority && PlainChars(path)
    requires path != "" ==> path[0] == '/' && path[|path| - 1] != '/'
    requires (mode == "path" || mode == "domain") && ValidSlug(slug)
    ensures var base := scheme + (":" + ("//" + (authority + path)));
            SlugOfIssuer(auth, ResolveIssuer(base, mode, slug, "")) == slug <==> auth(authority)
  {
    var base := scheme + (":" + ("//" + (authority + path)));
    assert base[|base| - 1] == (authority + path)[|authority + path| - 1];
    assert TrimRight(base, '/') == base;
    PlainParts(scheme, "//" + (authority + path));
    assert base + "/" == scheme + (":" + ("//" + (authority + (path + "/"))));
    UrlForms(auth, scheme, authority, path + "/");
    SlugRoundTrip(auth, base, mode, slug);
  }

  /** Where iss gives no slug, tid does: as it is, or through the resolver if it is a UUID. */
  lemma TidDecides<Key>(l: Lookups<Key>, iss: Option<string>, tid: string)
    requires iss.Some? ==> SlugOfIssuer(l.auth, iss.value) == ""
    ensures TenantOfClaims(l, Claims(iss, None)) == "" == TenantOfClaims(l, Claims(iss, Some("")))
    ensures tid != "" && !l.isUuid(tid) ==> TenantOfClaims(l, Claims(iss, Some(tid))) == tid
    ensures tid != "" && l.isUuid(tid) ==>
              var found := if l.resolver.Some? then l.resolver.value(tid) else None;
              TenantOfClaims(l, Claims(iss, Some(tid))) == if found.Some? then found.value else ""
  {}

  /** A token issued for a tenant is looked up in that tenant's keyring first, whatever its tid says. */
  lemma IssuerDecidesTenant<Key>(l: Lookups<Key>, base: string, mode: string, slug: string, tid: Option<string>)
    requires (mode == "path" || mode == "domain") && ValidSlug(slug)
    requires NoQuery(TrimRight(base, '/')) && Readable(l.auth, TrimRight(base, '/'))
    ensures TenantOfClaims(l, Claims(Some(ResolveIssuer(base, mode, slug, "")), tid)) == slug
  {
    SlugRoundTrip(l.auth, base, mode, slug);
  }
}
