/**
 Lookups by KID while the applier rotates the keyring.  GetJWKS reads active.json, retiring.json and the
 grace written in it at three moments, and the applier does not take the repository's lock, so the files
 may change in between.
 */
module KeyLookup {
  import opened Wrappers
  import opened Strings
  import opened ControlPlane
  import opened KeyRotation
  import Keystore

  /** What the repository reads out of a key file: its KID if the key is usable, and its retirement data if it is JSON. */
  datatype Reader = Reader(kid: string -> Option<string>, grace: string -> Option<(int, int)>)

  // ─── GetJWKS ───

  function KidIn(rd: Reader, file: Option<string>): Option<string> {
    if file.Some? then rd.kid(file.value) else None
  }

  function Listed(kid: Option<string>): seq<string> {
    if kid.Some? then [kid.value] else []
  }

  /** isWithinGracePeriod: what cannot be read counts as within grace. */
  predicate InGrace(rd: Reader, file: Option<string>, now: int) {
    file.Some? && rd.grace(file.value).Some? ==>
      Keystore.WithinGrace(Keystore.Retiring("", rd.grace(file.value).value.0, rd.grace(file.value).value.1), now)
  }

  /** retiring.json is read for its key and read again for its grace. */
  function RetiringListed(rd: Reader, first: KeyDir, second: KeyDir, now: int): seq<string> {
    if InGrace(rd, second.retiring, now) then Listed(KidIn(rd, first.retiring)) else []
  }

  /** The keyring of a tenant falls back to the global one, which nobody is rotating; that one has no fallback. */
  datatype Fallback = NoFallback | Global(dir: KeyDir)

  /** The KIDs of one GetJWKS, its three reads made in the directories a, b and c. */
  function Jwks(rd: Reader, fall: Fallback, a: KeyDir, b: KeyDir, c: KeyDir, now: int): seq<string> {
    if a.active.None? && fall.Global? then
      Listed(KidIn(rd, fall.dir.active)) + RetiringListed(rd, fall.dir, fall.dir, now)
    else
      Listed(KidIn(rd, a.active)) + RetiringListed(rd, b, c, now)
  }

  // ─── A rotation in between ───

  /** The key directory from the start of a rotation to its end, in the order of the steps. */
  function Moments(was: KeyDir, p: KeyPayload): seq<KeyDir> {
    var half := HalfDir(was, p);
    [was]
    + (if Blank(p.activeJson) then [] else [was.(active := None), half])
    + [half.(retiring := None)]
    + if Blank(p.retiringJson) then [] else [half.(retiring := Some(p.retiringJson))]
  }

  lemma MomentsArePassed(was: KeyDir, p: KeyPayload, v: KeyDir)
    ensures v in Moments(was, p) <==> v in Passed(was, p)
  {
    var half := HalfDir(was, p);
    assert Blank(p.activeJson) ==> half == was;
  }

  /** PublicKeyByKIDForTenant, its reads made at the moments i, j and k of the rotation. */
  predicate FoundAt(rd: Reader, fall: Fallback, ms: seq<KeyDir>, i: nat, j: nat, k: nat, cached: Option<string>, kid: string, now: int)
    requires i < |ms| && j < |ms| && k < |ms|
  {
    kid != "" && (cached == Some(kid) || kid in Jwks(rd, fall, ms[i], ms[j], ms[k], now))
  }

  /** Whenever the lookup makes its reads, it finds the key. */
  ghost predicate AlwaysFound(rd: Reader, fall: Fallback, ms: seq<KeyDir>, cached: Option<string>, kid: string, now: int) {
    forall i, j, k | 0 <= i <= j <= k < |ms| :: FoundAt(rd, fall, ms, i, j, k, cached, kid, now)
  }

  /** The two files hold a ring of the keystore. */
  predicate Encodes(rd: Reader, dir: KeyDir, ring: Keystore.Ring) {
    && dir.active.Some? && rd.kid(dir.active.value) == Some(ring.active)
    && match ring.retiring
       case None => dir.retiring.None?
       case Some(r) =>
         && dir.retiring.Some? && rd.kid(dir.retiring.value) == Some(r.kid)
         && rd.grace(dir.retiring.value) == Some((r.retiredAt, r.graceSeconds))
  }

  /** Without a rotation in between GetJWKS lists what the ring says. */
  lemma StillJwks(rd: Reader, fall: Fallback, dir: KeyDir, ring: Keystore.Ring, now: int)
    requires Encodes(rd, dir, ring)
    ensures Jwks(rd, fall, dir, dir, dir, now) == Keystore.Jwks(ring, now)
  {}

  /** A payload that retires the ring's active key at `at` in favour of `kid`. */
  predicate Retires(rd: Reader, p: KeyPayload, ring: Keystore.Ring, kid: string, grace: int, at: int) {
    && !Blank(p.activeJson) && rd.kid(p.activeJson) == Some(kid)
    && !Blank(p.retiringJson) && rd.kid(p.retiringJson) == Some(ring.active)
    && rd.grace(p.retiringJson) == Some((Keystore.Unix(at), grace))
  }

  /** Once it is over, the applier's rotation is the keystore's. */
  lemma RotationOver(rd: Reader, dir: KeyDir, ring: Keystore.Ring, p: KeyPayload, kid: string, grace: int, at: int)
    requires Encodes(rd, dir, ring) && Retires(rd, p, ring, kid, grace, at)
    ensures var ms := Moments(dir, p);
            ms[|ms| - 1] == RotatedDir(dir, p) && Encodes(rd, ms[|ms| - 1], Keystore.Rotated(ring, kid, grace, at))
  {}

  /** Beside a rotation that writes active.json, a lookup that finds that file gone or new finds no retiring.json either. */
  lemma GapMisses(rd: Reader, fall: Fallback, dir: KeyDir, p: KeyPayload, cached: Option<string>, kid: string, now: int)
    requires !Blank(p.activeJson) && AlwaysFound(rd, fall, Moments(dir, p), cached, kid, now)
    ensures cached == Some(kid)
            || (&& rd.kid(p.activeJson) == Some(kid)
                && fall.Global? && kid in Jwks(rd, NoFallback, fall.dir, fall.dir, fall.dir, now))
  {
    var ms := Moments(dir, p);
    assert ms[1] == dir.(active := None) && ms[2] == HalfDir(dir, p) && ms[3] == ms[2].(retiring := None);
    assert FoundAt(rd, fall, ms, 1, 3, 3, cached, kid, now);
    assert FoundAt(rd, fall, ms, 2, 3, 3, cached, kid, now);
  }

  lemma ActiveAt(dir: KeyDir, p: KeyPayload, i: nat)
    requires i < |Moments(dir, p)|
    ensures Moments(dir, p)[i].active in {dir.active, None, Some(p.activeJson)}
    ensures Blank(p.activeJson) ==> Moments(dir, p)[i].active == dir.active
  {}

  /**
   Exactly when every lookup of the active key beside a rotation finds it: the keystore has it cached, or the
   rotation leaves active.json alone, or it writes the same key again and the keyring it falls back to lists
   that key.  No grace helps: active.json and retiring.json are both without the key when the lookup reads them.
   */
  lemma FoundDuringRotationIff(rd: Reader, fall: Fallback, dir: KeyDir, ring: Keystore.Ring, p: KeyPayload,
                               cached: Option<string>, now: int)
    requires Encodes(rd, dir, ring)
    ensures AlwaysFound(rd, fall, Moments(dir, p), cached, ring.active, now)
       <==> && ring.active != ""
            && (|| cached == Some(ring.active)
                || Blank(p.activeJson)
                || (&& rd.kid(p.activeJson) == Some(ring.active)
                    && fall.Global? && ring.active in Jwks(rd, NoFallback, fall.dir, fall.dir, fall.dir, now)))
  {
    var ms, key := Moments(dir, p), ring.active;
    if AlwaysFound(rd, fall, ms, cached, key, now) {
      assert FoundAt(rd, fall, ms, 0, 0, 0, cached, key, now);
      if !Blank(p.activeJson) {
        GapMisses(rd, fall, dir, p, cached, key, now);
      }
    } else {
      var i, j, k :| 0 <= i <= j <= k < |ms| && !FoundAt(rd, fall, ms, i, j, k, cached, key, now);
      ActiveAt(dir, p, i);
    }
  }
}
