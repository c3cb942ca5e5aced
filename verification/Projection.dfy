/**
 Tenants do not see each other: what a log does to one tenant is what the
 entries addressed to that tenant do on their own.
 */
module Projection {
  import opened Wrappers
  import opened ControlPlane

  /** The slug a mutation acts on: the payload's for a tenant upsert, the entry's otherwise. */
  function TenantOf(m: Mutation): string {
    if m.TenantUpsert? && m.tenant.Some? then m.tenant.value.slug else m.slug
  }

  /** The directory and keyring of one tenant. */
  datatype Part = Part(dir: Option<TenantDir>, ring: Option<KeyDir>)

  function PartOf(s: Control, slug: string): Part {
    Part(if slug in s.tenants then Some(s.tenants[slug]) else None,
         if RingOf(slug) in s.rings then Some(s.rings[RingOf(slug)]) else None)
  }

  /** A part is the tenant's directory and its keyring, both whole. */
  lemma PartIs(a: Control, b: Control, slug: string)
    ensures var ring := if slug == "" then "global" else slug;
            PartOf(a, slug) == PartOf(b, slug) <==>
            && (slug in a.tenants <==> slug in b.tenants)
            && (slug in a.tenants && slug in b.tenants ==> a.tenants[slug] == b.tenants[slug])
            && (ring in a.rings <==> ring in b.rings)
            && (ring in a.rings && ring in b.rings ==> a.rings[ring] == b.rings[ring])
  {}

  /** "" and "global" share a keyring but not a directory, so key rotations are addressed by ring. */
  predicate Addressed(m: Mutation, slug: string) {
    if m.KeyRotate? then RingOf(m.slug) == RingOf(slug) else TenantOf(m) == slug
  }

  function Filter(log: seq<Mutation>, slug: string): seq<Mutation> {
    if log == [] then []
    else
      var front := Filter(log[..|log| - 1], slug);
      if Addressed(log[|log| - 1], slug) then front + [log[|log| - 1]] else front
  }

  lemma StepElsewhere(s: Control, m: Mutation, slug: string)
    requires !Addressed(m, slug)
    ensures PartOf(Next(s, m), slug) == PartOf(s, slug)
  {}

  lemma StepLocal(a: Control, b: Control, m: Mutation, slug: string)
    requires Addressed(m, slug) && PartOf(a, slug) == PartOf(b, slug)
    ensures PartOf(Next(a, m), slug) == PartOf(Next(b, m), slug)
    ensures Step(a, m).1 == Step(b, m).1
  {
    assert slug in a.tenants <==> slug in b.tenants;
  }

  /** A tenant's part of the final state, from any two starts that agree on it, needs only the tenant's own entries. */
  lemma {:induction false} TenantProjection(a: Control, b: Control, log: seq<Mutation>, slug: string)
    requires PartOf(a, slug) == PartOf(b, slug)
    ensures PartOf(Run(a, log), slug) == PartOf(Run(b, Filter(log, slug)), slug)
  {
    if log != [] {
      var front, m := log[..|log| - 1], log[|log| - 1];
      TenantProjection(a, b, front, slug);
      if Addressed(m, slug) {
        assert Filter(log, slug)[..|Filter(log, slug)| - 1] == Filter(front, slug);
        StepLocal(Run(a, front), Run(b, Filter(front, slug)), m, slug);
      } else {
        StepElsewhere(Run(a, front), m, slug);
      }
    }
  }

  /** What the applier answers to a tenant's entry does not depend on other tenants' entries either. */
  lemma AnswersAreLocal(s: Control, log: seq<Mutation>, m: Mutation)
    ensures Step(Run(s, log), m).1 == Step(Run(s, Filter(log, TenantOf(m))), m).1
  {
    TenantProjection(s, s, log, TenantOf(m));
    StepLocal(Run(s, log), Run(s, Filter(log, TenantOf(m))), m, TenantOf(m));
  }

  lemma MeetingIsLocal(s: Control, log: seq<Mutation>, m: Mutation, slug: string)
    requires Addressed(m, slug)
    ensures MeetsClient(Run(s, log), m) <==> MeetsClient(Run(s, Filter(log, slug)), m)
  {
    TenantProjection(s, s, log, slug);
    StepLocal(Run(s, log), Run(s, Filter(log, slug)), m, slug);
  }

  lemma FilterAnswers(s: Control, log: seq<Mutation>, slug: string)
    requires log != []
    ensures var front, m := log[..|log| - 1], log[|log| - 1];
            AnswersAll(s, Filter(log, slug)) <==>
            AnswersAll(s, Filter(front, slug)) && (Addressed(m, slug) ==> !MeetsClient(Run(s, front), m))
  {
    var front, m := log[..|log| - 1], log[|log| - 1];
    if Addressed(m, slug) {
      var f := Filter(log, slug);
      assert f[..|f| - 1] == Filter(front, slug) && f[|f| - 1] == m;
      AnswersFront(s, f);
      MeetingIsLocal(s, front, m, slug);
    }
  }

  lemma {:induction false} OneAnswers(s: Control, log: seq<Mutation>, slug: string)
    requires AnswersAll(s, log)
    ensures AnswersAll(s, Filter(log, slug))
  {
    if log != [] {
      AnswersFront(s, log);
      OneAnswers(s, log[..|log| - 1], slug);
      FilterAnswers(s, log, slug);
    }
  }

  ghost predicate EachAnswers(s: Control, log: seq<Mutation>) {
    forall slug :: AnswersAll(s, Filter(log, slug))
  }

  lemma EachAnswersFront(s: Control, log: seq<Mutation>)
    requires log != [] && EachAnswers(s, log)
    ensures EachAnswers(s, log[..|log| - 1])
    ensures !MeetsClient(Run(s, log[..|log| - 1]), log[|log| - 1])
  {
    var front, m := log[..|log| - 1], log[|log| - 1];
    forall slug
      ensures AnswersAll(s, Filter(front, slug))
    {
      FilterAnswers(s, log, slug);
    }
    FilterAnswers(s, log, m.slug);
    assert m.ClientUpsert? ==> Addressed(m, m.slug);
  }

  lemma {:induction false} AllAnswer(s: Control, log: seq<Mutation>)
    requires EachAnswers(s, log)
    ensures AnswersAll(s, log)
  {
    if log != [] {
      EachAnswersFront(s, log);
      AllAnswer(s, log[..|log| - 1]);
      AnswersFront(s, log);
    }
  }

  lemma StuckIff(s: Control, log: seq<Mutation>)
    ensures Exec(s, log).stuck <==> !AnswersAll(s, log)
  {
    ExecAnswersIff(s, log);
  }

  /** A tenant's own entries are all answered. */
  predicate ComesBack(s: Control, log: seq<Mutation>, slug: string) {
    !Exec(s, Filter(log, slug)).stuck
  }

  lemma OneComesBack(s: Control, log: seq<Mutation>, slug: string)
    requires !Exec(s, log).stuck
    ensures ComesBack(s, log, slug)
  {
    StuckIff(s, log);
    StuckIff(s, Filter(log, slug));
    OneAnswers(s, log, slug);
  }

  lemma AllComeBack(s: Control, log: seq<Mutation>)
    requires forall slug :: ComesBack(s, log, slug)
    ensures !Exec(s, log).stuck
  {
    forall slug
      ensures AnswersAll(s, Filter(log, slug))
    {
      assert ComesBack(s, log, slug);
      StuckIff(s, Filter(log, slug));
    }
    AllAnswer(s, log);
    StuckIff(s, log);
  }

  /**
   What is not separate is coming back: one tenant's client upsert that is never answered stops every
   tenant.  A log is applied to its end if and only if each tenant's own entries would be.
   */
  lemma AnsweredTogether(s: Control, log: seq<Mutation>)
    ensures !Exec(s, log).stuck <==> forall slug :: ComesBack(s, log, slug)
  {
    if !Exec(s, log).stuck {
      forall slug
        ensures ComesBack(s, log, slug)
      {
        OneComesBack(s, log, slug);
      }
    } else if forall slug :: ComesBack(s, log, slug) {
      AllComeBack(s, log);
    }
  }

  lemma RotationSeparate(s: Control, m: Mutation)
    requires m.KeyRotate?
    ensures Next(s, m).tenants == s.tenants
  {}

  lemma OthersSeparate(s: Control, m: Mutation)
    requires !m.KeyRotate?
    ensures Next(s, m).rings == s.rings
  {}

  lemma TenantsOnly(a: Control, b: Control, m: Mutation)
    requires !m.KeyRotate? && a.tenants == b.tenants
    ensures Next(a, m).tenants == Next(b, m).tenants
  {}

  lemma RingsOnly(a: Control, b: Control, m: Mutation)
    requires m.KeyRotate? && a.rings == b.rings
    ensures Next(a, m).rings == Next(b, m).rings
  {}

  lemma RotationsCommute(s: Control, m: Mutation, n: Mutation)
    requires m.KeyRotate? && n.KeyRotate? && RingOf(m.slug) != RingOf(n.slug)
    ensures Next(Next(s, m), n) == Next(Next(s, n), m)
  {
    if m.keys.Some? && n.keys.Some? {
      assert Next(Next(s, m), n).rings == Next(Next(s, n), m).rings;
    }
  }

  lemma RotationAndOtherCommute(s: Control, m: Mutation, n: Mutation)
    requires m.KeyRotate? && !n.KeyRotate?
    ensures Next(Next(s, m), n) == Next(Next(s, n), m)
  {
    RotationSeparate(s, m);
    RotationSeparate(Next(s, n), m);
    OthersSeparate(s, n);
    OthersSeparate(Next(s, m), n);
    TenantsOnly(s, Next(s, m), n);
    RingsOnly(s, Next(s, n), m);
  }

  lemma DirectoriesCommute(s: Control, m: Mutation, n: Mutation)
    requires !m.KeyRotate? && !n.KeyRotate? && TenantOf(m) != TenantOf(n)
    ensures Next(Next(s, m), n) == Next(Next(s, n), m)
  {
    var a, b := Next(Next(s, m), n), Next(Next(s, n), m);
    forall slug
      ensures PartOf(a, slug).dir == PartOf(b, slug).dir
    {
      if TenantOf(m) == slug {
        StepElsewhere(Next(s, m), n, slug);
        StepElsewhere(s, n, slug);
        StepLocal(s, Next(s, n), m, slug);
      } else {
        StepElsewhere(s, m, slug);
        StepElsewhere(Next(s, n), m, slug);
        if TenantOf(n) == slug {
          StepLocal(s, Next(s, m), n, slug);
        } else {
          StepElsewhere(Next(s, m), n, slug);
          StepElsewhere(s, n, slug);
        }
      }
    }
    SameDirectories(a, b);
    OthersSeparate(s, m);
    OthersSeparate(Next(s, m), n);
    OthersSeparate(s, n);
    OthersSeparate(Next(s, n), m);
  }

  lemma SameDirectories(a: Control, b: Control)
    requires forall slug :: PartOf(a, slug).dir == PartOf(b, slug).dir
    ensures a.tenants == b.tenants
  {
    forall slug
      ensures slug in a.tenants <==> slug in b.tenants
      ensures slug in a.tenants ==> a.tenants[slug] == b.tenants[slug]
    {
      assert PartOf(a, slug).dir == PartOf(b, slug).dir;
    }
  }

  /** Two entries that act on different tenants may be swapped. */
  lemma DifferentTenantsCommute(s: Control, m: Mutation, n: Mutation)
    requires TenantOf(m) != TenantOf(n)
    requires m.KeyRotate? && n.KeyRotate? ==> RingOf(m.slug) != RingOf(n.slug)
    ensures Next(Next(s, m), n) == Next(Next(s, n), m)
  {
    if m.KeyRotate? && n.KeyRotate? {
      RotationsCommute(s, m, n);
    } else if m.KeyRotate? {
      RotationAndOtherCommute(s, m, n);
    } else if n.KeyRotate? {
      RotationAndOtherCommute(s, n, m);
    } else {
      DirectoriesCommute(s, m, n);
    }
  }
}
