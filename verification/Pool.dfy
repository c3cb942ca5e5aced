/**
 The connection pool: a concurrent map filled under a singleflight group.  Each
 label below is one atomic step of some goroutine; a run is any sequence of
 enabled steps, so every interleaving of Get, Close, Refresh, health checks and one
 CloseAll is one.
 */
module Pool {
  import opened Wrappers

  type Conn = nat
  type Thread = nat

  /** How far the function passed to singleflight has come; a finished one has its result. */
  datatype Phase = Checking | Opening | Opened(conn: Conn) | Finished(result: Option<Conn>)

  datatype Flight = Flight(id: nat, phase: Phase)

  datatype Wait = Wait(slug: string, flight: nat)

  datatype Answer = Answer(thread: Thread, flight: nat, result: Option<Conn>)

  /** CloseAll at one entry: it has read it and perhaps closed its connection. */
  datatype Sweep = Sweep(slug: string, conn: Conn, closed: bool)

  /** A slug on a health check's list, with the connection that was found dead or idle. */
  datatype Listing = Listing(slug: string, conn: Conn)

  datatype State = State(
    pooled: map<string, Conn>,
    flights: map<string, Flight>,
    nextFlight: nat,
    results: map<nat, Option<Conn>>,   // results of flights that have ended
    waiting: map<Thread, Wait>,        // leader and joiners of a flight
    answers: seq<Answer>,              // what flights have returned to their callers
    owner: seq<string>,                // owner[c] is the slug connection c was opened for
    removed: set<Conn>,                // taken out of the map, Close not called yet
    closes: seq<Conn>,                 // the calls of Close so far
    sweep: Option<Sweep>,
    listed: seq<Listing>)

  const START := State(map[], map[], 0, map[], map[], [], [], {}, [], None, [])

  datatype Label =
    | Hit(t: Thread, slug: string)        // Load finds an entry
    | Enter(t: Thread, slug: string)      // sf.Do: start a flight or join the one under way
    | Check(slug: string)                 // the second Load, inside the flight
    | Dial(slug: string, ok: bool)        // factory
    | Store(slug: string)
    | End(slug: string)                   // the group forgets the flight
    | Collect(t: Thread)                  // sf.Do returns
    | Remove(slug: string)                // LoadAndDelete, for Close or Refresh
    | CloseConn(conn: Conn)               // conn.Close()
    | Visit(slug: string)                 // CloseAll: Range comes to an entry
    | CloseVisited                        // CloseAll: entry.conn.Close()
    | DeleteVisited                       // CloseAll: connections.Delete(key), whatever is there now
    | List(slug: string, twice: bool)     // health check: Ping failed, or idle, or both
    | CloseListed(i: nat)                 // health check: LoadAndDelete of a listed slug

  predicate Enabled(s: State, l: Label) {
    match l
    case Hit(t, slug) => t !in s.waiting && slug in s.pooled
    case Enter(t, slug) => t !in s.waiting
    case Check(slug) => slug in s.flights && s.flights[slug].phase.Checking?
    case Dial(slug, _) => slug in s.flights && s.flights[slug].phase.Opening?
    case Store(slug) => slug in s.flights && s.flights[slug].phase.Opened?
    case End(slug) => slug in s.flights && s.flights[slug].phase.Finished?
    case Collect(t) => t in s.waiting && s.waiting[t].flight in s.results
    case Remove(slug) => true
    case CloseConn(c) => c in s.removed
    case Visit(slug) => s.sweep.None? && slug in s.pooled
    case CloseVisited => s.sweep.Some? && !s.sweep.value.closed
    case DeleteVisited => s.sweep.Some? && s.sweep.value.closed
    case List(slug, _) => slug in s.pooled
    case CloseListed(i) => i < |s.listed|
  }

  /** LoadAndDelete; the caller then closes what it took. */
  function Take(s: State, slug: string): State {
    if slug in s.pooled then s.(pooled := s.pooled - {slug}, removed := s.removed + {s.pooled[slug]}) else s
  }

  function InPhase(s: State, slug: string, phase: Phase): State
    requires slug in s.flights
  {
    s.(flights := s.flights[slug := s.flights[slug].(phase := phase)])
  }

  function Step(s: State, l: Label): State
    requires Enabled(s, l)
  {
    match l
    case Hit(t, slug) => s
    case Enter(t, slug) =>
      if slug in s.flights then
        s.(waiting := s.waiting[t := Wait(slug, s.flights[slug].id)])
      else
        s.(flights := s.flights[slug := Flight(s.nextFlight, Checking)], nextFlight := s.nextFlight + 1,
           waiting := s.waiting[t := Wait(slug, s.nextFlight)])
    case Check(slug) => InPhase(s, slug, if slug in s.pooled then Finished(Some(s.pooled[slug])) else Opening)
    case Dial(slug, ok) =>
      if ok then InPhase(s, slug, Opened(|s.owner|)).(owner := s.owner + [slug])
      else InPhase(s, slug, Finished(None))
    case Store(slug) =>
      var c := s.flights[slug].phase.conn;
      InPhase(s, slug, Finished(Some(c))).(pooled := s.pooled[slug := c])
    case End(slug) =>
      var f := s.flights[slug];
      s.(flights := s.flights - {slug}, results := s.results[f.id := f.phase.result])
    case Collect(t) =>
      var w := s.waiting[t];
      s.(waiting := s.waiting - {t}, answers := s.answers + [Answer(t, w.flight, s.results[w.flight])])
    case Remove(slug) => Take(s, slug)
    case CloseConn(c) => s.(removed := s.removed - {c}, closes := s.closes + [c])
    case Visit(slug) => s.(sweep := Some(Sweep(slug, s.pooled[slug], false)))
    case CloseVisited =>
      var v := s.sweep.value;
      s.(closes := s.closes + [v.conn], sweep := Some(v.(closed := true)))
    case DeleteVisited => s.(pooled := s.pooled - {s.sweep.value.slug}, sweep := None)
    case List(slug, twice) =>
      var entry := Listing(slug, s.pooled[slug]);
      s.(listed := s.listed + if twice then [entry, entry] else [entry])
    case CloseListed(i) => Take(s, s.listed[i].slug)
  }

  // ─── Invariants ───

  /** Opened by a flight that has not stored it yet. */
  predicate Pending(s: State, c: Conn) {
    c < |s.owner| && s.owner[c] in s.flights && s.flights[s.owner[c]].phase == Opened(c)
  }

  predicate InMap(s: State, c: Conn) {
    c < |s.owner| && s.owner[c] in s.pooled && s.pooled[s.owner[c]] == c
  }

  function One(b: bool): nat {
    if b then 1 else 0
  }

  function Count(xs: seq<Conn>, c: Conn): nat {
    if xs == [] then 0 else Count(xs[..|xs| - 1], c) + One(xs[|xs| - 1] == c)
  }

  /** Closed by a CloseAll that has still to delete the entry. */
  predicate Swept(s: State, c: Conn) {
    s.sweep.Some? && s.sweep.value.closed && s.sweep.value.conn == c
  }

  /** In how many of the four places a connection is: pending, pooled for use, taken out, closed (once per call). */
  function Places(s: State, c: Conn): nat {
    One(Pending(s, c)) + One(InMap(s, c) && !Swept(s, c)) + One(c in s.removed) + Count(s.closes, c)
  }

  ghost predicate Conserved(s: State) {
    && (forall c | 0 <= c < |s.owner| :: Places(s, c) == 1)
    && (forall c | c >= |s.owner| :: c !in s.removed && Count(s.closes, c) == 0)
  }

  /** Where a slug's connections are, all of them opened for it. */
  predicate FiledAt(s: State, slug: string) {
    && (slug in s.pooled ==> s.pooled[slug] < |s.owner| && s.owner[s.pooled[slug]] == slug)
    && (slug in s.flights && s.flights[slug].phase.Opened? ==>
          s.flights[slug].phase.conn < |s.owner| && s.owner[s.flights[slug].phase.conn] == slug)
    && (slug in s.flights && s.flights[slug].phase.Finished? && s.flights[slug].phase.result.Some? ==>
          s.flights[slug].phase.result.value < |s.owner| && s.owner[s.flights[slug].phase.result.value] == slug)
  }

  ghost predicate Filed(s: State) {
    forall slug | slug in s.pooled || slug in s.flights :: FiledAt(s, slug)
  }

  /** A flight that is going to store finds nothing in the map. */
  ghost predicate Exclusive(s: State) {
    forall slug | slug in s.flights && (s.flights[slug].phase.Opening? || s.flights[slug].phase.Opened?) ::
      slug !in s.pooled
  }

  /** Flights have numbers of their own. */
  ghost predicate Numbered(s: State) {
    && (forall slug | slug in s.flights :: s.flights[slug].id < s.nextFlight && s.flights[slug].id !in s.results)
    && (forall a, b | a in s.flights && b in s.flights && a != b :: s.flights[a].id != s.flights[b].id)
    && (forall id | id in s.results :: id < s.nextFlight)
  }

  /** Every caller waits for a flight that is under way or has ended. */
  ghost predicate Served(s: State) {
    forall t | t in s.waiting ::
      || (s.waiting[t].slug in s.flights && s.flights[s.waiting[t].slug].id == s.waiting[t].flight)
      || s.waiting[t].flight in s.results
  }

  ghost predicate Answered(s: State) {
    forall i | 0 <= i < |s.answers| ::
      s.answers[i].flight in s.results && s.answers[i].result == s.results[s.answers[i].flight]
  }

  /** What every interleaving keeps. */
  ghost predicate Inv(s: State) {
    Filed(s) && Exclusive(s) && Numbered(s) && Served(s) && Answered(s)
  }

  /** What CloseAll has read is still there. */
  predicate Tied(s: State) {
    s.sweep.Some? ==>
      var v := s.sweep.value;
      && v.slug in s.pooled && s.pooled[v.slug] == v.conn
      && (v.closed ==> Count(s.closes, v.conn) == 1)
  }

  ghost predicate Kept(s: State) {
    Inv(s) && Conserved(s) && Tied(s)
  }

  /** The slug a step takes out of the map, apart from CloseAll's own Delete. */
  predicate Takes(s: State, l: Label, slug: string) {
    l == Remove(slug) || (l.CloseListed? && l.i < |s.listed| && s.listed[l.i].slug == slug)
  }

  /** Someone takes the entry that CloseAll is at. */
  predicate Disturbs(s: State, l: Label) {
    s.sweep.Some? && Takes(s, l, s.sweep.value.slug)
  }

  lemma CountPush(xs: seq<Conn>, x: Conn, c: Conn)
    ensures Count(xs + [x], c) == Count(xs, c) + One(x == c)
  {}

  lemma StepFiledAt(s: State, l: Label, slug: string)
    requires FiledAt(s, slug) && Enabled(s, l)
    ensures FiledAt(Step(s, l), slug)
  {
    match l
    case Hit(_, _) =>
    case Enter(_, _) =>
    case Check(_) =>
    case Dial(_, _) =>
    case Store(_) =>
    case End(_) =>
    case Collect(_) =>
    case Remove(_) =>
    case CloseConn(_) =>
    case Visit(_) =>
    case CloseVisited =>
    case DeleteVisited =>
    case List(_, _) =>
    case CloseListed(_) =>
  }

  lemma StepFiled(s: State, l: Label)
    requires Filed(s) && Enabled(s, l)
    ensures Filed(Step(s, l))
  {
    forall slug ensures FiledAt(Step(s, l), slug) {
      assert FiledAt(s, slug);
      StepFiledAt(s, l, slug);
    }
  }

  lemma StepExclusive(s: State, l: Label)
    requires Filed(s) && Exclusive(s) && Enabled(s, l)
    ensures Exclusive(Step(s, l))
  {
    match l
    case Hit(_, _) =>
    case Enter(_, _) =>
    case Check(_) =>
    case Dial(_, _) =>
    case Store(_) =>
    case End(_) =>
    case Collect(_) =>
    case Remove(_) =>
    case CloseConn(_) =>
    case Visit(_) =>
    case CloseVisited =>
    case DeleteVisited =>
    case List(_, _) =>
    case CloseListed(_) =>
  }

  /** Steps that concern no flight and no caller of one. */
  predicate Apart(l: Label) {
    !l.Enter? && !l.Check? && !l.Dial? && !l.Store? && !l.End? && !l.Collect?
  }

  lemma ApartStep(s: State, l: Label)
    requires Enabled(s, l) && Apart(l)
    ensures var n := Step(s, l);
            && n.flights == s.flights && n.results == s.results && n.nextFlight == s.nextFlight
            && n.waiting == s.waiting && n.answers == s.answers && n.owner == s.owner
  {
    match l
    case Hit(_, _) =>
    case Remove(_) =>
    case CloseConn(_) =>
    case Visit(_) =>
    case CloseVisited =>
    case DeleteVisited =>
    case List(_, _) =>
    case CloseListed(_) =>
  }

  lemma NumberedEnter(s: State, t: Thread, slug: string)
    requires Numbered(s) && Enabled(s, Enter(t, slug))
    ensures Numbered(Step(s, Enter(t, slug)))
  {}

  lemma NumberedEnd(s: State, slug: string)
    requires Numbered(s) && Enabled(s, End(slug))
    ensures Numbered(Step(s, End(slug)))
  {}

  lemma NumberedPhase(s: State, n: State, slug: string, phase: Phase)
    requires Numbered(s) && slug in s.flights && n.flights == InPhase(s, slug, phase).flights
    requires n.results == s.results && n.nextFlight == s.nextFlight
    ensures Numbered(n)
  {}

  /** Steps inside a flight move its phase only. */
  lemma PhaseStep(s: State, l: Label) returns (slug: string, phase: Phase)
    requires Enabled(s, l) && (l.Check? || l.Dial? || l.Store?)
    ensures slug in s.flights
    ensures var n := Step(s, l);
            n.flights == InPhase(s, slug, phase).flights && n.results == s.results && n.nextFlight == s.nextFlight
  {
    slug := l.slug;
    phase := Step(s, l).flights[slug].phase;
  }

  lemma StepNumbered(s: State, l: Label)
    requires Numbered(s) && Enabled(s, l)
    ensures Numbered(Step(s, l))
  {
    if Apart(l) || l.Collect? {
      if Apart(l) {
        ApartStep(s, l);
      }
    } else if l.Enter? {
      NumberedEnter(s, l.t, l.slug);
    } else if l.End? {
      NumberedEnd(s, l.slug);
    } else {
      var slug, phase := PhaseStep(s, l);
      NumberedPhase(s, Step(s, l), slug, phase);
    }
  }

  lemma StepServed(s: State, l: Label)
    requires Numbered(s) && Served(s) && Answered(s) && Enabled(s, l)
    ensures Served(Step(s, l))
  {
    if Apart(l) {
      ApartStep(s, l);
    } else {
      match l
      case Enter(_, _) =>
      case Check(_) =>
      case Dial(_, _) =>
      case Store(_) =>
      case End(_) =>
      case Collect(_) =>
    }
  }

  lemma StepAnswered(s: State, l: Label)
    requires Numbered(s) && Served(s) && Answered(s) && Enabled(s, l)
    ensures Answered(Step(s, l))
  {
    if Apart(l) {
      ApartStep(s, l);
    } else {
      match l
      case Enter(_, _) =>
      case Check(_) =>
      case Dial(_, _) =>
      case Store(_) =>
      case End(_) =>
      case Collect(_) =>
    }
  }

  lemma OnePlaceTake(s: State, slug: string, c: Conn)
    requires c < |s.owner| && Places(s, c) == 1 && slug in s.pooled && FiledAt(s, slug) && Tied(s)
    requires s.sweep.Some? ==> s.sweep.value.slug != slug && FiledAt(s, s.sweep.value.slug)
    ensures Places(Take(s, slug), c) == 1
  {}

  lemma OnePlaceStore(s: State, slug: string, c: Conn)
    requires Enabled(s, Store(slug)) && c < |s.owner| && Places(s, c) == 1 && slug !in s.pooled
    requires Tied(s) && FiledAt(s, slug)
    ensures Places(Step(s, Store(slug)), c) == 1
  {}

  /** Flights come and go without moving a connection that is not in their hands. */
  lemma OnePlaceFlight(s: State, l: Label, c: Conn)
    requires Enabled(s, l) && (l.Enter? || l.Check? || l.Dial? || l.End?)
    requires c < |s.owner| && Places(s, c) == 1
    ensures Places(Step(s, l), c) == 1
  {
    var n := Step(s, l);
    assert n.owner[c] == s.owner[c];
    assert Pending(n, c) == Pending(s, c);
  }

  lemma OnePlaceCloseVisited(s: State, c: Conn)
    requires Enabled(s, CloseVisited)
    requires c < |s.owner| && Places(s, c) == 1 && Tied(s) && FiledAt(s, s.sweep.value.slug)
    ensures Places(Step(s, CloseVisited), c) == 1
  {
    var d := s.sweep.value.conn;
    var n := Step(s, CloseVisited);
    assert InMap(s, d) && !Swept(s, c) && (Swept(n, c) <==> c == d);
    assert Pending(n, c) == Pending(s, c) && InMap(n, c) == InMap(s, c) && n.removed == s.removed;
    assert Count(n.closes, c) == Count(s.closes, c) + One(d == c) by {
      CountPush(s.closes, d, c);
    }
  }

  lemma OnePlaceDeleteVisited(s: State, c: Conn)
    requires Enabled(s, DeleteVisited)
    requires c < |s.owner| && Places(s, c) == 1 && Tied(s) && FiledAt(s, s.sweep.value.slug)
    ensures Places(Step(s, DeleteVisited), c) == 1
  {
    var n := Step(s, DeleteVisited);
    assert InMap(n, c) == (InMap(s, c) && !Swept(s, c));
  }

  lemma OnePlaceIdle(s: State, l: Label, c: Conn)
    requires Enabled(s, l) && (l.Hit? || l.Collect? || l.Visit? || l.List?)
    requires c < |s.owner| && Places(s, c) == 1
    ensures Places(Step(s, l), c) == 1
  {}

  lemma OnePlaceClose(s: State, d: Conn, c: Conn)
    requires d in s.removed && c < |s.owner| && Places(s, c) == 1
    ensures Places(Step(s, CloseConn(d)), c) == 1
  {
    CountPush(s.closes, d, c);
  }

  /** A connection that is in one place is in one place after any step that does not disturb CloseAll. */
  lemma OnePlace(s: State, l: Label, c: Conn)
    requires Filed(s) && Exclusive(s) && Tied(s) && Enabled(s, l) && !Disturbs(s, l)
    requires c < |s.owner| && Places(s, c) == 1
    ensures Places(Step(s, l), c) == 1
  {
    if l.Hit? || l.Collect? || l.Visit? || l.List? {
      OnePlaceIdle(s, l, c);
    } else if l.Enter? || l.Check? || l.Dial? || l.End? {
      OnePlaceFlight(s, l, c);
    } else if l.CloseVisited? {
      OnePlaceCloseVisited(s, c);
    } else if l.DeleteVisited? {
      OnePlaceDeleteVisited(s, c);
    } else {
      OnePlaceMoved(s, l, c);
    }
  }

  lemma OnePlaceMoved(s: State, l: Label, c: Conn)
    requires Filed(s) && Exclusive(s) && Tied(s) && Enabled(s, l) && !Disturbs(s, l)
    requires l.Store? || l.Remove? || l.CloseConn? || l.CloseListed?
    requires c < |s.owner| && Places(s, c) == 1
    ensures Places(Step(s, l), c) == 1
  {
    match l
    case Store(slug) => OnePlaceStore(s, slug, c);
    case Remove(slug) =>
      if slug in s.pooled {
        OnePlaceTake(s, slug, c);
      }
    case CloseConn(d) => OnePlaceClose(s, d, c);
    case CloseListed(i) =>
      if s.listed[i].slug in s.pooled {
        OnePlaceTake(s, s.listed[i].slug, c);
      }
  }

  /** What has not been opened is nowhere. */
  ghost predicate Nowhere(s: State, c: Conn) {
    c >= |s.owner| && c !in s.removed && Count(s.closes, c) == 0
  }

  lemma StaysNowhere(s: State, l: Label, c: Conn)
    requires Filed(s) && Conserved(s) && Tied(s) && Enabled(s, l) && Nowhere(s, c)
    ensures c < |Step(s, l).owner| ==> Places(Step(s, l), c) == 1
    ensures c >= |Step(s, l).owner| ==> Nowhere(Step(s, l), c)
  {
    match l
    case Hit(_, _) =>
    case Enter(_, _) =>
    case Check(_) =>
    case Dial(_, _) =>
    case Store(_) =>
    case End(_) =>
    case Collect(_) =>
    case Remove(_) =>
    case CloseConn(d) =>
      assert d < |s.owner|;
      CountPush(s.closes, d, c);
    case Visit(_) =>
    case CloseVisited =>
      assert FiledAt(s, s.sweep.value.slug);
      CountPush(s.closes, s.sweep.value.conn, c);
    case DeleteVisited =>
    case List(_, _) =>
    case CloseListed(i) =>
      assert s.listed[i].slug in s.pooled ==> FiledAt(s, s.listed[i].slug);
  }

  lemma StepConserved(s: State, l: Label)
    requires Filed(s) && Exclusive(s) && Conserved(s) && Tied(s) && Enabled(s, l) && !Disturbs(s, l)
    ensures Conserved(Step(s, l))
  {
    var n := Step(s, l);
    forall c | 0 <= c < |n.owner|
      ensures Places(n, c) == 1
    {
      if c < |s.owner| {
        OnePlace(s, l, c);
      } else {
        StaysNowhere(s, l, c);
      }
    }
    forall c | c >= |n.owner|
      ensures c !in n.removed && Count(n.closes, c) == 0
    {
      StaysNowhere(s, l, c);
    }
  }

  lemma StepTied(s: State, l: Label)
    requires Filed(s) && Exclusive(s) && Conserved(s) && Tied(s) && Enabled(s, l) && !Disturbs(s, l)
    ensures Tied(Step(s, l))
  {
    if s.sweep.Some? {
      var v := s.sweep.value;
      assert FiledAt(s, v.slug) && Places(s, v.conn) == 1;
      match l
      case Hit(_, _) =>
      case Enter(_, _) =>
      case Check(_) =>
      case Dial(_, _) =>
      case Store(_) =>
      case End(_) =>
      case Collect(_) =>
      case Remove(_) =>
      case CloseConn(d) => CountPush(s.closes, d, v.conn);
      case Visit(_) =>
      case CloseVisited => CountPush(s.closes, v.conn, v.conn);
      case DeleteVisited =>
      case List(_, _) =>
      case CloseListed(_) =>
    }
  }

  lemma StepInv(s: State, l: Label)
    requires Inv(s) && Enabled(s, l)
    ensures Inv(Step(s, l))
  {
    StepFiled(s, l);
    StepExclusive(s, l);
    StepNumbered(s, l);
    StepServed(s, l);
    StepAnswered(s, l);
  }

  lemma StepKept(s: State, l: Label)
    requires Kept(s) && Enabled(s, l) && !Disturbs(s, l)
    ensures Kept(Step(s, l))
  {
    StepInv(s, l);
    StepConserved(s, l);
    StepTied(s, l);
  }

  // ─── Runs ───

  /** Where a sequence of steps leads, if each of them is enabled in turn. */
  function RunFrom(start: State, labels: seq<Label>): Option<State> {
    if labels == [] then Some(start)
    else
      var s := RunFrom(start, labels[..|labels| - 1]);
      if s.Some? && Enabled(s.value, labels[|labels| - 1]) then Some(Step(s.value, labels[|labels| - 1])) else None
  }

  function Run(labels: seq<Label>): Option<State> {
    RunFrom(START, labels)
  }

  lemma {:induction false} RunKeepsInv(start: State, labels: seq<Label>)
    requires Inv(start) && RunFrom(start, labels).Some?
    ensures Inv(RunFrom(start, labels).value)
  {
    if labels != [] {
      RunKeepsInv(start, labels[..|labels| - 1]);
      StepInv(RunFrom(start, labels[..|labels| - 1]).value, labels[|labels| - 1]);
    }
  }

  lemma RunInv(labels: seq<Label>)
    requires Run(labels).Some?
    ensures Inv(Run(labels).value)
  {
    RunKeepsInv(START, labels);
  }

  /** No step of the run takes an entry between CloseAll's reading it and its deleting the key. */
  predicate Calm(start: State, labels: seq<Label>) {
    labels == []
    || (var s := RunFrom(start, labels[..|labels| - 1]);
        Calm(start, labels[..|labels| - 1]) && (s.Some? ==> !Disturbs(s.value, labels[|labels| - 1])))
  }

  lemma {:induction false} RunKeeps(start: State, labels: seq<Label>)
    requires Kept(start) && RunFrom(start, labels).Some? && Calm(start, labels)
    ensures Kept(RunFrom(start, labels).value)
  {
    if labels != [] {
      RunKeeps(start, labels[..|labels| - 1]);
      StepKept(RunFrom(start, labels[..|labels| - 1]).value, labels[|labels| - 1]);
    }
  }

  lemma UnsweptStep(s: State, l: Label)
    requires s.sweep.None? && Enabled(s, l) && !l.Visit?
    ensures Step(s, l).sweep.None? && !Disturbs(s, l)
  {}

  /** Where CloseAll does not run, nothing disturbs it. */
  lemma {:induction false} CalmUnswept(start: State, labels: seq<Label>)
    requires start.sweep.None? && RunFrom(start, labels).Some?
    requires forall i | 0 <= i < |labels| :: !labels[i].Visit?
    ensures Calm(start, labels) && RunFrom(start, labels).value.sweep.None?
  {
    if labels != [] {
      CalmUnswept(start, labels[..|labels| - 1]);
      UnsweptStep(RunFrom(start, labels[..|labels| - 1]).value, labels[|labels| - 1]);
    }
  }

  /** Store never overwrites an entry, in any interleaving. */
  lemma StoreNeverOverwrites(labels: seq<Label>, slug: string)
    requires Run(labels).Some? && Enabled(Run(labels).value, Store(slug))
    ensures slug !in Run(labels).value.pooled
  {
    RunInv(labels);
  }

  /** At most one connection of a slug is pooled or about to be. */
  lemma OnePerSlug(labels: seq<Label>, a: Conn, b: Conn)
    requires Run(labels).Some?
    requires var s := Run(labels).value;
             && a < |s.owner| && b < |s.owner| && s.owner[a] == s.owner[b]
             && (Pending(s, a) || InMap(s, a)) && (Pending(s, b) || InMap(s, b))
    ensures a == b
  {
    RunInv(labels);
  }

  /** Everyone who waited for the same flight got the same answer, and it is the flight's connection. */
  lemma JoinersAgree(labels: seq<Label>, i: nat, j: nat)
    requires Run(labels).Some?
    requires var s := Run(labels).value;
             i < |s.answers| && j < |s.answers| && s.answers[i].flight == s.answers[j].flight
    ensures Run(labels).value.answers[i].result == Run(labels).value.answers[j].result
  {
    RunInv(labels);
  }

  /**
   Nothing leaks and nothing is closed twice: an opened connection is pending, pooled, being closed, or closed
   once, as long as CloseAll is not disturbed.  In particular where CloseAll does not run.
   */
  lemma EveryConnectionAccounted(labels: seq<Label>, c: Conn)
    requires Run(labels).Some? && c < |Run(labels).value.owner|
    requires Calm(START, labels) || forall i | 0 <= i < |labels| :: !labels[i].Visit?
    ensures var s := Run(labels).value;
            && Count(s.closes, c) <= 1
            && (Count(s.closes, c) == 0 ==> Pending(s, c) || InMap(s, c) || c in s.removed)
            && (Count(s.closes, c) == 1 ==> !Pending(s, c) && c !in s.removed && (InMap(s, c) ==> Swept(s, c)))
  {
    if !Calm(START, labels) {
      CalmUnswept(START, labels);
    }
    RunKeeps(START, labels);
    assert Places(Run(labels).value, c) == 1;
  }

  lemma Extend(start: State, s: State, labels: seq<Label>, l: Label) returns (next: State, longer: seq<Label>)
    requires RunFrom(start, labels) == Some(s) && Enabled(s, l)
    ensures longer == labels + [l] && next == Step(s, l) && RunFrom(start, longer) == Some(next)
  {
    longer, next := labels + [l], Step(s, l);
    assert longer[..|labels|] == labels;
  }

  // ─── The methods, run by one goroutine ───

  /** The steps of a Get that finds nothing, and of a Close. */
  function GetLabels(slug: string, ok: bool): seq<Label> {
    TakeOffLabels(slug) + (if ok then [Dial(slug, true), Store(slug)] else [Dial(slug, false)]) + LandingLabels(slug)
  }

  function TakeOffLabels(slug: string): seq<Label> {
    [Enter(0, slug), Check(slug)]
  }

  function LandingLabels(slug: string): seq<Label> {
    [End(slug), Collect(0)]
  }

  /** No flight is under way and nobody waits. */
  predicate Quiet(s: State) {
    s.flights == map[] && s.waiting == map[] && s.removed == {}
  }

  /** A quiet pool with one flight, led by goroutine 0. */
  function InFlight(s: State, slug: string, phase: Phase): State {
    s.(flights := map[slug := Flight(s.nextFlight, phase)], nextFlight := s.nextFlight + 1,
       waiting := map[0 := Wait(slug, s.nextFlight)])
  }

  /** The pool once that flight has ended and been collected. */
  function Landed(s: State, result: Option<Conn>): State {
    s.(nextFlight := s.nextFlight + 1, results := s.results[s.nextFlight := result],
       answers := s.answers + [Answer(0, s.nextFlight, result)])
  }

  lemma TakeOff(s: State, slug: string)
    requires Quiet(s) && slug !in s.pooled
    ensures RunFrom(s, TakeOffLabels(slug)) == Some(InFlight(s, slug, Opening))
  {
    var s0, l0 := Extend(s, s, [], Enter(0, slug));
    assert s0 == InFlight(s, slug, Checking);
    var s1, l1 := Extend(s, s0, l0, Check(slug));
    assert s1 == InFlight(s, slug, Opening);
    assert l1 == [Enter(0, slug), Check(slug)];
  }

  lemma Landing(start: State, s: State, slug: string, result: Option<Conn>, labels: seq<Label>)
    requires Quiet(s) && RunFrom(start, labels) == Some(InFlight(s, slug, Finished(result)))
    ensures RunFrom(start, labels + LandingLabels(slug)) == Some(Landed(s, result))
  {
    var f := InFlight(s, slug, Finished(result));
    var s0, l0 := Extend(start, f, labels, End(slug));
    assert s0.flights == map[];
    var s1, l1 := Extend(start, s0, l0, Collect(0));
    assert s1.waiting == map[];
    assert l1 == labels + LandingLabels(slug);
  }

  lemma HitRuns(s: State, slug: string)
    requires Quiet(s) && slug in s.pooled
    ensures RunFrom(s, [Hit(0, slug)]) == Some(s)
  {
    var n, l := Extend(s, s, [], Hit(0, slug));
    assert l == [Hit(0, slug)];
  }

  lemma DialStep(s: State, slug: string)
    ensures Step(InFlight(s, slug, Opening), Dial(slug, true)) ==
            InFlight(s.(owner := s.owner + [slug]), slug, Opened(|s.owner|))
  {}

  lemma StoreStep(s: State, slug: string, c: Conn)
    ensures Step(InFlight(s, slug, Opened(c)), Store(slug)) ==
            InFlight(s.(pooled := s.pooled[slug := c]), slug, Finished(Some(c)))
  {
    var n := Step(InFlight(s, slug, Opened(c)), Store(slug));
    assert n.flights == map[slug := Flight(s.nextFlight, Finished(Some(c)))];
  }

  lemma GetRuns(s: State, slug: string)
    requires Quiet(s) && slug !in s.pooled
    ensures RunFrom(s, GetLabels(slug, true)) ==
            Some(Landed(s.(pooled := s.pooled[slug := |s.owner|], owner := s.owner + [slug]), Some(|s.owner|)))
  {
    TakeOff(s, slug);
    var f := InFlight(s, slug, Opening);
    DialStep(s, slug);
    var s2, l2 := Extend(s, f, TakeOffLabels(slug), Dial(slug, true));
    StoreStep(s.(owner := s.owner + [slug]), slug, |s.owner|);
    var s3, l3 := Extend(s, s2, l2, Store(slug));
    var n := s.(pooled := s.pooled[slug := |s.owner|], owner := s.owner + [slug]);
    Landing(s, n, slug, Some(|s.owner|), l3);
    assert l3 == TakeOffLabels(slug) + [Dial(slug, true), Store(slug)];
  }

  lemma FailedGetRuns(s: State, slug: string)
    requires Quiet(s) && slug !in s.pooled
    ensures RunFrom(s, GetLabels(slug, false)) == Some(Landed(s, None))
  {
    TakeOff(s, slug);
    var s2, l2 := Extend(s, InFlight(s, slug, Opening), TakeOffLabels(slug), Dial(slug, false));
    assert s2 == InFlight(s, slug, Finished(None));
    Landing(s, s, slug, None, l2);
    assert l2 == TakeOffLabels(slug) + [Dial(slug, false)];
  }

  /** Where a call of Get that misses takes a quiet pool. */
  lemma GetEnds(s: State, slug: string, dialed: bool) returns (n: State)
    requires Kept(s) && s.sweep.None? && Quiet(s) && slug !in s.pooled
    ensures RunFrom(s, GetLabels(slug, dialed)) == Some(n)
    ensures Kept(n) && n.sweep.None? && Quiet(n) && n.closes == s.closes
    ensures n.pooled == (if dialed then s.pooled[slug := |s.owner|] else s.pooled)
    ensures n.owner == if dialed then s.owner + [slug] else s.owner
  {
    if dialed {
      GetRuns(s, slug);
    } else {
      FailedGetRuns(s, slug);
    }
    CalmUnswept(s, GetLabels(slug, dialed));
    RunKeeps(s, GetLabels(slug, dialed));
    n := RunFrom(s, GetLabels(slug, dialed)).value;
  }

  lemma CloseRuns(s: State, slug: string)
    requires Quiet(s) && slug in s.pooled
    ensures RunFrom(s, [Remove(slug), CloseConn(s.pooled[slug])]) ==
            Some(s.(pooled := s.pooled - {slug}, closes := s.closes + [s.pooled[slug]]))
  {
    var c := s.pooled[slug];
    var s0, l0 := Extend(s, s, [], Remove(slug));
    assert s0 == s.(pooled := s.pooled - {slug}, removed := {c});
    var s1, l1 := Extend(s, s0, l0, CloseConn(c));
    assert l1 == [Remove(slug), CloseConn(c)];
    assert s1 == s.(pooled := s.pooled - {slug}, closes := s.closes + [c]) by {
      assert {c} - {c} == {} && s.removed == {};
    }
  }

  lemma {:induction false} RunConcat(start: State, a: seq<Label>, b: seq<Label>)
    requires RunFrom(start, a).Some?
    ensures RunFrom(start, a + b) == RunFrom(RunFrom(start, a).value, b)
  {
    if b == [] {
      assert a + b == a;
    } else {
      RunConcat(start, a, b[..|b| - 1]);
      assert (a + b)[..|a + b| - 1] == a + b[..|b| - 1];
    }
  }

  // ─── CloseAll among other goroutines ───

  /** Closed twice, or sure to be: out of the map, and more than once taken out, closed or about to be closed by CloseAll. */
  predicate Doomed(s: State, c: Conn) {
    && c < |s.owner| && !Pending(s, c) && !InMap(s, c)
    && One(c in s.removed) + Count(s.closes, c)
       + One(s.sweep.Some? && s.sweep.value.conn == c && !s.sweep.value.closed) >= 2
  }

  lemma StepDoomed(s: State, l: Label, c: Conn)
    requires Filed(s) && Enabled(s, l) && Doomed(s, c)
    ensures Doomed(Step(s, l), c)
  {
    match l
    case Hit(_, _) =>
    case Enter(_, _) =>
    case Check(_) =>
    case Dial(_, _) =>
    case Store(slug) => assert FiledAt(s, slug);
    case End(_) =>
    case Collect(_) =>
    case Remove(_) =>
    case CloseConn(d) => CountPush(s.closes, d, c);
    case Visit(slug) => assert FiledAt(s, slug);
    case CloseVisited => CountPush(s.closes, s.sweep.value.conn, c);
    case DeleteVisited =>
    case List(_, _) =>
    case CloseListed(_) =>
  }

  lemma DisturbingDooms(s: State, l: Label)
    requires Kept(s) && Enabled(s, l) && Disturbs(s, l)
    ensures Doomed(Step(s, l), s.sweep.value.conn)
  {
    var v := s.sweep.value;
    assert FiledAt(s, v.slug) && Places(s, v.conn) == 1;
  }

  lemma {:induction false} CalmOrDoomed(labels: seq<Label>)
    requires Run(labels).Some?
    ensures if Calm(START, labels) then Kept(Run(labels).value) else exists c :: Doomed(Run(labels).value, c)
  {
    if labels != [] {
      var front, l := labels[..|labels| - 1], labels[|labels| - 1];
      var s := Run(front).value;
      CalmOrDoomed(front);
      if !Calm(START, front) {
        var c :| Doomed(s, c);
        RunInv(front);
        StepDoomed(s, l, c);
      } else if Disturbs(s, l) {
        DisturbingDooms(s, l);
      } else {
        StepKept(s, l);
      }
    }
  }

  /**
   Exactly when CloseAll may run beside other goroutines: once it is at no entry, every connection is
   accounted for if and only if nobody took an entry between CloseAll's reading it and its deleting the key.
   */
  lemma CloseAllConservesIff(labels: seq<Label>)
    requires Run(labels).Some? && Run(labels).value.sweep.None?
    ensures Conserved(Run(labels).value) <==> Calm(START, labels)
  {
    CalmOrDoomed(labels);
    if !Calm(START, labels) {
      var s := Run(labels).value;
      var c :| Doomed(s, c);
      assert Places(s, c) >= 2;
    }
  }

  lemma GetAfter(labels: seq<Label>, s: State, slug: string) returns (n: State, longer: seq<Label>)
    requires Run(labels) == Some(s) && Quiet(s) && slug !in s.pooled
    ensures longer == labels + GetLabels(slug, true) && Run(longer) == Some(n) && Quiet(n)
    ensures n.pooled == s.pooled[slug := |s.owner|] && n.owner == s.owner + [slug]
    ensures n.closes == s.closes && n.removed == s.removed && n.sweep == s.sweep && n.listed == s.listed
  {
    GetRuns(s, slug);
    RunConcat(START, labels, GetLabels(slug, true));
    longer := labels + GetLabels(slug, true);
    n := RunFrom(s, GetLabels(slug, true)).value;
  }

  /** CloseAll reads the entry of a slug, and a Close takes it. */
  function FirstHalf(slug: string): seq<Label> {
    GetLabels(slug, true) + [Visit(slug), Remove(slug), CloseConn(0)]
  }

  lemma FirstHalfRuns(slug: string) returns (s: State)
    ensures Run(FirstHalf(slug)) == Some(s) && Quiet(s)
    ensures s.pooled == map[] && s.owner == [slug] && s.closes == [0] && s.sweep == Some(Sweep(slug, 0, false))
  {
    var s1, l1 := GetAfter([], START, slug);
    assert l1 == GetLabels(slug, true);
    var s2, l2 := Extend(START, s1, l1, Visit(slug));
    var s3, l3 := Extend(START, s2, l2, Remove(slug));
    var s4, l4 := Extend(START, s3, l3, CloseConn(0));
    assert l4 == FirstHalf(slug);
    assert s4.removed == {} && s4.closes == [0];
    s := s4;
  }

  /** A Get opens another connection before CloseAll goes on. */
  function RacingLabels(slug: string): seq<Label> {
    FirstHalf(slug) + GetLabels(slug, true) + [CloseVisited, DeleteVisited]
  }

  lemma ClosedTwice()
    ensures Count([0, 0], 0) == 2 && Count([0, 0], 1) == 0
  {
    assert [0, 0][..1] == [0] && [0][..0] == [];
  }

  lemma SweepEnds(s: State, slug: string, labels: seq<Label>)
    requires Run(labels) == Some(s) && s.sweep == Some(Sweep(slug, 0, false)) && s.closes == [0]
    ensures Run(labels + [CloseVisited, DeleteVisited]) ==
            Some(s.(closes := [0, 0], pooled := s.pooled - {slug}, sweep := None))
  {
    var s6, l6 := Extend(START, s, labels, CloseVisited);
    assert s6 == s.(closes := [0, 0], sweep := Some(Sweep(slug, 0, true)));
    var s7, l7 := Extend(START, s6, l6, DeleteVisited);
    assert l7 == labels + [CloseVisited, DeleteVisited];
  }

  /** Then the old connection is closed twice and the new one is neither pooled nor closed. */
  lemma CloseAllRaces(slug: string)
    ensures var run := Run(RacingLabels(slug));
            run.Some? && Count(run.value.closes, 0) == 2 && |run.value.owner| == 2 && Places(run.value, 1) == 0
  {
    var s4 := FirstHalfRuns(slug);
    var s5, l5 := GetAfter(FirstHalf(slug), s4, slug);
    SweepEnds(s5, slug, l5);
    ClosedTwice();
  }

  // ─── A health check among other goroutines ───

  /** Once it is out of the hands of its flight, a connection never comes back into them. */
  lemma StaysOut(s: State, l: Label, c: Conn)
    requires Filed(s) && Enabled(s, l) && c < |s.owner| && !Pending(s, c)
    ensures c < |Step(s, l).owner| && !Pending(Step(s, l), c)
  {
    match l
    case Hit(_, _) =>
    case Enter(_, _) =>
    case Check(_) =>
    case Dial(_, _) =>
    case Store(_) =>
    case End(_) =>
    case Collect(_) =>
    case Remove(_) =>
    case CloseConn(_) =>
    case Visit(_) =>
    case CloseVisited =>
    case DeleteVisited =>
    case List(_, _) =>
    case CloseListed(_) =>
  }

  /** What a slug's entry is after a listing: the listed connection until the next Store, never it afterwards. */
  predicate SinceListing(s: State, slug: string, c: Conn, stored: bool) {
    && c < |s.owner| && !Pending(s, c)
    && (slug in s.pooled ==> (s.pooled[slug] == c <==> !stored))
  }

  lemma SinceStep(s: State, l: Label, slug: string, c: Conn, stored: bool)
    requires Filed(s) && Enabled(s, l) && SinceListing(s, slug, c, stored)
    ensures SinceListing(Step(s, l), slug, c, stored || l == Store(slug))
  {
    StaysOut(s, l, c);
    if l.Store? {
      assert FiledAt(s, l.slug);
    }
  }

  lemma {:induction false} SinceRun(s: State, slug: string, c: Conn, mid: seq<Label>)
    requires Inv(s) && SinceListing(s, slug, c, false) && RunFrom(s, mid).Some?
    ensures SinceListing(RunFrom(s, mid).value, slug, c, Store(slug) in mid)
    ensures s.listed <= RunFrom(s, mid).value.listed
  {
    if mid != [] {
      var front, l := mid[..|mid| - 1], mid[|mid| - 1];
      SinceRun(s, slug, c, front);
      RunKeepsInv(s, front);
      SinceStep(RunFrom(s, front).value, l, slug, c, Store(slug) in front);
      assert Store(slug) in mid <==> Store(slug) in front || l == Store(slug);
    }
  }

  /**
   Exactly when a health check closes what it found dead or idle: if its Close finds an entry under the listed
   slug, that is the connection it listed if and only if nobody stored one for the slug in between.
   */
  lemma ListedCloseIff(labels: seq<Label>, slug: string, twice: bool, mid: seq<Label>)
    requires Run(labels).Some? && slug in Run(labels).value.pooled
    requires Run(labels + [List(slug, twice)] + mid).Some?
    ensures var s, n := Run(labels).value, Run(labels + [List(slug, twice)] + mid).value;
            var i := |s.listed|;
            && i < |n.listed| && n.listed[i] == Listing(slug, s.pooled[slug])
            && Step(n, CloseListed(i)) == Take(n, slug)
            && (slug in n.pooled ==> (n.pooled[slug] == s.pooled[slug] <==> Store(slug) !in mid))
  {
    var s := Run(labels).value;
    RunInv(labels);
    var t, longer := Extend(START, s, labels, List(slug, twice));
    RunConcat(START, longer, mid);
    ListedSince(s, slug, twice, mid);
  }

  lemma ListedSince(s: State, slug: string, twice: bool, mid: seq<Label>)
    requires Inv(s) && slug in s.pooled && RunFrom(Step(s, List(slug, twice)), mid).Some?
    ensures var n := RunFrom(Step(s, List(slug, twice)), mid).value;
            && |s.listed| < |n.listed| && n.listed[|s.listed|] == Listing(slug, s.pooled[slug])
            && SinceListing(n, slug, s.pooled[slug], Store(slug) in mid)
  {
    var t := Step(s, List(slug, twice));
    assert FiledAt(s, slug);
    StepInv(s, List(slug, twice));
    assert t.listed[|s.listed|] == Listing(slug, s.pooled[slug]);
    SinceRun(t, slug, s.pooled[slug], mid);
  }

  /** An entry dead and idle at once is listed twice, and closed a first time. */
  function ListedHalf(slug: string): seq<Label> {
    GetLabels(slug, true) + [List(slug, true), CloseListed(0), CloseConn(0)]
  }

  lemma TakeListed(labels: seq<Label>, s: State, slug: string)
    requires Run(labels) == Some(s) && s.pooled == map[slug := 0] && s.removed == {} && s.closes == []
    requires s.listed == [Listing(slug, 0), Listing(slug, 0)]
    ensures Run(labels + [CloseListed(0), CloseConn(0)]) == Some(s.(pooled := map[], closes := [0]))
  {
    var s3, l3 := Extend(START, s, labels, CloseListed(0));
    assert s3 == s.(pooled := map[], removed := {0});
    var s4, l4 := Extend(START, s3, l3, CloseConn(0));
    assert s4 == s.(pooled := map[], closes := [0]);
    assert l4 == labels + [CloseListed(0), CloseConn(0)];
  }

  lemma ListedHalfRuns(slug: string) returns (s: State)
    ensures Run(ListedHalf(slug)) == Some(s) && Quiet(s)
    ensures s.pooled == map[] && s.owner == [slug] && s.closes == [0] && s.sweep.None?
    ensures s.listed == [Listing(slug, 0), Listing(slug, 0)]
  {
    var s1, l1 := GetAfter([], START, slug);
    assert l1 == GetLabels(slug, true);
    var s2, l2 := Extend(START, s1, l1, List(slug, true));
    assert s2 == s1.(listed := [Listing(slug, 0), Listing(slug, 0)]);
    TakeListed(l2, s2, slug);
    assert ListedHalf(slug) == l2 + [CloseListed(0), CloseConn(0)];
    s := s2.(pooled := map[], closes := [0]);
  }

  /** A Get comes between the two closings. */
  function TwiceLabels(slug: string): seq<Label> {
    ListedHalf(slug) + GetLabels(slug, true) + [CloseListed(1), CloseConn(1)]
  }

  /** Then the second takes the successor, which neither failed nor idled; conservation holds all the same. */
  lemma ListedTwiceClosesSuccessor(slug: string)
    ensures var run := Run(TwiceLabels(slug));
            && run.Some? && run.value.listed == [Listing(slug, 0), Listing(slug, 0)]
            && run.value.pooled == map[] && run.value.closes == [0, 1] && Conserved(run.value)
  {
    var s4 := ListedHalfRuns(slug);
    var s5, l5 := GetAfter(ListedHalf(slug), s4, slug);
    var s6, l6 := Extend(START, s5, l5, CloseListed(1));
    var s7, l7 := Extend(START, s6, l6, CloseConn(1));
    assert l7 == TwiceLabels(slug);
    assert s7.pooled == map[] && s7.closes == [0, 1];
    CalmUnswept(START, l7);
    RunKeeps(START, l7);
  }

  function Unlisted(m: map<string, Entry>, slugs: seq<string>): map<string, Entry> {
    map slug | slug in m && slug !in slugs :: m[slug]
  }

  datatype Entry = Entry(conn: Conn, lastUsed: int)

  class ConnectionPool {
    var connections: map<string, Entry>
    /** The step machine this pool is in. */
    ghost var st: State

    ghost predicate Valid()
      reads this
    {
      && Kept(st) && st.sweep.None? && Quiet(st)
      && st.pooled == map slug | slug in connections :: connections[slug].conn
    }

    constructor ()
      ensures Valid() && connections == map[] && st == START
    {
      connections, st := map[], START;
    }

    /** `dialed` is the factory's answer: whether it opens connection number |owner|. */
    method Get(slug: string, now: int, next: Conn, dialed: bool) returns (conn: Option<Conn>)
      requires Valid() && next == |st.owner|
      modifies this
      ensures Valid()
      ensures Some(st) == RunFrom(old(st), if slug in old(connections) then [Hit(0, slug)] else GetLabels(slug, dialed))
      ensures slug in old(connections) ==>
                conn == Some(old(connections)[slug].conn) && connections == old(connections)[slug := Entry(conn.value, now)]
      ensures slug !in old(connections) && dialed ==> conn == Some(next) && connections == old(connections)[slug := Entry(next, now)]
      ensures slug !in old(connections) && !dialed ==> conn == None && connections == old(connections)
      ensures st.closes == old(st).closes
      ensures |st.owner| == |old(st).owner| + if slug !in old(connections) && dialed then 1 else 0
    {
      if slug in connections {
        conn := Some(connections[slug].conn);
        connections := connections[slug := connections[slug].(lastUsed := now)];
        HitRuns(st, slug);
        return;
      }
      st := GetEnds(st, slug, dialed);
      if !dialed {
        return None;
      }
      conn := Some(next);
      connections := connections[slug := Entry(next, now)];
    }

    method Close(slug: string)
      requires Valid()
      modifies this
      ensures Valid()
      ensures connections == old(connections) - {slug}
      ensures st.owner == old(st).owner
      ensures st.closes == if slug in old(connections) then old(st).closes + [old(connections)[slug].conn] else old(st).closes
    {
      if slug !in connections {
        return;
      }
      CloseRuns(st, slug);
      CalmUnswept(st, [Remove(slug), CloseConn(st.pooled[slug])]);
      RunKeeps(st, [Remove(slug), CloseConn(st.pooled[slug])]);
      st := RunFrom(st, [Remove(slug), CloseConn(st.pooled[slug])]).value;
      connections := connections - {slug};
    }

    /** Close, then Get: the caller never receives the connection that was there before. */
    method Refresh(slug: string, now: int, next: Conn, dialed: bool) returns (conn: Option<Conn>)
      requires Valid() && next == |st.owner|
      modifies this
      ensures Valid()
      ensures conn == if dialed then Some(next) else None
      ensures slug in old(connections) ==> Count(st.closes, old(connections)[slug].conn) == 1
      ensures connections - {slug} == old(connections) - {slug}
    {
      ghost var was := st;
      Close(slug);
      if slug in old(connections) {
        Gone(was, st, slug);
      }
      conn := Get(slug, now, next, dialed);
    }

    /** An entry goes when it does not answer or has been idle too long. */
    predicate Stale(e: Entry, dead: set<Conn>, now: int, maxIdle: int) {
      e.conn in dead || (maxIdle > 0 && now - e.lastUsed > maxIdle)
    }

    /** runHealthCheck: an entry that fails both tests is listed twice and closed once. */
    method RunHealthCheck(dead: set<Conn>, now: int, maxIdle: int)
      requires Valid()
      modifies this
      ensures Valid()
      ensures connections == map slug | slug in old(connections) && !Stale(old(connections)[slug], dead, now, maxIdle)
                             :: old(connections)[slug]
      ensures st.owner == old(st).owner
      ensures forall slug | slug in old(connections) && slug !in connections :: Count(st.closes, old(connections)[slug].conn) == 1
    {
      var toClose := ListStale(dead, now, maxIdle);
      for i := 0 to |toClose|
        invariant Valid() && st.owner == old(st).owner
        invariant connections == Unlisted(old(connections), toClose[..i])
      {
        assert toClose[..i + 1] == toClose[..i] + [toClose[i]];
        Close(toClose[i]);
      }
      assert toClose[..|toClose|] == toClose;
      forall slug | slug in old(connections) && slug !in connections
        ensures Count(st.closes, old(connections)[slug].conn) == 1
      {
        Gone(old(st), st, slug);
      }
    }

    method ListStale(dead: set<Conn>, now: int, maxIdle: int) returns (toClose: seq<string>)
      ensures forall slug :: slug in toClose <==> slug in connections && Stale(connections[slug], dead, now, maxIdle)
    {
      toClose := [];
      var rest := connections.Keys;
      while rest != {}
        invariant rest <= connections.Keys
        invariant forall slug :: slug in toClose <==>
                    slug in connections && slug !in rest && Stale(connections[slug], dead, now, maxIdle)
        decreases rest
      {
        var slug :| slug in rest;
        var entry := connections[slug];
        if entry.conn in dead {
          toClose := toClose + [slug];
        }
        if maxIdle > 0 && now - entry.lastUsed > maxIdle {
          toClose := toClose + [slug];
        }
        rest := rest - {slug};
      }
    }

    /** CloseAll with nobody else at work: every connection ever opened has been closed exactly once. */
    method CloseAll()
      requires Valid()
      modifies this
      ensures Valid()
      ensures connections == map[] && st.owner == old(st).owner
      ensures forall c | 0 <= c < |st.owner| :: Count(st.closes, c) == 1
    {
      while connections != map[]
        invariant Valid() && st.owner == old(st).owner
        decreases connections.Keys
      {
        var slug :| slug in connections;
        Close(slug);
      }
      forall c | 0 <= c < |st.owner|
        ensures Count(st.closes, c) == 1
      {
        assert Places(st, c) == 1;
      }
    }
  }

  /** A connection that was pooled and is not any more has been closed once. */
  lemma Gone(was: State, now: State, slug: string)
    requires Kept(was) && Kept(now) && now.sweep.None? && Quiet(now) && was.owner == now.owner
    requires slug in was.pooled && slug !in now.pooled
    ensures Count(now.closes, was.pooled[slug]) == 1
  {
    var c := was.pooled[slug];
    assert now.owner[c] == slug;
    assert Places(now, c) == 1;
  }
}
