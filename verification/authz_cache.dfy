/** The evaluator's cache and its two-level generation counter, and the protocol
    that keeps a load that raced with an invalidation from putting back what the
    invalidation dropped. */
module AuthzCache {
  import opened Collections

  /** Who a cached entry is about. */
  datatype Principal = Principal(org: string, kind: string, id: string)

  predicate NoBar(s: string) {
    '|' !in s
  }

  /** Identifiers and kinds never hold the separator. */
  predicate WellFormed(p: Principal) {
    NoBar(p.org) && NoBar(p.kind)
  }

  function CacheKey(p: Principal): string {
    p.org + "|" + p.kind + "|" + p.id
  }

  /** A query of the database: when it ran, and how many writes had committed. */
  datatype Snapshot = Snapshot(at: int, writes: nat)

  /** What one load keeps: when it began, and what its two queries read. Writes may commit
      between them. */
  datatype Entry = Entry(at: int, bindings: Snapshot, rules: Snapshot)

  /** Some of it predates write n. */
  predicate Predates(e: Entry, n: nat) {
    e.bindings.writes <= n || e.rules.writes <= n
  }

  datatype Cache = Cache(entries: map<string, Entry>, gen: nat, orgGen: map<string, nat>)

  /** The generation a load of this organisation captures. */
  datatype Stamp = Stamp(gen: nat, org: nat)

  function OrgGen(c: Cache, org: string): nat {
    if org in c.orgGen then c.orgGen[org] else 0
  }

  function StampOf(c: Cache, org: string): Stamp {
    Stamp(c.gen, OrgGen(c, org))
  }

  predicate Before(a: Stamp, b: Stamp) {
    a.gen < b.gen || (a.gen == b.gen && a.org < b.org)
  }

  // --- invalidations -------------------------------------------------------------------

  /** What an invalidation, or the write behind it, is about. */
  datatype Scope = OnePrincipal(p: Principal) | OneOrg(org: string) | Everything

  predicate Reaches(s: Scope, p: Principal) {
    match s
    case OnePrincipal(q) => p == q
    case OneOrg(org) => p.org == org
    case Everything => true
  }

  /** Every principal `small` reaches, `big` reaches too. */
  predicate Within(small: Scope, big: Scope) {
    match big
    case Everything => true
    case OneOrg(org) => (small.OnePrincipal? && small.p.org == org) || small == big
    case OnePrincipal(p) => small == big
  }

  function BumpOrg(c: Cache, org: string): Cache {
    c.(orgGen := c.orgGen[org := OrgGen(c, org) + 1])
  }

  function Invalidated(c: Cache, s: Scope): Cache {
    match s
    case OnePrincipal(p) => BumpOrg(c.(entries := c.entries - {CacheKey(p)}), p.org)
    case OneOrg(org) => BumpOrg(c.(entries := map k | k in c.entries && !(org + "|" <= k) :: c.entries[k]), org)
    case Everything => Cache(map[], c.gen + 1, map[])
  }

  function Stored(c: Cache, p: Principal, captured: Stamp, e: Entry): Cache {
    if StampOf(c, p.org) == captured then c.(entries := c.entries[CacheKey(p) := e]) else c
  }

  lemma BarEndsTheFirstPart(a: string, b: string, restA: string, restB: string)
    requires NoBar(a) && NoBar(b) && a + "|" + restA == b + "|" + restB
    ensures a == b && restA == restB
  {
    var whole := a + "|" + restA;
    assert forall i :: 0 <= i < |a| ==> whole[i] == a[i] && whole[i] != '|';
    assert forall i :: 0 <= i < |b| ==> whole[i] == b[i] && whole[i] != '|';
    assert whole[|a|] == '|' && whole[|b|] == '|';
    assert |a| == |b|;
    assert a == whole[..|a|] == b;
    assert restA == whole[|a| + 1..] == restB;
  }

  /** No two principals share a key. */
  lemma KeysAreDistinct(p: Principal, q: Principal)
    requires WellFormed(p) && WellFormed(q) && CacheKey(p) == CacheKey(q)
    ensures p == q
  {
    var tailP, tailQ := p.kind + "|" + p.id, q.kind + "|" + q.id;
    assert CacheKey(p) == p.org + "|" + tailP && CacheKey(q) == q.org + "|" + tailQ;
    BarEndsTheFirstPart(p.org, q.org, tailP, tailQ);
    BarEndsTheFirstPart(p.kind, q.kind, p.id, q.id);
  }

  lemma OrgPrefixReachesItsKeys(p: Principal)
    ensures p.org + "|" <= CacheKey(p)
  {
    assert CacheKey(p) == (p.org + "|") + (p.kind + "|" + p.id);
  }

  /** An invalidation drops every entry it reaches. */
  lemma InvalidatedDrops(c: Cache, s: Scope, p: Principal)
    requires Reaches(s, p)
    ensures CacheKey(p) !in Invalidated(c, s).entries
    ensures Before(StampOf(c, p.org), StampOf(Invalidated(c, s), p.org))
  {
    OrgPrefixReachesItsKeys(p);
  }

  /** And keeps every other. */
  lemma InvalidatedKeepsTheRest(c: Cache, s: Scope, p: Principal)
    requires WellFormed(p) && !Reaches(s, p) && (s.OnePrincipal? ==> WellFormed(s.p)) && (s.OneOrg? ==> NoBar(s.org))
    ensures CacheKey(p) in Invalidated(c, s).entries <==> CacheKey(p) in c.entries
    ensures CacheKey(p) in c.entries ==> Invalidated(c, s).entries[CacheKey(p)] == c.entries[CacheKey(p)]
  {
    match s
    case OnePrincipal(q) =>
      if CacheKey(q) == CacheKey(p) {
        KeysAreDistinct(p, q);
      }
    case OneOrg(org) =>
      if org + "|" <= CacheKey(p) {
        var rest := CacheKey(p)[|org + "|"|..];
        assert CacheKey(p) == org + "|" + rest && CacheKey(p) == p.org + "|" + (p.kind + "|" + p.id);
        BarEndsTheFirstPart(org, p.org, rest, p.kind + "|" + p.id);
      }
    case Everything =>
  }

  /** The pair of counters never goes back, for any organisation, although a full
      flush empties one of them. */
  lemma StampsOnlyGrow(c: Cache, s: Scope, org: string)
    ensures var a, b := StampOf(c, org), StampOf(Invalidated(c, s), org);
            && (a == b || Before(a, b))
            && (a != b <==> s.Everything? || (s.OneOrg? && s.org == org) || (s.OnePrincipal? && s.p.org == org))
  {
  }

  // --- the evaluator ---------------------------------------------------------------------

  class Evaluator {
    const ttl: int
    var entries: map<string, Entry>
    var gen: nat
    var orgGen: map<string, nat>

    ghost function Contents(): Cache
      reads this
    {
      Cache(entries, gen, orgGen)
    }

    constructor (ttl: int)
      ensures Contents() == Cache(map[], 0, map[]) && this.ttl == ttl
    {
      this.ttl := ttl;
      entries, gen, orgGen := map[], 0, map[];
    }

    /** An empty organisation means everything; an empty id, the organisation. */
    method Invalidate(org: string, kind: string, id: string)
      modifies this
      ensures Contents() == Invalidated(old(Contents()), if org == "" then Everything else if id == "" then OneOrg(org)
                                                         else OnePrincipal(Principal(org, kind, id)))
    {
      if org == "" {
        InvalidateAll();
      } else if id == "" {
        InvalidateOrg(org);
      } else {
        entries := entries - {CacheKey(Principal(org, kind, id))};
        Bump(org);
      }
    }

    method Bump(org: string)
      modifies this`orgGen
      ensures Contents() == BumpOrg(old(Contents()), org)
    {
      orgGen := orgGen[org := if org in orgGen then orgGen[org] + 1 else 1];
    }

    method InvalidateOrg(org: string)
      modifies this
      ensures Contents() == Invalidated(old(Contents()), OneOrg(org))
    {
      entries := DropPrefix(entries, org + "|");
      Bump(org);
    }

    method InvalidateAll()
      modifies this
      ensures Contents() == Invalidated(old(Contents()), Everything)
    {
      entries := map[];
      orgGen := map[];
      gen := gen + 1;
    }

    /** The first locked section of a load: the cached entry while it is young enough,
        or the generation to load under. */
    method Lookup(p: Principal, now: int) returns (hit: Option<Entry>, captured: Stamp)
      ensures hit.Some? <==> CacheKey(p) in entries && now - entries[CacheKey(p)].at < ttl
      ensures hit.Some? ==> hit.value == entries[CacheKey(p)]
      ensures captured == StampOf(Contents(), p.org)
    {
      var key := CacheKey(p);
      captured := Stamp(gen, if p.org in orgGen then orgGen[p.org] else 0);
      hit := None;
      if key in entries && now - entries[key].at < ttl {
        hit := Some(entries[key]);
      }
    }

    /** The second: what was read is kept only if nothing was invalidated meanwhile. */
    method Store(p: Principal, captured: Stamp, e: Entry)
      modifies this`entries
      ensures Contents() == Stored(old(Contents()), p, captured, e)
      ensures entries == if gen == captured.gen && (if p.org in orgGen then orgGen[p.org] else 0) == captured.org
                         then old(entries)[CacheKey(p) := e] else old(entries)
    {
      var current := if p.org in orgGen then orgGen[p.org] else 0;
      if gen == captured.gen && current == captured.org {
        entries := entries[CacheKey(p) := e];
      }
    }
  }

  method DropPrefix(entries: map<string, Entry>, prefix: string) returns (kept: map<string, Entry>)
    ensures kept == map k | k in entries && !(prefix <= k) :: entries[k]
  {
    kept := entries;
    var rest := entries.Keys;
    while rest != {}
      invariant rest <= entries.Keys
      invariant kept == map k | k in entries && (k in rest || !(prefix <= k)) :: entries[k]
      decreases |rest|
    {
      var k := Any(rest);
      if prefix <= k {
        kept := kept - {k};
      }
      rest := rest - {k};
    }
  }

  // --- the protocol ------------------------------------------------------------------------

  /** A load between its two locked sections, with what it has read so far. */
  datatype Load = Load(p: Principal, captured: Stamp, at: int, bindings: Option<Snapshot>, rules: Option<Snapshot>)

  /** Some of what it has read predates write n. */
  predicate Missed(load: Load, n: nat) {
    || (load.bindings.Some? && load.bindings.value.writes <= n)
    || (load.rules.Some? && load.rules.value.writes <= n)
  }

  /** A committed write: what it was about, and when. */
  datatype Commit = Commit(scope: Scope, at: int)

  /** Every write so far, which of them have been invalidated for, and the loads in
      flight. */
  datatype System = System(cache: Cache, now: int, writes: seq<Commit>, delivered: set<nat>, loads: map<nat, Load>)

  datatype Step =
    | Tick(d: nat)
    | Write(s: Scope)
    | Deliver(n: nat, s: Scope)      // an invalidation that reaches at least what write n did
    | Begin(l: nat, p: Principal)    // a miss
    | ReadBindings(l: nat)
    | ReadRules(l: nat)
    | Finish(l: nat)
    | Abandon(l: nat)                // a query failed

  predicate Enabled(y: System, step: Step) {
    match step
    case Deliver(n, s) => n < |y.writes| && Within(y.writes[n].scope, s)
    case Begin(l, p) => l !in y.loads && WellFormed(p)
    case ReadBindings(l) => l in y.loads && y.loads[l].bindings.None?
    case ReadRules(l) => l in y.loads && y.loads[l].bindings.Some? && y.loads[l].rules.None?
    case Finish(l) => l in y.loads && y.loads[l].bindings.Some? && y.loads[l].rules.Some?
    case Abandon(l) => l in y.loads
    case _ => true
  }

  function Next(y: System, step: Step): System
    requires Enabled(y, step)
  {
    match step
    case Tick(d) => y.(now := y.now + d)
    case Write(s) => y.(writes := y.writes + [Commit(s, y.now)])
    case Deliver(n, s) => y.(cache := Invalidated(y.cache, s), delivered := y.delivered + {n})
    case Begin(l, p) => y.(loads := y.loads[l := Load(p, StampOf(y.cache, p.org), y.now, None, None)])
    case ReadBindings(l) => y.(loads := y.loads[l := y.loads[l].(bindings := Some(Snapshot(y.now, |y.writes|)))])
    case ReadRules(l) => y.(loads := y.loads[l := y.loads[l].(rules := Some(Snapshot(y.now, |y.writes|)))])
    case Finish(l) =>
      var load := y.loads[l];
      var entry := Entry(load.at, load.bindings.value, load.rules.value);
      y.(cache := Stored(y.cache, load.p, load.captured, entry), loads := y.loads - {l})
    case Abandon(l) => y.(loads := y.loads - {l})
  }

  function Start(now: int): System {
    System(Cache(map[], 0, map[]), now, [], {}, map[])
  }

  predicate Possible(y: System, run: seq<Step>)
    decreases |run|
  {
    run == [] || (Enabled(y, run[0]) && Possible(Next(y, run[0]), run[1..]))
  }

  function After(y: System, run: seq<Step>): System
    requires Possible(y, run)
    decreases |run|
  {
    if run == [] then y else After(Next(y, run[0]), run[1..])
  }

  /** A load that read anything before write n can no longer store. */
  predicate Barred(y: System, load: Load, n: nat) {
    Missed(load, n) ==> Before(load.captured, StampOf(y.cache, load.p.org))
  }

  /** Nothing cached for p, and no load of p that can still store, predates write n. */
  ghost predicate Settled(y: System, n: nat, p: Principal) {
    && (CacheKey(p) in y.cache.entries ==> !Predates(y.cache.entries[CacheKey(p)], n))
    && forall l :: l in y.loads && y.loads[l].p == p ==> Barred(y, y.loads[l], n)
  }

  ghost predicate LoadsOk(y: System) {
    forall l :: l in y.loads ==>
      var load := y.loads[l]; var current := StampOf(y.cache, load.p.org);
      && WellFormed(load.p) && load.at <= y.now
      && (load.captured == current || Before(load.captured, current))
  }

  /** A snapshot was taken no earlier than `begun`, and misses only writes that came
      at or after it. */
  ghost predicate Taken(y: System, begun: int, read: Snapshot) {
    && begun <= read.at <= y.now && read.writes <= |y.writes|
    && forall n :: read.writes <= n < |y.writes| ==> read.at <= y.writes[n].at
  }

  ghost predicate LoadTaken(y: System, load: Load) {
    && (load.bindings.Some? ==> Taken(y, load.at, load.bindings.value))
    && (load.rules.Some? ==> Taken(y, load.at, load.rules.value))
  }

  ghost predicate EntryTaken(y: System, e: Entry) {
    Taken(y, e.at, e.bindings) && Taken(y, e.at, e.rules)
  }

  ghost predicate TimesOk(y: System) {
    && (forall n :: 0 <= n < |y.writes| ==> y.writes[n].at <= y.now)
    && (forall l :: l in y.loads ==> LoadTaken(y, y.loads[l]))
    && (forall k :: k in y.cache.entries ==> EntryTaken(y, y.cache.entries[k]))
  }

  ghost predicate Invariant(y: System) {
    && LoadsOk(y) && TimesOk(y)
    && (forall n :: n in y.delivered ==> n < |y.writes|)
    && (forall n, p :: n in y.delivered && WellFormed(p) && Reaches(y.writes[n].scope, p) ==> Settled(y, n, p))
  }

  lemma WithinReaches(small: Scope, big: Scope, p: Principal)
    requires Within(small, big) && Reaches(small, p)
    ensures Reaches(big, p)
  {
  }

  lemma DeliverSettles(y: System, n: nat, s: Scope, p: Principal)
    requires LoadsOk(y) && Enabled(y, Deliver(n, s)) && Reaches(s, p)
    ensures Settled(Next(y, Deliver(n, s)), n, p)
  {
    InvalidatedDrops(y.cache, s, p);
  }

  lemma DeliverKeeps(y: System, n: nat, s: Scope, m: nat, p: Principal)
    requires LoadsOk(y) && Enabled(y, Deliver(n, s)) && Settled(y, m, p)
    ensures Settled(Next(y, Deliver(n, s)), m, p)
  {
    StampsOnlyGrow(y.cache, s, p.org);
  }

  lemma FinishKeeps(y: System, l: nat, n: nat, p: Principal)
    requires LoadsOk(y) && Enabled(y, Finish(l)) && Settled(y, n, p) && WellFormed(p)
    ensures Settled(Next(y, Finish(l)), n, p)
  {
    var load := y.loads[l];
    if CacheKey(load.p) == CacheKey(p) {
      KeysAreDistinct(load.p, p);
      assert Barred(y, load, n);
    }
    forall m | m in Next(y, Finish(l)).loads && Next(y, Finish(l)).loads[m].p == p
      ensures Barred(Next(y, Finish(l)), y.loads[m], n)
    {
      assert Barred(y, y.loads[m], n);
    }
  }

  lemma LoadsStep(y: System, step: Step)
    requires Enabled(y, step) && LoadsOk(y)
    ensures LoadsOk(Next(y, step))
  {
    if step.Deliver? {
      forall l | l in y.loads {
        StampsOnlyGrow(y.cache, step.s, y.loads[l].p.org);
      }
    }
  }

  lemma TakenStays(y: System, step: Step, begun: int, read: Snapshot)
    requires Enabled(y, step) && Taken(y, begun, read)
    ensures Taken(Next(y, step), begun, read)
  {
  }

  lemma TimesStep(y: System, step: Step)
    requires Enabled(y, step) && LoadsOk(y) && TimesOk(y)
    ensures TimesOk(Next(y, step))
  {
    var z := Next(y, step);
    forall l | l in z.loads ensures LoadTaken(z, z.loads[l]) {
      LoadStaysTaken(y, step, l);
    }
    forall k | k in z.cache.entries ensures EntryTaken(z, z.cache.entries[k]) {
      EntryStaysTaken(y, step, k);
    }
  }

  lemma LoadStaysTaken(y: System, step: Step, l: nat)
    requires Enabled(y, step) && LoadsOk(y) && TimesOk(y) && l in Next(y, step).loads
    ensures LoadTaken(Next(y, step), Next(y, step).loads[l])
  {
    if l in y.loads {
      var load := y.loads[l];
      assert LoadTaken(y, load);
      if load.bindings.Some? {
        TakenStays(y, step, load.at, load.bindings.value);
      }
      if load.rules.Some? {
        TakenStays(y, step, load.at, load.rules.value);
      }
    }
  }

  lemma EntryStaysTaken(y: System, step: Step, k: string)
    requires Enabled(y, step) && TimesOk(y) && k in Next(y, step).cache.entries
    ensures EntryTaken(Next(y, step), Next(y, step).cache.entries[k])
  {
    var e := Next(y, step).cache.entries[k];
    if step.Finish? {
      assert LoadTaken(y, y.loads[step.l]);
    }
    TakenStays(y, step, e.at, e.bindings);
    TakenStays(y, step, e.at, e.rules);
  }

  lemma SettledStep(y: System, step: Step, n: nat, p: Principal)
    requires Enabled(y, step) && LoadsOk(y) && n < |y.writes| && WellFormed(p) && Settled(y, n, p)
    ensures Settled(Next(y, step), n, p)
  {
    match step
    case Deliver(m, s) => DeliverKeeps(y, m, s, n, p);
    case Finish(l) => FinishKeeps(y, l, n, p);
    case _ =>
  }

  lemma InvariantStep(y: System, step: Step)
    requires Enabled(y, step) && Invariant(y)
    ensures Invariant(Next(y, step))
  {
    var z := Next(y, step);
    LoadsStep(y, step);
    TimesStep(y, step);
    forall n, p | n in z.delivered && WellFormed(p) && Reaches(z.writes[n].scope, p) ensures Settled(z, n, p) {
      if n in y.delivered {
        SettledStep(y, step, n, p);
      } else {
        WithinReaches(y.writes[n].scope, step.s, p);
        DeliverSettles(y, n, step.s, p);
      }
    }
  }

  lemma {:induction false} InvariantRun(y: System, run: seq<Step>)
    requires Invariant(y) && Possible(y, run)
    ensures Invariant(After(y, run))
    decreases |run|
  {
    if run != [] {
      InvariantStep(y, run[0]);
      InvariantRun(Next(y, run[0]), run[1..]);
    }
  }

  /** In any interleaving of writes, invalidations and the two queries of each load: once a
      write has been invalidated for, nothing cached for a principal it reached predates it,
      in either part, and a load still in flight that read anything before it will not be
      kept when it finishes. */
  lemma NoStaleEntryComesBack(now: int, run: seq<Step>, n: nat, p: Principal)
    requires Possible(Start(now), run)
    requires var y := After(Start(now), run);
             n in y.delivered && n < |y.writes| && WellFormed(p) && Reaches(y.writes[n].scope, p)
    ensures var y := After(Start(now), run);
            && (CacheKey(p) in y.cache.entries ==> !Predates(y.cache.entries[CacheKey(p)], n))
            && (forall l :: l in y.loads && y.loads[l].p == p && Enabled(y, Finish(l)) && Missed(y.loads[l], n) ==>
                  Next(y, Finish(l)).cache == y.cache)
  {
    InvariantRun(Start(now), run);
    var y := After(Start(now), run);
    assert Settled(y, n, p);
    forall l | l in y.loads && y.loads[l].p == p && Enabled(y, Finish(l)) && Missed(y.loads[l], n)
      ensures Next(y, Finish(l)).cache == y.cache
    {
      assert Barred(y, y.loads[l], n);
    }
  }

  /** Even when no invalidation ever arrives, both parts of an entry served from the cache
      were read less than TTL ago, and show every write committed TTL ago or longer. */
  lemma ServedEntriesAreYoung(ttl: int, now: int, run: seq<Step>, p: Principal)
    requires Possible(Start(now), run)
    requires var y := After(Start(now), run);
             CacheKey(p) in y.cache.entries && y.now - y.cache.entries[CacheKey(p)].at < ttl
    ensures var y := After(Start(now), run); var e := y.cache.entries[CacheKey(p)];
            && e.at <= e.bindings.at <= y.now && y.now - e.bindings.at < ttl
            && e.at <= e.rules.at <= y.now && y.now - e.rules.at < ttl
            && forall n :: 0 <= n < |y.writes| && y.writes[n].at <= y.now - ttl ==> !Predates(e, n)
  {
    InvariantRun(Start(now), run);
    var y := After(Start(now), run);
    var e := y.cache.entries[CacheKey(p)];
    assert EntryTaken(y, e);
  }
}
