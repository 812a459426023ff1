/** An organisation's screening policies and the detectors it wrote itself: what every write
    keeps. */
module DlpPolicies {
  import opened Collections

  /** A detector named by a policy: one of the built-in ones, or one of the organisation's. */
  datatype Name = Builtin(name: string) | Own(slug: string)

  /** A pattern stands for its text and its flags. */
  datatype Detector = Detector(name: string, pattern: string, version: nat)

  /** An empty list of detectors means every built-in one. */
  datatype Policy = Policy(detectors: seq<Name>, maxBytes: nat, enabled: bool, settings: string)

  /** The two tables by id, and the unique index over the detectors' names. */
  datatype Db = Db(policies: map<string, Policy>, detectors: map<string, Detector>, names: map<string, string>)

  /** What a pattern compiles to, in instructions, if it compiles. */
  type Compiler = string -> Option<nat>

  const SCAN_COST_BUDGET := 16777216
  const MAX_PROGRAM := 256
  const DEFAULT_MAX_BYTES := 65536
  const MAX_DETECTORS := 50

  function EffectiveMaxBytes(n: nat): (m: nat)
    ensures m > 0
  {
    if n <= 0 then DEFAULT_MAX_BYTES else n
  }

  function Limit(maxBytes: nat): nat {
    SCAN_COST_BUDGET / EffectiveMaxBytes(maxBytes)
  }

  // --- What a policy costs -----------------------------------------------------------------

  /** The most a detector may cost stands in for a pattern that does not compile. */
  function PriceOf(size: Compiler, pattern: string): nat {
    size(pattern).GetOr(MAX_PROGRAM)
  }

  function Price(size: Compiler, db: Db, slug: string): nat {
    if slug in db.names && db.names[slug] in db.detectors
    then PriceOf(size, db.detectors[db.names[slug]].pattern) else 0
  }

  /** The organisation's own detectors a policy names, each once. */
  function Once(names: seq<Name>): seq<string> {
    if names == [] then []
    else
      var rest, last := Once(names[..|names| - 1]), names[|names| - 1];
      if last.Own? && last.slug !in rest then rest + [last.slug] else rest
  }

  /** And as often as it names them. */
  function Named(names: seq<Name>): seq<string> {
    if names == [] then []
    else
      var rest, last := Named(names[..|names| - 1]), names[|names| - 1];
      if last.Own? then rest + [last.slug] else rest
  }

  function Total(size: Compiler, db: Db, slugs: seq<string>): nat {
    if slugs == [] then 0 else Total(size, db, slugs[..|slugs| - 1]) + Price(size, db, slugs[|slugs| - 1])
  }

  function Names(p: Policy): set<string> {
    set s | s in Once(p.detectors)
  }

  /** A policy names only detectors there are, and their programs, each counted once, times
      the bytes it reads stay within the budget. */
  ghost predicate Within(size: Compiler, db: Db, p: Policy) {
    Names(p) <= db.names.Keys && Total(size, db, Once(p.detectors)) <= Limit(p.maxBytes)
  }

  /** The index holds the names of the stored detectors. */
  ghost predicate Indexed(db: Db) {
    && (forall s :: s in db.names ==> db.names[s] in db.detectors && db.detectors[db.names[s]].name == s)
    && (forall id :: id in db.detectors ==> db.detectors[id].name in db.names && db.names[db.detectors[id].name] == id)
  }

  ghost predicate Ok(size: Compiler, db: Db) {
    Indexed(db) && forall id :: id in db.policies ==> Within(size, db, db.policies[id])
  }

  // --- The checks -----------------------------------------------------------------------------

  /** A detector of this name is stored, and its pattern compiles. */
  predicate CanRun(size: Compiler, db: Db, slug: string) {
    slug in db.names && db.names[slug] in db.detectors && size(db.detectors[db.names[slug]].pattern).Some?
  }

  /** What a policy write checks. */
  ghost predicate CustomOk(size: Compiler, db: Db, p: Policy) {
    var want := Once(p.detectors);
    && (forall k :: 0 <= k < |want| ==> CanRun(size, db, want[k]))
    && Total(size, db, want) <= Limit(p.maxBytes)
  }

  /** Every detector of the organisation that the policy names is stored and compiles, and
      their programs, each counted once, times the bytes it reads are within the budget. */
  ghost predicate Affordable(size: Compiler, db: Db, p: Policy) {
    && (forall s :: Own(s) in p.detectors ==>
          && s in db.names && db.names[s] in db.detectors
          && size(db.detectors[db.names[s]].pattern).Some?)
    && Total(size, db, Once(p.detectors)) * EffectiveMaxBytes(p.maxBytes) <= SCAN_COST_BUDGET
  }

  lemma AffordableExactlyWhen(size: Compiler, db: Db, p: Policy)
    ensures CustomOk(size, db, p) <==> Affordable(size, db, p)
  {
    var want := Once(p.detectors);
    OnceIsNamed(p.detectors);
    assert (forall k :: 0 <= k < |want| ==> CanRun(size, db, want[k]))
      <==> forall s :: s in want ==> CanRun(size, db, s);
    assert forall s :: s in want <==> Own(s) in p.detectors;
    WithinTheLimit(Total(size, db, want), EffectiveMaxBytes(p.maxBytes));
  }

  /** Every mention in a policy of an edited detector, and of the others beside it, is paid
      for. */
  ghost predicate StillAffordable(size: Compiler, db: Db, id: string, d: Detector, p: Policy) {
    Own(d.name) in p.detectors ==>
      Total(size, WithDetector(db, id, d), Named(p.detectors)) * EffectiveMaxBytes(p.maxBytes) <= SCAN_COST_BUDGET
  }

  lemma StillAffordableExactlyWhen(size: Compiler, db: Db, id: string, d: Detector)
    ensures PoliciesOk(size, db, id, d)
       <==> forall q :: q in db.policies ==> StillAffordable(size, db, id, d, db.policies[q])
  {
    forall q | q in db.policies
      ensures StillAffordable(size, db, id, d, db.policies[q])
         <==> (Own(d.name) in db.policies[q].detectors
               ==> Total(size, WithDetector(db, id, d), Named(db.policies[q].detectors))
                   <= Limit(db.policies[q].maxBytes))
    {
      OneStillAffordable(size, db, id, d, db.policies[q]);
    }
  }

  lemma OneStillAffordable(size: Compiler, db: Db, id: string, d: Detector, p: Policy)
    ensures StillAffordable(size, db, id, d, p)
       <==> (Own(d.name) in p.detectors
             ==> Total(size, WithDetector(db, id, d), Named(p.detectors)) <= Limit(p.maxBytes))
  {
    WithinTheLimit(Total(size, WithDetector(db, id, d), Named(p.detectors)), EffectiveMaxBytes(p.maxBytes));
  }

  lemma WithinTheLimit(total: nat, bytes: nat)
    requires bytes > 0
    ensures total <= SCAN_COST_BUDGET / bytes <==> total * bytes <= SCAN_COST_BUDGET
  {
    var q := SCAN_COST_BUDGET / bytes;
    assert q * bytes <= SCAN_COST_BUDGET < q * bytes + bytes;
    Divides(total, q, bytes, SCAN_COST_BUDGET);
  }

  lemma Divides(total: nat, q: nat, bytes: nat, budget: nat)
    requires q * bytes <= budget < q * bytes + bytes
    ensures total <= q <==> total * bytes <= budget
  {
    if total <= q {
      MoreCostMore(total, q, bytes);
    } else {
      MoreCostMore(q + 1, total, bytes);
      assert (q + 1) * bytes == q * bytes + bytes;
    }
  }

  lemma MoreCostMore(a: nat, b: nat, bytes: nat)
    requires a <= b
    ensures a * bytes <= b * bytes
  {
    var more: nat := b - a;
    assert b * bytes == a * bytes + more * bytes;
  }

  /** A stored detector costs its program's size, or the most where it does not compile. */
  lemma PriceIsItsSize(size: Compiler, db: Db, id: string)
    requires Indexed(db) && id in db.detectors
    ensures var d := db.detectors[id];
            Price(size, db, d.name) == if size(d.pattern).Some? then size(d.pattern).value else 256
  {
  }

  method Wanted(names: seq<Name>) returns (want: seq<string>)
    ensures want == Once(names)
  {
    want := [];
    for i := 0 to |names|
      invariant want == Once(names[..i])
    {
      assert names[..i + 1][..i] == names[..i];
      if names[i].Own? && names[i].slug !in want {
        want := want + [names[i].slug];
      }
    }
    assert names[..|names|] == names;
  }

  function SumOf(sizes: seq<nat>): nat {
    if sizes == [] then 0 else SumOf(sizes[..|sizes| - 1]) + sizes[|sizes| - 1]
  }

  method ScanCost(sizes: seq<nat>, maxBytes: nat) returns (total: nat, limit: nat)
    ensures total == SumOf(sizes) && limit == Limit(maxBytes)
  {
    total := 0;
    for i := 0 to |sizes|
      invariant total == SumOf(sizes[..i])
    {
      assert sizes[..i + 1][..i] == sizes[..i];
      total := total + sizes[i];
    }
    assert sizes[..|sizes|] == sizes;
    limit := SCAN_COST_BUDGET / EffectiveMaxBytes(maxBytes);
  }

  /** The first i can run, at these sizes. */
  ghost predicate Priced(size: Compiler, db: Db, want: seq<string>, i: nat, sizes: seq<nat>) {
    && i <= |want| && (forall k :: 0 <= k < i ==> CanRun(size, db, want[k]))
    && SumOf(sizes) == Total(size, db, want[..i])
  }

  lemma PricedOneMore(size: Compiler, db: Db, want: seq<string>, i: nat, sizes: seq<nat>)
    requires Priced(size, db, want, i, sizes) && i < |want| && CanRun(size, db, want[i])
    ensures Priced(size, db, want, i + 1, sizes + [size(db.detectors[db.names[want[i]]].pattern).value])
  {
    assert want[..i + 1][..i] == want[..i];
    SumOneMore(sizes, size(db.detectors[db.names[want[i]]].pattern).value);
  }

  method CustomCheck(size: Compiler, db: Db, p: Policy) returns (ok: bool)
    requires Indexed(db)
    ensures ok <==> CustomOk(size, db, p)
  {
    var want := Wanted(p.detectors);
    if |want| == 0 {
      return true;
    }
    var sizes: seq<nat> := [];
    for i := 0 to |want|
      invariant Priced(size, db, want, i, sizes)
    {
      if want[i] !in db.names {
        return false;
      }
      var n := size(db.detectors[db.names[want[i]]].pattern);
      if n.None? {
        return false;
      }
      PricedOneMore(size, db, want, i, sizes);
      sizes := sizes + [n.value];
    }
    assert want[..|want|] == want;
    var total, limit := ScanCost(sizes, p.maxBytes);
    ok := total <= limit;
  }

  function WithDetector(db: Db, id: string, d: Detector): Db {
    Db(db.policies, db.detectors[id := d], db.names[d.name := id])
  }

  /** What changing a detector checks: every policy that names it, with the price the new
      pattern would have, and every mention counted. */
  ghost predicate PoliciesOk(size: Compiler, db: Db, id: string, d: Detector) {
    forall p :: p in db.policies && Own(d.name) in db.policies[p].detectors
                ==> Total(size, WithDetector(db, id, d), Named(db.policies[p].detectors))
                    <= Limit(db.policies[p].maxBytes)
  }

  method PoliciesFit(size: Compiler, db: Db, id: string, d: Detector) returns (ok: bool)
    requires Indexed(db) && size(d.pattern).Some?
    ensures ok <==> PoliciesOk(size, db, id, d)
  {
    var after := WithDetector(db, id, d);
    var rest := db.policies.Keys;
    while rest != {}
      invariant rest <= db.policies.Keys
      invariant forall p :: p in db.policies.Keys - rest && Own(d.name) in db.policies[p].detectors
                            ==> Total(size, after, Named(db.policies[p].detectors)) <= Limit(db.policies[p].maxBytes)
      decreases |rest|
    {
      var p := Any(rest);
      var policy := db.policies[p];
      if Own(d.name) in policy.detectors {
        var named := Prices(size, after, policy.detectors);
        var total, limit := ScanCost(named, policy.maxBytes);
        if total > limit {
          return false;
        }
      }
      rest := rest - {p};
    }
    ok := true;
  }

  method Prices(size: Compiler, db: Db, names: seq<Name>) returns (sizes: seq<nat>)
    ensures SumOf(sizes) == Total(size, db, Named(names))
  {
    sizes := [];
    for i := 0 to |names|
      invariant SumOf(sizes) == Total(size, db, Named(names[..i]))
    {
      NamedOneMore(size, db, names, i);
      if names[i].Own? {
        var price := Price(size, db, names[i].slug);
        SumOneMore(sizes, price);
        sizes := sizes + [price];
      }
    }
    assert names[..|names|] == names;
  }

  lemma NamedOneMore(size: Compiler, db: Db, names: seq<Name>, i: nat)
    requires i < |names|
    ensures Total(size, db, Named(names[..i + 1]))
         == Total(size, db, Named(names[..i])) + if names[i].Own? then Price(size, db, names[i].slug) else 0
  {
    assert names[..i + 1][..i] == names[..i];
    if names[i].Own? {
      TotalOfMore(size, db, Named(names[..i]), names[i].slug);
    }
  }

  lemma SumOneMore(sizes: seq<nat>, x: nat)
    ensures SumOf(sizes + [x]) == SumOf(sizes) + x
  {
    assert (sizes + [x])[..|sizes|] == sizes;
  }

  // --- Taking a detector out ------------------------------------------------------------------

  function Without(names: seq<Name>, n: Name): (r: seq<Name>)
    ensures n !in r
  {
    if names == [] then []
    else Without(names[..|names| - 1], n) + if names[|names| - 1] == n then [] else [names[|names| - 1]]
  }

  /** A policy left with no detector at all is switched off: an empty list would mean every
      built-in one. */
  function TakenOut(p: Policy, n: Name): Policy {
    if n in p.detectors then
      var left := Without(p.detectors, n);
      p.(detectors := left, enabled := p.enabled && |left| > 0)
    else p
  }

  function AllTakenOut(policies: map<string, Policy>, n: Name): map<string, Policy> {
    map id | id in policies :: TakenOut(policies[id], n)
  }

  // --- The writes --------------------------------------------------------------------------------

  /** Whether the rest of a write's checks pass, of texts, samples and scope, comes with it. */
  datatype Op =
    | CreatePolicy(id: string, policy: Policy, accepted: bool)
    | UpdatePolicy(id: string, policy: Policy, accepted: bool)
    | RestorePolicy(id: string, policy: Policy, accepted: bool)
    | DeletePolicy(id: string)
    | CreateDetector(id: string, detector: Detector, accepted: bool)
    | UpdateDetector(id: string, pattern: string, expected: nat, accepted: bool)
    | DeleteDetector(id: string, force: bool)
    | RestoreDetector(id: string, detector: Detector, accepted: bool)

  datatype Outcome = Done | Invalid | NotFound | Conflict | InUse | NameTaken | Full

  predicate Compiles(size: Compiler, pattern: string) {
    size(pattern).Some? && size(pattern).value <= MAX_PROGRAM
  }

  ghost function Saved(size: Compiler, db: Db, id: string, p: Policy, accepted: bool): (Db, Outcome) {
    if accepted && CustomOk(size, db, p) then (db.(policies := db.policies[id := p]), Done) else (db, Invalid)
  }

  function Added(size: Compiler, db: Db, id: string, d: Detector, accepted: bool): (Db, Outcome) {
    if !accepted || !Compiles(size, d.pattern) then (db, Invalid)
    else if |db.detectors| >= MAX_DETECTORS then (db, Full)
    else if d.name in db.names then (db, NameTaken)
    else (WithDetector(db, id, d.(version := 1)), Done)
  }

  ghost function Changed(size: Compiler, db: Db, id: string, pattern: string, accepted: bool): (Db, Outcome)
    requires id in db.detectors
  {
    var d := db.detectors[id];
    var after := Detector(d.name, pattern, d.version + 1);
    if !accepted || !Compiles(size, pattern) || !PoliciesOk(size, db, id, after) then (db, Invalid)
    else (WithDetector(db, id, after), Done)
  }

  predicate Named?(db: Db, n: Name) {
    exists id :: id in db.policies && n in db.policies[id].detectors
  }

  function Dropped(db: Db, id: string): Db
    requires id in db.detectors
  {
    var n := db.detectors[id].name;
    Db(AllTakenOut(db.policies, Own(n)), db.detectors - {id}, db.names - {n})
  }

  ghost function Next(size: Compiler, db: Db, op: Op): (Db, Outcome) {
    match op
    case CreatePolicy(id, p, accepted) => if id in db.policies then (db, Conflict) else Saved(size, db, id, p, accepted)
    case UpdatePolicy(id, p, accepted) =>
      if id !in db.policies then (db, NotFound) else Saved(size, db, id, p, accepted)
    case RestorePolicy(id, p, accepted) => Saved(size, db, id, p, accepted)
    case DeletePolicy(id) =>
      if id !in db.policies then (db, NotFound) else (db.(policies := db.policies - {id}), Done)
    case CreateDetector(id, d, accepted) =>
      if id in db.detectors then (db, Conflict) else Added(size, db, id, d, accepted)
    case UpdateDetector(id, pattern, expected, accepted) =>
      if id !in db.detectors then (db, NotFound)
      else if db.detectors[id].version != expected then (db, Conflict)
      else Changed(size, db, id, pattern, accepted)
    case DeleteDetector(id, force) =>
      if id !in db.detectors then (db, NotFound)
      else if Named?(db, Own(db.detectors[id].name)) && !force then (db, InUse)
      else (Dropped(db, id), Done)
    case RestoreDetector(id, d, accepted) =>
      if id in db.detectors then Changed(size, db, id, d.pattern, accepted)
      else Added(size, db, id, d, accepted)
  }

  method TakeOut(policies: map<string, Policy>, n: Name) returns (m: map<string, Policy>, users: nat)
    ensures m == AllTakenOut(policies, n)
    ensures users > 0 <==> exists id :: id in policies && n in policies[id].detectors
  {
    m, users := policies, 0;
    var rest := policies.Keys;
    while rest != {}
      invariant rest <= policies.Keys && m.Keys == policies.Keys
      invariant forall id :: id in m ==> m[id] == if id in rest then policies[id] else TakenOut(policies[id], n)
      invariant users > 0 <==> exists id :: id in policies.Keys - rest && n in policies[id].detectors
      decreases |rest|
    {
      var id := Any(rest);
      rest := rest - {id};
      if n in policies[id].detectors {
        users := users + 1;
        m := m[id := TakenOut(policies[id], n)];
      }
    }
  }

  class Policies {
    const size: Compiler
    var policies: map<string, Policy>
    var detectors: map<string, Detector>
    var names: map<string, string>

    function Contents(): Db
      reads this
    {
      Db(policies, detectors, names)
    }

    constructor (size: Compiler)
      ensures this.size == size && Contents() == Db(map[], map[], map[])
    {
      this.size, policies, detectors, names := size, map[], map[], map[];
    }

    /** A policy write that has found its row, or needs none. */
    method SavePolicy(id: string, p: Policy, accepted: bool) returns (o: Outcome)
      requires Indexed(Contents())
      modifies this`policies
      ensures (Contents(), o) == Saved(size, old(Contents()), id, p, accepted)
      ensures o == Done <==> accepted && Affordable(size, old(Contents()), p)
      ensures o == Done ==> policies == old(policies)[id := p]
      ensures o != Done ==> o == Invalid && policies == old(policies)
    {
      AffordableExactlyWhen(size, Contents(), p);
      if !accepted {
        return Invalid;
      }
      var ok := CustomCheck(size, Contents(), p);
      if !ok {
        return Invalid;
      }
      policies := policies[id := p];
      o := Done;
    }

    method CreatePolicy(id: string, p: Policy, accepted: bool) returns (o: Outcome)
      requires Indexed(Contents())
      modifies this`policies
      ensures (Contents(), o) == Next(size, old(Contents()), Op.CreatePolicy(id, p, accepted))
      ensures id in old(policies) ==> o == Conflict
      ensures policies == if o == Done then old(policies)[id := p] else old(policies)
    {
      if id in policies {
        return Conflict;
      }
      o := SavePolicy(id, p, accepted);
    }

    method UpdatePolicy(id: string, p: Policy, accepted: bool) returns (o: Outcome)
      requires Indexed(Contents())
      modifies this`policies
      ensures (Contents(), o) == Next(size, old(Contents()), Op.UpdatePolicy(id, p, accepted))
      ensures id !in old(policies) ==> o == NotFound
      ensures policies == if o == Done then old(policies)[id := p] else old(policies)
    {
      if id !in policies {
        return NotFound;
      }
      o := SavePolicy(id, p, accepted);
    }

    /** A policy deleted since comes back under its old id. */
    method RestorePolicy(id: string, p: Policy, accepted: bool) returns (o: Outcome)
      requires Indexed(Contents())
      modifies this`policies
      ensures (Contents(), o) == Next(size, old(Contents()), Op.RestorePolicy(id, p, accepted))
      ensures policies == if o == Done then old(policies)[id := p] else old(policies)
    {
      o := SavePolicy(id, p, accepted);
    }

    method DeletePolicy(id: string) returns (o: Outcome)
      modifies this`policies
      ensures (Contents(), o) == Next(size, old(Contents()), Op.DeletePolicy(id))
      ensures o == (if id in old(policies) then Done else NotFound) && policies == old(policies) - {id}
    {
      if id !in policies {
        return NotFound;
      }
      policies := policies - {id};
      o := Done;
    }

    method AddDetector(id: string, d: Detector, accepted: bool) returns (o: Outcome)
      modifies this`detectors, this`names
      ensures (Contents(), o) == Added(size, old(Contents()), id, d, accepted)
      ensures o == Done <==>
                && accepted && size(d.pattern).Some? && size(d.pattern).value <= MAX_PROGRAM
                && |old(detectors)| < MAX_DETECTORS && d.name !in old(names)
      ensures o == Done ==> detectors == old(detectors)[id := Detector(d.name, d.pattern, 1)]
                            && names == old(names)[d.name := id]
      ensures o != Done ==> detectors == old(detectors) && names == old(names)
    {
      if !accepted || !Compiles(size, d.pattern) {
        return Invalid;
      }
      if |detectors| >= MAX_DETECTORS {
        return Full;
      }
      if d.name in names {
        return NameTaken;
      }
      detectors, names := detectors[id := d.(version := 1)], names[d.name := id];
      o := Done;
    }

    method CreateDetector(id: string, d: Detector, accepted: bool) returns (o: Outcome)
      modifies this`detectors, this`names
      ensures (Contents(), o) == Next(size, old(Contents()), Op.CreateDetector(id, d, accepted))
      ensures o == Done <==> id !in old(detectors) && accepted && Compiles(size, d.pattern)
                             && |old(detectors)| < MAX_DETECTORS && d.name !in old(names)
      ensures detectors == if o == Done then old(detectors)[id := d.(version := 1)] else old(detectors)
    {
      if id in detectors {
        return Conflict;
      }
      o := AddDetector(id, d, accepted);
    }

    /** The name is how policies find a detector; it stays. */
    method ChangeDetector(id: string, pattern: string, accepted: bool) returns (o: Outcome)
      requires Indexed(Contents()) && id in detectors
      modifies this`detectors, this`names
      ensures (Contents(), o) == Changed(size, old(Contents()), id, pattern, accepted)
      ensures var d := old(detectors)[id];
              o == Done <==> accepted && Compiles(size, pattern) && forall q :: q in old(policies) ==>
                StillAffordable(size, old(Contents()), id, Detector(d.name, pattern, d.version + 1), old(policies)[q])
      ensures o == Done ==>
                var d := old(detectors)[id];
                && detectors == old(detectors)[id := Detector(d.name, pattern, d.version + 1)]
                && accepted && size(pattern).Some? && size(pattern).value <= MAX_PROGRAM
      ensures o != Done ==> o == Invalid && detectors == old(detectors) && names == old(names)
    {
      var d := detectors[id];
      var after := Detector(d.name, pattern, d.version + 1);
      StillAffordableExactlyWhen(size, Contents(), id, after);
      if !accepted || !Compiles(size, pattern) {
        return Invalid;
      }
      var fits := PoliciesFit(size, Contents(), id, after);
      if !fits {
        return Invalid;
      }
      detectors, names := detectors[id := after], names[after.name := id];
      o := Done;
    }

    method UpdateDetector(id: string, pattern: string, expected: nat, accepted: bool) returns (o: Outcome)
      requires Indexed(Contents())
      modifies this`detectors, this`names
      ensures (Contents(), o) == Next(size, old(Contents()), Op.UpdateDetector(id, pattern, expected, accepted))
      ensures o == NotFound <==> id !in old(detectors)
      ensures o == Conflict <==> id in old(detectors) && old(detectors)[id].version != expected
      ensures o != Done ==> detectors == old(detectors) && names == old(names)
    {
      if id !in detectors {
        return NotFound;
      }
      if detectors[id].version != expected {
        return Conflict;
      }
      o := ChangeDetector(id, pattern, accepted);
    }

    method RestoreDetector(id: string, d: Detector, accepted: bool) returns (o: Outcome)
      requires Indexed(Contents())
      modifies this`detectors, this`names
      ensures (Contents(), o) == Next(size, old(Contents()), Op.RestoreDetector(id, d, accepted))
      ensures o == Done ==>
                && id in detectors && detectors - {id} == old(detectors) - {id} && detectors[id].pattern == d.pattern
                && detectors[id].name == if id in old(detectors) then old(detectors)[id].name else d.name
      ensures o != Done ==> detectors == old(detectors) && names == old(names)
    {
      if id in detectors {
        o := ChangeDetector(id, d.pattern, accepted);
      } else {
        o := AddDetector(id, d, accepted);
      }
    }

    method DeleteDetector(id: string, force: bool) returns (o: Outcome)
      modifies this`policies, this`detectors, this`names
      ensures (Contents(), o) == Next(size, old(Contents()), Op.DeleteDetector(id, force))
      ensures o == Done <==>
                && id in old(detectors)
                && (force
                    || forall q :: q in old(policies) ==>
                         Own(old(detectors)[id].name) !in old(policies)[q].detectors)
      ensures o == Done ==> detectors == old(detectors) - {id} && names == old(names) - {old(detectors)[id].name}
      ensures o != Done ==> Contents() == old(Contents())
    {
      if id !in detectors {
        return NotFound;
      }
      var name := detectors[id].name;
      var left, users := TakeOut(policies, Own(name));
      if users > 0 && !force {
        return InUse;
      }
      policies, detectors, names := left, detectors - {id}, names - {name};
      o := Done;
    }
  }

  // --- What every write keeps --------------------------------------------------------------------

  lemma {:induction false} OnceIsNamed(names: seq<Name>)
    ensures forall s :: s in Once(names) <==> Own(s) in names
  {
    if names != [] {
      OnceIsNamed(names[..|names| - 1]);
      assert names == names[..|names| - 1] + [names[|names| - 1]];
    }
  }

  lemma TotalOfMore(size: Compiler, db: Db, slugs: seq<string>, s: string)
    ensures Total(size, db, slugs + [s]) == Total(size, db, slugs) + Price(size, db, s)
  {
    assert (slugs + [s])[..|slugs|] == slugs;
  }

  /** Counting each mention never comes to less than counting each name. */
  lemma {:induction false} OnceCostsNoMore(size: Compiler, db: Db, names: seq<Name>)
    ensures Total(size, db, Once(names)) <= Total(size, db, Named(names))
  {
    if names != [] {
      var rest, last := names[..|names| - 1], names[|names| - 1];
      OnceCostsNoMore(size, db, rest);
      if last.Own? {
        TotalOfMore(size, db, Once(rest), last.slug);
        TotalOfMore(size, db, Named(rest), last.slug);
      }
    }
  }

  lemma {:induction false} WithoutLeaves(names: seq<Name>, n: Name)
    ensures forall m :: m in Without(names, n) <==> m in names && m != n
  {
    if names != [] {
      WithoutLeaves(names[..|names| - 1], n);
      assert names == names[..|names| - 1] + [names[|names| - 1]];
    }
  }

  /** Nor does taking a detector out make a policy dearer. */
  lemma {:induction false} LessIsCheaper(size: Compiler, db: Db, names: seq<Name>, n: Name)
    ensures Total(size, db, Once(Without(names, n))) <= Total(size, db, Once(names))
    decreases |names|
  {
    if names != [] {
      var rest, last := names[..|names| - 1], names[|names| - 1];
      LessIsCheaper(size, db, rest, n);
      assert names == rest + [last];
      OneMoreWithout(rest, last, n);
      OneLessIsCheaper(size, db, rest, Without(rest, n), last, n);
    }
  }

  lemma OneMoreWithout(rest: seq<Name>, last: Name, n: Name)
    ensures Without(rest + [last], n) == Without(rest, n) + if last == n then [] else [last]
  {
    assert (rest + [last])[..|rest|] == rest;
  }

  lemma OneLessIsCheaper(size: Compiler, db: Db, rest: seq<Name>, left: seq<Name>, last: Name, n: Name)
    requires left == Without(rest, n) && Total(size, db, Once(left)) <= Total(size, db, Once(rest))
    ensures Total(size, db, Once(left + if last == n then [] else [last])) <= Total(size, db, Once(rest + [last]))
  {
    OneMoreName(size, db, rest, last);
    if last == n {
      assert left + [] == left;
    } else {
      WithoutLeaves(rest, n);
      OnceIsNamed(rest);
      OnceIsNamed(left);
      OneMoreName(size, db, left, last);
    }
  }

  lemma OneMoreName(size: Compiler, db: Db, names: seq<Name>, last: Name)
    ensures Total(size, db, Once(names + [last]))
         == Total(size, db, Once(names))
            + if last.Own? && last.slug !in Once(names) then Price(size, db, last.slug) else 0
  {
    assert (names + [last])[..|names|] == names;
    if last.Own? {
      TotalOfMore(size, db, Once(names), last.slug);
    }
  }

  lemma {:induction false} SamePrices(size: Compiler, a: Db, b: Db, slugs: seq<string>)
    requires forall k :: 0 <= k < |slugs| ==> Price(size, a, slugs[k]) == Price(size, b, slugs[k])
    ensures Total(size, a, slugs) == Total(size, b, slugs)
  {
    if slugs != [] {
      SamePrices(size, a, b, slugs[..|slugs| - 1]);
    }
  }

  lemma SavedIsOk(size: Compiler, db: Db, id: string, p: Policy, accepted: bool)
    requires Ok(size, db)
    ensures Ok(size, Saved(size, db, id, p, accepted).0)
  {
    var after := Saved(size, db, id, p, accepted).0;
    if accepted && CustomOk(size, db, p) {
      SavedPrices(size, db, after);
    }
  }

  /** Prices are the detectors' alone. */
  lemma SavedPrices(size: Compiler, a: Db, b: Db)
    requires a.detectors == b.detectors && a.names == b.names
    ensures forall p :: Within(size, a, p) <==> Within(size, b, p)
    ensures forall p :: Total(size, a, Once(p)) == Total(size, b, Once(p))
  {
    forall p: seq<Name> ensures Total(size, a, Once(p)) == Total(size, b, Once(p)) {
      SamePrices(size, a, b, Once(p));
    }
  }

  lemma AddedIsOk(size: Compiler, db: Db, id: string, d: Detector, accepted: bool)
    requires Ok(size, db) && id !in db.detectors
    ensures Ok(size, Added(size, db, id, d, accepted).0)
  {
    var after := Added(size, db, id, d, accepted).0;
    if after != db {
      forall p | p in db.policies ensures Within(size, after, db.policies[p]) {
        assert Within(size, db, db.policies[p]);
        var want := Once(db.policies[p].detectors);
        forall k | 0 <= k < |want| ensures Price(size, db, want[k]) == Price(size, after, want[k]) {
          assert want[k] in Names(db.policies[p]);
        }
        SamePrices(size, db, after, want);
      }
    }
  }

  lemma ChangedIsOk(size: Compiler, db: Db, id: string, pattern: string, accepted: bool)
    requires Ok(size, db) && id in db.detectors
    ensures Ok(size, Changed(size, db, id, pattern, accepted).0)
  {
    var d := db.detectors[id];
    var after := Changed(size, db, id, pattern, accepted).0;
    if after != db {
      forall p | p in db.policies ensures Within(size, after, db.policies[p]) {
        var policy := db.policies[p];
        assert Within(size, db, policy);
        OnceIsNamed(policy.detectors);
        if Own(d.name) in policy.detectors {
          OnceCostsNoMore(size, after, policy.detectors);
        } else {
          SamePrices(size, db, after, Once(policy.detectors));
        }
      }
    }
  }

  lemma DroppedIsOk(size: Compiler, db: Db, id: string)
    requires Ok(size, db) && id in db.detectors
    ensures Ok(size, Dropped(db, id))
  {
    var after, n := Dropped(db, id), db.detectors[id].name;
    forall p | p in db.policies ensures Within(size, after, after.policies[p]) {
      var policy, left := db.policies[p], after.policies[p];
      assert Within(size, db, policy);
      LessIsCheaper(size, db, policy.detectors, Own(n));
      WithoutLeaves(policy.detectors, Own(n));
      OnceIsNamed(policy.detectors);
      OnceIsNamed(left.detectors);
      SamePrices(size, db, after, Once(left.detectors));
    }
  }

  /** Every write keeps it: a policy names only detectors there are, and stays within its
      budget. */
  lemma EveryWriteKeepsPolicies(size: Compiler, db: Db, op: Op)
    requires Ok(size, db)
    ensures Ok(size, Next(size, db, op).0)
  {
    match op
    case CreatePolicy(id, p, accepted) => SavedIsOk(size, db, id, p, accepted);
    case UpdatePolicy(id, p, accepted) => SavedIsOk(size, db, id, p, accepted);
    case RestorePolicy(id, p, accepted) => SavedIsOk(size, db, id, p, accepted);
    case DeletePolicy(id) => SavedPrices(size, db, Next(size, db, op).0);
    case CreateDetector(id, d, accepted) =>
      if id !in db.detectors {
        AddedIsOk(size, db, id, d, accepted);
      }
    case UpdateDetector(id, pattern, _, accepted) =>
      if id in db.detectors {
        ChangedIsOk(size, db, id, pattern, accepted);
      }
    case DeleteDetector(id, _) =>
      if id in db.detectors {
        DroppedIsOk(size, db, id);
      }
    case RestoreDetector(id, d, accepted) =>
      if id in db.detectors {
        ChangedIsOk(size, db, id, d.pattern, accepted);
      } else {
        AddedIsOk(size, db, id, d, accepted);
      }
  }

  // --- Over whole runs ---------------------------------------------------------------------------

  ghost function After(size: Compiler, ops: seq<Op>): Db {
    if ops == [] then Db(map[], map[], map[])
    else Next(size, After(size, ops[..|ops| - 1]), ops[|ops| - 1]).0
  }

  lemma {:induction false} EveryRunKeepsPolicies(size: Compiler, ops: seq<Op>)
    ensures Ok(size, After(size, ops))
  {
    if ops != [] {
      EveryRunKeepsPolicies(size, ops[..|ops| - 1]);
      EveryWriteKeepsPolicies(size, After(size, ops[..|ops| - 1]), ops[|ops| - 1]);
    }
  }

  /** After any run, a policy's detectors exist, and their programs times its bytes stay
      within the budget. */
  lemma PoliciesStayAffordable(size: Compiler, ops: seq<Op>, id: string)
    requires id in After(size, ops).policies
    ensures var db := After(size, ops);
            var p := db.policies[id];
            && (forall s :: Own(s) in p.detectors ==> exists d :: d in db.detectors && db.detectors[d].name == s)
            && Total(size, db, Once(p.detectors)) * EffectiveMaxBytes(p.maxBytes) <= SCAN_COST_BUDGET
  {
    EveryRunKeepsPolicies(size, ops);
    var db := After(size, ops);
    var p := db.policies[id];
    assert Within(size, db, p);
    OnceIsNamed(p.detectors);
    forall s | Own(s) in p.detectors ensures exists d :: d in db.detectors && db.detectors[d].name == s {
      assert s in Names(p);
      assert db.detectors[db.names[s]].name == s;
    }
    WithinTheLimit(Total(size, db, Once(p.detectors)), EffectiveMaxBytes(p.maxBytes));
  }

  /** A forced delete switches no policy on, leaves alone every policy that did not name the
      detector, and never leaves one it emptied enabled, which would wake every built-in
      detector. */
  lemma ForcedDeleteWakesNothing(size: Compiler, db: Db, id: string, p: string)
    requires id in db.detectors && p in db.policies
    ensures var n := Own(db.detectors[id].name);
            var before, after := db.policies[p], Next(size, db, DeleteDetector(id, true)).0.policies[p];
            && n !in after.detectors && (after.enabled ==> before.enabled)
            && (n !in before.detectors ==> after == before)
            && (n in before.detectors && after.enabled ==> after.detectors != [])
            && (after.enabled == before.enabled
                 || (after.detectors == [] && forall m :: m in before.detectors ==> m == n))
  {
    WithoutLeaves(db.policies[p].detectors, Own(db.detectors[id].name));
  }

  // --- Two edits at once -----------------------------------------------------------------------

  /** The guarantee is for one write after another: an edit does not hold the other detectors
      its policies name, so two edits may each check before the other is stored. */
  function BothStored(db: Db, i: string, d: Detector, j: string, e: Detector): Db {
    WithDetector(WithDetector(db, i, d), j, e)
  }

  /** An edit of a stored detector, which keeps its name, and the check it passed. */
  ghost predicate EditPassed(size: Compiler, db: Db, i: string, d: Detector) {
    i in db.detectors && d.name == db.detectors[i].name && Compiles(size, d.pattern) && PoliciesOk(size, db, i, d)
  }

  /** That is harmless when no policy names both of the detectors. */
  lemma EditsApartKeepPolicies(size: Compiler, db: Db, i: string, d: Detector, j: string, e: Detector)
    requires Ok(size, db) && i != j && EditPassed(size, db, i, d) && EditPassed(size, db, j, e)
    requires forall p :: p in db.policies && Own(d.name) in db.policies[p].detectors ==>
               Own(e.name) !in db.policies[p].detectors
    ensures Ok(size, BothStored(db, i, d, j, e))
  {
    var one, other, after := WithDetector(db, i, d), WithDetector(db, j, e), BothStored(db, i, d, j, e);
    EditIsPriced(size, db, i, d);
    EditIsPriced(size, one, j, e);
    EditIsPriced(size, db, j, e);
    assert Price(size, after, e.name) == Price(size, other, e.name);
    forall p | p in db.policies ensures Within(size, after, db.policies[p]) {
      var policy := db.policies[p];
      assert Within(size, db, policy);
      if Own(d.name) in policy.detectors {
        StillWithin(size, one, after, policy, {e.name});
      } else if Own(e.name) in policy.detectors {
        StillWithin(size, other, after, policy, {d.name});
      } else {
        PricedAlike(size, db, after, policy, {d.name, e.name});
      }
    }
  }

  /** An edit keeps the index, and touches one price. */
  lemma EditIsPriced(size: Compiler, db: Db, i: string, d: Detector)
    requires Indexed(db) && i in db.detectors && d.name == db.detectors[i].name
    ensures Indexed(WithDetector(db, i, d)) && WithDetector(db, i, d).names.Keys == db.names.Keys
    ensures forall s :: s != d.name ==> Price(size, WithDetector(db, i, d), s) == Price(size, db, s)
    ensures Price(size, WithDetector(db, i, d), d.name) == PriceOf(size, d.pattern)
  {
  }

  /** A policy that fits, every mention counted, fits where other detectors differ. */
  lemma StillWithin(size: Compiler, a: Db, b: Db, policy: Policy, others: set<string>)
    requires Names(policy) <= b.names.Keys && Total(size, a, Named(policy.detectors)) <= Limit(policy.maxBytes)
    requires forall s :: s !in others ==> Price(size, a, s) == Price(size, b, s)
    requires forall s :: s in others ==> Own(s) !in policy.detectors
    ensures Within(size, b, policy)
  {
    OnceCostsNoMore(size, a, policy.detectors);
    PricedAlike(size, a, b, policy, others);
  }

  lemma PricedAlike(size: Compiler, a: Db, b: Db, policy: Policy, others: set<string>)
    requires forall s :: s !in others ==> Price(size, a, s) == Price(size, b, s)
    requires forall s :: s in others ==> Own(s) !in policy.detectors
    ensures Total(size, a, Once(policy.detectors)) == Total(size, b, Once(policy.detectors))
  {
    OnceIsNamed(policy.detectors);
    SamePrices(size, a, b, Once(policy.detectors));
  }

  /** Detectors that were accepted cost no more than the most. */
  ghost predicate Sized(size: Compiler, db: Db) {
    forall k :: k in db.detectors ==> PriceOf(size, db.detectors[k].pattern) <= MAX_PROGRAM
  }

  /** At these sizes the policy fits, both edits pass, and together they put it over. */
  ghost predicate Exceeds(size: Compiler, db: Db, i: string, d: Detector, j: string, e: Detector, p: string) {
    && p in db.policies && Sized(size, db) && Ok(size, db) && EditPassed(size, db, i, d) && EditPassed(size, db, j, e)
    && !Within(size, BothStored(db, i, d, j, e), db.policies[p])
  }

  /** Two edits with new patterns of detectors that one policy names, with others perhaps:
      each once, and no other policy names any of them. No two stored patterns are the same. */
  ghost predicate Overlap(db: Db, i: string, d: Detector, j: string, e: Detector, p: string) {
    && Indexed(db) && (forall q :: q in db.policies ==> Names(db.policies[q]) <= db.names.Keys)
    && i in db.detectors && j in db.detectors && i != j
    && d.name == db.detectors[i].name && e.name == db.detectors[j].name
    && (forall k :: k in db.detectors ==> db.detectors[k].pattern !in {d.pattern, e.pattern})
    && (forall k, l :: k in db.detectors && l in db.detectors && k != l ==>
          db.detectors[k].pattern != db.detectors[l].pattern)
    && p in db.policies && Own(d.name) in db.policies[p].detectors && Own(e.name) in db.policies[p].detectors
    && Named(db.policies[p].detectors) == Once(db.policies[p].detectors)
    && |Once(db.policies[p].detectors)| <= MAX_DETECTORS
    && forall q :: q in db.policies && q != p ==> Names(db.policies[q]) !! Names(db.policies[p])
  }

  /** Such edits can exceed the policy's budget, at some sizes, exactly when it allows any
      program at all and not as many of the largest as it names. */
  lemma EditsTogetherExceedExactlyWhen(db: Db, i: string, d: Detector, j: string, e: Detector, p: string)
    requires Overlap(db, i, d, j, e, p)
    ensures (exists size: Compiler :: Exceeds(size, db, i, d, j, e, p)) <==>
              1 <= Limit(db.policies[p].maxBytes) < MAX_PROGRAM * |Once(db.policies[p].detectors)|
  {
    var limit, k := Limit(db.policies[p].maxBytes), |Once(db.policies[p].detectors)|;
    if 1 <= limit < MAX_PROGRAM * k {
      OnceIsNamed(db.policies[p].detectors);
      TwoAtLeast(Once(db.policies[p].detectors), d.name, e.name);
      var n, q := SizesFor(limit, k - 2);
      var size := SizesOf({d.pattern, e.pattern}, n, OtherPatterns(db, i, j, db.policies[p]), q);
      PricesAre(db, i, d, j, e, p, n, q);
      AtTheseSizes(size, db, i, d, j, e, p, n, q);
    } else {
      forall size: Compiler ensures !Exceeds(size, db, i, d, j, e, p) {
        NeverExceeds(size, db, i, d, j, e, p);
      }
    }
  }

  // --- sizes at which it goes over ------------------------------------------------------------------

  /** A size for the two edited patterns and one for the m others. */
  lemma SizesFor(limit: nat, m: nat) returns (n: nat, q: nat)
    requires 1 <= limit < MAX_PROGRAM * (m + 2) && m <= MAX_DETECTORS
    ensures n <= MAX_PROGRAM && q <= MAX_PROGRAM && Fits(limit, m, n, q)
  {
    if limit < 2 * MAX_PROGRAM {
      n, q := if limit < MAX_PROGRAM then limit else MAX_PROGRAM, 0;
    } else if MAX_PROGRAM * m < limit {
      var left := limit - MAX_PROGRAM * m;
      n, q := if left < MAX_PROGRAM then left else MAX_PROGRAM, MAX_PROGRAM;
    } else {
      q := (limit - 1) / m;
      n := limit - q * m;
      AsOftenAs(limit - 1, m, MAX_PROGRAM);
    }
  }

  /** With this size one edit fits beside the m others, and two do not. */
  predicate Fits(limit: nat, m: nat, n: nat, q: nat) {
    n + q * m <= limit < 2 * n + q * m
  }

  lemma AsOftenAs(total: nat, m: nat, most: nat)
    requires m > 0 && total < most * m
    ensures var q := total / m; q * m <= total < q * m + m && q < most
  {
    var q := total / m;
    assert total == q * m + total % m;
  }

  /** The patterns of the other detectors a policy names. */
  function OtherPatterns(db: Db, i: string, j: string, p: Policy): set<string> {
    set k | k in db.detectors && k != i && k != j && db.detectors[k].name in Names(p) :: db.detectors[k].pattern
  }

  function SizesOf(edited: set<string>, n: nat, others: set<string>, q: nat): Compiler {
    x => Some(if x in edited then n else if x in others then q else 0)
  }

  /** What each detector costs before the edits: those a policy names but two, and no other. */
  ghost predicate PricedSo(size: Compiler, db: Db, named: set<string>, a: string, b: string, q: nat) {
    forall s :: Price(size, db, s) == if s in named && s != a && s != b then q else 0
  }

  lemma PricesAre(db: Db, i: string, d: Detector, j: string, e: Detector, p: string, n: nat, q: nat)
    requires Overlap(db, i, d, j, e, p)
    ensures PricedSo(SizesOf({d.pattern, e.pattern}, n, OtherPatterns(db, i, j, db.policies[p]), q), db,
                     Names(db.policies[p]), d.name, e.name, q)
  {
    var policy := db.policies[p];
    var others := OtherPatterns(db, i, j, policy);
    var size := SizesOf({d.pattern, e.pattern}, n, others, q);
    forall s ensures Price(size, db, s) == if s in Names(policy) && s != d.name && s != e.name then q else 0 {
      if s in db.names {
        var k := db.names[s];
        assert db.detectors[k].name == s && db.detectors[k].pattern !in {d.pattern, e.pattern};
        assert db.detectors[k].pattern in others <==> k != i && k != j && s in Names(policy);
      }
    }
  }

  lemma AtTheseSizes(size: Compiler, db: Db, i: string, d: Detector, j: string, e: Detector, p: string, n: nat, q: nat)
    requires Overlap(db, i, d, j, e, p) && Sized(size, db) && n <= MAX_PROGRAM
    requires PricedSo(size, db, Names(db.policies[p]), d.name, e.name, q)
    requires size(d.pattern) == size(e.pattern) == Some(n) && |Once(db.policies[p].detectors)| >= 2
    requires Fits(Limit(db.policies[p].maxBytes), |Once(db.policies[p].detectors)| - 2, n, q)
    ensures Exceeds(size, db, i, d, j, e, p)
  {
    var policy := db.policies[p];
    NamedByOneOnly(db, i, d, j, e, p);
    FitsBefore(size, db, policy, d.name, e.name, n, q);
    OthersAreFree(size, db, p);
    OneEditPasses(size, db, i, d, e.name, p, n, q);
    OneEditPasses(size, db, j, e, d.name, p, n, q);
    BothGoOver(size, db, i, d, j, e, policy, n, q);
  }

  lemma NamedByOneOnly(db: Db, i: string, d: Detector, j: string, e: Detector, p: string)
    requires Overlap(db, i, d, j, e, p)
    ensures d.name != e.name && d.name in Names(db.policies[p]) && e.name in Names(db.policies[p])
    ensures forall r :: r in db.policies && r != p ==>
              Own(d.name) !in db.policies[r].detectors && Own(e.name) !in db.policies[r].detectors
  {
    OnceIsNamed(db.policies[p].detectors);
    forall r | r in db.policies && r != p
      ensures Own(d.name) !in db.policies[r].detectors && Own(e.name) !in db.policies[r].detectors
    {
      OnceIsNamed(db.policies[r].detectors);
      assert d.name !in Names(db.policies[r]) && e.name !in Names(db.policies[r]);
    }
  }

  lemma FitsBefore(size: Compiler, db: Db, policy: Policy, a: string, b: string, n: nat, q: nat)
    requires PricedSo(size, db, Names(policy), a, b, q) && a != b && a in Names(policy) && b in Names(policy)
    requires Names(policy) <= db.names.Keys && |Once(policy.detectors)| >= 2
    requires Fits(Limit(policy.maxBytes), |Once(policy.detectors)| - 2, n, q)
    ensures Within(size, db, policy)
  {
    TotalIs(size, db, policy, a, 0, b, 0, q);
  }

  lemma OneEditPasses(size: Compiler, db: Db, i: string, d: Detector, other: string, p: string, n: nat, q: nat)
    requires Indexed(db) && i in db.detectors && d.name == db.detectors[i].name && p in db.policies
    requires d.name != other && d.name in Names(db.policies[p]) && other in Names(db.policies[p])
    requires PricedSo(size, db, Names(db.policies[p]), d.name, other, q) && size(d.pattern) == Some(n)
             && n <= MAX_PROGRAM
    requires |Once(db.policies[p].detectors)| >= 2
    requires Fits(Limit(db.policies[p].maxBytes), |Once(db.policies[p].detectors)| - 2, n, q)
    requires Named(db.policies[p].detectors) == Once(db.policies[p].detectors)
    requires forall r :: r in db.policies && r != p ==> Own(d.name) !in db.policies[r].detectors
    ensures EditPassed(size, db, i, d)
  {
    EditIsPriced(size, db, i, d);
    TotalIs(size, WithDetector(db, i, d), db.policies[p], d.name, n, other, 0, q);
  }

  lemma BothGoOver(size: Compiler, db: Db, i: string, d: Detector, j: string, e: Detector, policy: Policy, n: nat,
                   q: nat)
    requires Indexed(db) && i in db.detectors && j in db.detectors && i != j
    requires d.name == db.detectors[i].name && e.name == db.detectors[j].name
    requires d.name in Names(policy) && e.name in Names(policy) && size(d.pattern) == size(e.pattern) == Some(n)
    requires PricedSo(size, db, Names(policy), d.name, e.name, q) && |Once(policy.detectors)| >= 2
    requires Fits(Limit(policy.maxBytes), |Once(policy.detectors)| - 2, n, q)
    ensures !Within(size, BothStored(db, i, d, j, e), policy)
  {
    EditIsPriced(size, db, i, d);
    EditIsPriced(size, WithDetector(db, i, d), j, e);
    TotalIs(size, BothStored(db, i, d, j, e), policy, d.name, n, e.name, n, q);
  }

  /** What a policy costs when two of its detectors have their own price and the others one. */
  lemma TotalIs(size: Compiler, db: Db, policy: Policy, a: string, x: nat, b: string, y: nat, q: nat)
    requires a != b && a in Names(policy) && b in Names(policy)
    requires forall s :: s in Names(policy) ==> Price(size, db, s) == if s == a then x else if s == b then y else q
    ensures |Once(policy.detectors)| >= 2
    ensures Total(size, db, Once(policy.detectors)) == q * (|Once(policy.detectors)| - 2) + x + y
  {
    var want := Once(policy.detectors);
    OnceIsDistinct(policy.detectors);
    CountedApart(want, a, b);
    PaidOnce(want, a, x);
    PaidOnce(want, b, y);
    assert OthersIn(want, a, b) == |want| - 2;
    forall s | s in want ensures Price(size, db, s) == if s == a then x else if s == b then y else q {
      assert s in Names(policy);
    }
    TotalOfThree(size, db, want, a, x, b, y, q);
  }

  lemma TwoAtLeast(slugs: seq<string>, a: string, b: string)
    requires a != b && a in slugs && b in slugs
    ensures |slugs| >= 2
  {
  }

  /** The policies that name none of these detectors pay nothing. */
  lemma OthersAreFree(size: Compiler, db: Db, p: string)
    requires p in db.policies && Indexed(db)
             && (forall q :: q in db.policies ==> Names(db.policies[q]) <= db.names.Keys)
    requires forall s :: s !in Names(db.policies[p]) ==> Price(size, db, s) == 0
    requires forall q :: q in db.policies && q != p ==> Names(db.policies[q]) !! Names(db.policies[p])
    requires Within(size, db, db.policies[p])
    ensures Ok(size, db)
  {
    forall r | r in db.policies && r != p ensures Within(size, db, db.policies[r]) {
      var want := Once(db.policies[r].detectors);
      forall s | s in want ensures Price(size, db, s) == 0 {
        assert s in Names(db.policies[r]);
      }
      FreeInAll(size, db, want);
    }
  }

  lemma {:induction false} FreeInAll(size: Compiler, db: Db, slugs: seq<string>)
    ensures Total(size, db, slugs) == 0 <==> forall s :: s in slugs ==> Price(size, db, s) == 0
  {
    if slugs != [] {
      var rest, last := slugs[..|slugs| - 1], slugs[|slugs| - 1];
      FreeInAll(size, db, rest);
      assert slugs == rest + [last];
    }
  }

  ghost predicate Distinct(slugs: seq<string>) {
    forall x, y :: 0 <= x < y < |slugs| ==> slugs[x] != slugs[y]
  }

  lemma {:induction false} OnceIsDistinct(names: seq<Name>)
    ensures Distinct(Once(names))
  {
    if names != [] {
      OnceIsDistinct(names[..|names| - 1]);
    }
  }

  function OthersIn(slugs: seq<string>, a: string, b: string): nat {
    if slugs == [] then 0
    else OthersIn(slugs[..|slugs| - 1], a, b) + if slugs[|slugs| - 1] == a || slugs[|slugs| - 1] == b then 0 else 1
  }

  lemma {:induction false} CountedApart(slugs: seq<string>, a: string, b: string)
    requires Distinct(slugs) && a != b
    ensures |slugs| == OthersIn(slugs, a, b) + (if a in slugs then 1 else 0) + if b in slugs then 1 else 0
  {
    if slugs != [] {
      var rest, last := slugs[..|slugs| - 1], slugs[|slugs| - 1];
      CountedApart(rest, a, b);
      assert slugs == rest + [last] && last !in rest;
    }
  }

  function Paid(slugs: seq<string>, a: string, x: nat): nat {
    if slugs == [] then 0 else Paid(slugs[..|slugs| - 1], a, x) + if slugs[|slugs| - 1] == a then x else 0
  }

  lemma {:induction false} PaidOnce(slugs: seq<string>, a: string, x: nat)
    requires Distinct(slugs)
    ensures Paid(slugs, a, x) == if a in slugs then x else 0
  {
    if slugs != [] {
      var rest, last := slugs[..|slugs| - 1], slugs[|slugs| - 1];
      assert slugs == rest + [last] && last !in rest;
      PaidOnce(rest, a, x);
    }
  }

  lemma {:induction false} TotalOfThree(size: Compiler, db: Db, slugs: seq<string>, a: string, x: nat, b: string,
                                        y: nat, q: nat)
    requires a != b
    requires forall s :: s in slugs ==> Price(size, db, s) == if s == a then x else if s == b then y else q
    ensures Total(size, db, slugs) == q * OthersIn(slugs, a, b) + Paid(slugs, a, x) + Paid(slugs, b, y)
  {
    if slugs != [] {
      var rest := slugs[..|slugs| - 1];
      assert slugs[|slugs| - 1] in slugs;
      TotalOfThree(size, db, rest, a, x, b, y, q);
      OnceMore(q, OthersIn(rest, a, b));
    }
  }

  lemma OnceMore(n: nat, k: nat)
    ensures n * (k + 1) == n * k + n
  {
  }

  // --- and none otherwise -------------------------------------------------------------------------------

  lemma {:induction false} NoDearerThan(size: Compiler, db: Db, slugs: seq<string>, most: nat)
    requires forall s :: s in slugs ==> Price(size, db, s) <= most
    ensures Total(size, db, slugs) <= most * |slugs|
  {
    if slugs != [] {
      var rest := slugs[..|slugs| - 1];
      assert slugs == rest + [slugs[|slugs| - 1]];
      NoDearerThan(size, db, rest, most);
      OnceMore(most, |rest|);
    }
  }

  lemma NeverExceeds(size: Compiler, db: Db, i: string, d: Detector, j: string, e: Detector, p: string)
    requires Overlap(db, i, d, j, e, p)
    requires var limit, k := Limit(db.policies[p].maxBytes), |Once(db.policies[p].detectors)|;
             limit == 0 || limit >= MAX_PROGRAM * k
    ensures !Exceeds(size, db, i, d, j, e, p)
  {
    if Sized(size, db) && Ok(size, db) && EditPassed(size, db, i, d) && EditPassed(size, db, j, e) {
      var policy := db.policies[p];
      NamedByOneOnly(db, i, d, j, e, p);
      assert Within(size, db, policy);
      if Limit(policy.maxBytes) == 0 {
        AllFree(size, db, i, d, j, e, Once(policy.detectors));
      } else {
        NoneIsTooDear(size, db, i, d, j, e, policy);
      }
      assert BothStored(db, i, d, j, e).names.Keys == db.names.Keys;
    }
  }

  lemma NoneIsTooDear(size: Compiler, db: Db, i: string, d: Detector, j: string, e: Detector, policy: Policy)
    requires Indexed(db) && Sized(size, db) && i in db.detectors && j in db.detectors
    requires d.name == db.detectors[i].name && e.name == db.detectors[j].name && Names(policy) <= db.names.Keys
    requires Compiles(size, d.pattern) && Compiles(size, e.pattern)
    ensures Total(size, BothStored(db, i, d, j, e), Once(policy.detectors)) <= MAX_PROGRAM * |Once(policy.detectors)|
  {
    EditIsPriced(size, db, i, d);
    EditIsPriced(size, WithDetector(db, i, d), j, e);
    forall s | s in Once(policy.detectors) ensures Price(size, BothStored(db, i, d, j, e), s) <= MAX_PROGRAM {
      assert s in Names(policy);
    }
    NoDearerThan(size, BothStored(db, i, d, j, e), Once(policy.detectors), MAX_PROGRAM);
  }

  lemma AllFree(size: Compiler, db: Db, i: string, d: Detector, j: string, e: Detector, want: seq<string>)
    requires Indexed(db) && i in db.detectors && j in db.detectors && i != j
    requires d.name == db.detectors[i].name && e.name == db.detectors[j].name
    requires Total(size, WithDetector(db, i, d), want) == 0 && Total(size, WithDetector(db, j, e), want) == 0
    ensures Total(size, BothStored(db, i, d, j, e), want) == 0
  {
    EditIsPriced(size, db, i, d);
    EditIsPriced(size, db, j, e);
    EditIsPriced(size, WithDetector(db, i, d), j, e);
    FreeInAll(size, WithDetector(db, i, d), want);
    FreeInAll(size, WithDetector(db, j, e), want);
    FreeInAll(size, BothStored(db, i, d, j, e), want);
  }
}
