/** Bringing a connector installed from the catalog up to the adapter the running server
    carries: what a re-sync plans, what applying it does, and that it settles. */
module Resync {
  import opened Collections
  import A = Approvals

  /** A definition by its top-level fields: those that decide what a call does, and the
      rest. */
  datatype Def = Def(calls: map<string, string>, rest: map<string, string>)

  datatype Source = FromCatalog | FromImport | Custom

  datatype Tool = Tool(id: string, def: Def, enabled: bool, source: Source, edited: bool, version: nat)

  /** A connector's tools by name; a name is used once. */
  type Tools = map<string, Tool>

  datatype Bundled = Bundled(name: string, def: Def)

  /** The adapter the server carries, and the hashes it had before. */
  datatype Adapter = Adapter(tools: seq<Bundled>, instructions: string, hash: string, previous: set<string>)

  datatype Connector = Connector(slug: string, hash: string, instructions: string, version: nat)

  // --- The plan ------------------------------------------------------------------------------

  datatype Reason = Edited | IsCustom
  datatype Change = Add | Update | Remove
  datatype Skip = Skip(id: string, reason: Reason, change: Change)

  /** What a re-sync would do, by tool name. */
  datatype Plan = Plan(add: map<string, Def>, update: map<string, Def>, remove: set<string>, skipped: map<string, Skip>,
                       relabel: set<string>, instructions: Option<string>)

  predicate Distinct(bundle: seq<Bundled>) {
    forall i, j :: 0 <= i < j < |bundle| ==> bundle[i].name != bundle[j].name
  }

  /** The bundled definitions by name. */
  function Defs(bundle: seq<Bundled>): (m: map<string, Def>)
    ensures forall n :: n in m <==> exists i :: 0 <= i < |bundle| && bundle[i].name == n
  {
    if bundle == [] then map[]
    else
      var last := bundle[|bundle| - 1];
      Defs(bundle[..|bundle| - 1])[last.name := last.def]
  }

  /** Somebody's own: made in the editor, or edited by hand. */
  function SkipReason(t: Tool): Option<Reason> {
    if t.source == Custom then Some(IsCustom) else if t.edited then Some(Edited) else None
  }

  /** The fields in which two definitions differ. */
  function Changes(a: Def, b: Def): set<string> {
    Differing(a.calls, b.calls) + Differing(a.rest, b.rest)
  }

  function Differing(a: map<string, string>, b: map<string, string>): set<string> {
    set k | k in a.Keys + b.Keys && !(k in a && k in b && a[k] == b[k])
  }

  predicate BehaviourChanged(a: Def, b: Def) {
    a.calls != b.calls
  }

  predicate Outdated(c: Connector, a: Adapter) {
    c.hash != "" && c.hash != a.hash && c.hash in a.previous
  }

  predicate Empty(p: Plan) {
    p.add == map[] && p.update == map[] && p.remove == {} && p.relabel == {} && p.instructions.None?
  }

  /** What becomes of a tool the bundle defines as d. */
  predicate Differs(t: Tool, d: Def) {
    t.def != d
  }

  function SkipOf(t: Tool, change: Change): Skip
    requires SkipReason(t).Some?
  {
    Skip(t.id, SkipReason(t).value, change)
  }

  type DefMap = map<string, Def>

  function ToAdd(tools: Tools, defs: DefMap): map<string, Def> {
    map n | n in defs && n !in tools :: defs[n]
  }

  function ToUpdate(tools: Tools, defs: DefMap): map<string, Def> {
    map n | n in defs && n in tools && Differs(tools[n], defs[n]) && SkipReason(tools[n]).None? :: defs[n]
  }

  function ToRelabel(tools: Tools, defs: DefMap): set<string> {
    set n | n in defs && n in tools && tools[n].source == FromImport && !tools[n].edited
  }

  /** Of the tools the bundle has, those a person owns and it would change. */
  function Kept(tools: Tools, defs: DefMap): map<string, Skip> {
    map n | n in defs && n in tools && Differs(tools[n], defs[n]) && SkipReason(tools[n]).Some?
          :: SkipOf(tools[n], Unmade(tools[n]))
  }

  /** The change a person's tool keeps the bundle from making. */
  function Unmade(t: Tool): Change {
    if t.source.Custom? then Add else Update
  }

  /** Of some tools the bundle does not have: those to go, and those edited by hand. */
  function ToRemove(tools: Tools, defs: DefMap, names: set<string>): set<string> {
    set n | n in names && n in tools && n !in defs && SkipReason(tools[n]).None?
  }

  function Orphaned(tools: Tools, defs: DefMap, names: set<string>): map<string, Skip> {
    map n | n in names && n in tools && n !in defs && SkipReason(tools[n]) == Some(Edited) :: SkipOf(tools[n], Remove)
  }

  /** The plan, tool by tool. */
  function PlanOf(c: Connector, tools: Tools, a: Adapter): Plan {
    var defs := Defs(a.tools);
    Plan(ToAdd(tools, defs), ToUpdate(tools, defs), ToRemove(tools, defs, tools.Keys),
         Kept(tools, defs) + Orphaned(tools, defs, tools.Keys), ToRelabel(tools, defs),
         if c.instructions != a.instructions then Some(a.instructions) else None)
  }

  lemma NextDef(bundle: seq<Bundled>, i: nat)
    requires Distinct(bundle) && i < |bundle|
    ensures bundle[i].name !in Defs(bundle[..i])
    ensures Defs(bundle[..i + 1]) == Defs(bundle[..i])[bundle[i].name := bundle[i].def]
  {
    assert bundle[..i + 1][..i] == bundle[..i];
  }

  /** One bundled tool more. */
  lemma NextBundled(tools: Tools, defs: DefMap, n: string, d: Def)
    requires n !in defs
    ensures var defs' := defs[n := d];
            && ToAdd(tools, defs') == (if n in tools then ToAdd(tools, defs) else ToAdd(tools, defs)[n := d])
            && ToUpdate(tools, defs') == (if n in tools && Differs(tools[n], d) && SkipReason(tools[n]).None?
                                          then ToUpdate(tools, defs)[n := d] else ToUpdate(tools, defs))
  {
  }

  lemma NextOwned(tools: Tools, defs: DefMap, n: string, d: Def)
    requires n !in defs
    ensures var defs' := defs[n := d];
            && ToRelabel(tools, defs') == (if n in tools && tools[n].source == FromImport && !tools[n].edited
                                           then ToRelabel(tools, defs) + {n} else ToRelabel(tools, defs))
            && Kept(tools, defs') == (if n in tools && Differs(tools[n], d) && SkipReason(tools[n]).Some?
                                      then Kept(tools, defs)[n := SkipOf(tools[n], Unmade(tools[n]))]
                                      else Kept(tools, defs))
  {
  }

  /** The comparison: the bundle's tools in turn, then the stored ones. */
  method MakePlan(c: Connector, tools: Tools, a: Adapter) returns (p: Plan)
    requires Distinct(a.tools)
    ensures p == PlanOf(c, tools, a)
  {
    var add, update, relabel, skipped := CompareBundle(tools, a.tools);
    var inBundle := Defs(a.tools);
    var remove, orphaned := CompareStored(tools, inBundle);
    p := Plan(add, update, remove, skipped + orphaned, relabel, None);
    if c.instructions != a.instructions {
      p := p.(instructions := Some(a.instructions));
    }
  }

  method CompareBundle(tools: Tools, bundle: seq<Bundled>)
    returns (add: map<string, Def>, update: map<string, Def>, relabel: set<string>, skipped: map<string, Skip>)
    requires Distinct(bundle)
    ensures add == ToAdd(tools, Defs(bundle)) && update == ToUpdate(tools, Defs(bundle))
    ensures relabel == ToRelabel(tools, Defs(bundle)) && skipped == Kept(tools, Defs(bundle))
  {
    add, update, relabel, skipped := map[], map[], {}, map[];
    for i := 0 to |bundle|
      invariant var defs := Defs(bundle[..i]);
                add == ToAdd(tools, defs) && update == ToUpdate(tools, defs)
                && relabel == ToRelabel(tools, defs) && skipped == Kept(tools, defs)
    {
      var b := bundle[i];
      NextDef(bundle, i);
      NextBundled(tools, Defs(bundle[..i]), b.name, b.def);
      NextOwned(tools, Defs(bundle[..i]), b.name, b.def);
      if b.name !in tools {
        add := add[b.name := b.def];
      } else {
        var st := tools[b.name];
        var changed := Changes(st.def, b.def);
        NoChangesIsEqual(st.def, b.def);
        if st.source == FromImport && !st.edited {
          relabel := relabel + {b.name};
        }
        if changed != {} {
          match SkipReason(st) {
            case Some(IsCustom) => skipped := skipped[b.name := Skip(st.id, IsCustom, Add)];
            case Some(Edited) => skipped := skipped[b.name := Skip(st.id, Edited, Update)];
            case None => update := update[b.name := b.def];
          }
        }
      }
    }
    assert bundle[..|bundle|] == bundle;
  }

  method CompareStored(tools: Tools, inBundle: DefMap) returns (remove: set<string>, skipped: map<string, Skip>)
    ensures remove == ToRemove(tools, inBundle, tools.Keys) && skipped == Orphaned(tools, inBundle, tools.Keys)
  {
    remove, skipped := {}, map[];
    var rest := tools.Keys;
    while rest != {}
      invariant rest <= tools.Keys
      invariant remove == ToRemove(tools, inBundle, tools.Keys - rest)
      invariant skipped == Orphaned(tools, inBundle, tools.Keys - rest)
      decreases |rest|
    {
      var n := Any(rest);
      NextStored(tools, inBundle, tools.Keys - rest, n);
      assert tools.Keys - (rest - {n}) == (tools.Keys - rest) + {n};
      rest := rest - {n};
      if n !in inBundle {
        var reason := SkipReason(tools[n]);
        if reason == Some(Edited) {
          skipped := skipped[n := Skip(tools[n].id, Edited, Remove)];
        } else if reason == None {
          remove := remove + {n};
        }
      }
    }
    assert tools.Keys - {} == tools.Keys;
  }

  lemma NextStored(tools: Tools, defs: DefMap, names: set<string>, n: string)
    requires n in tools
    ensures ToRemove(tools, defs, names + {n})
         == ToRemove(tools, defs, names) + if n !in defs && SkipReason(tools[n]).None? then {n} else {}
    ensures Orphaned(tools, defs, names + {n})
         == if n !in defs && SkipReason(tools[n]) == Some(Edited)
            then Orphaned(tools, defs, names)[n := SkipOf(tools[n], Remove)]
            else Orphaned(tools, defs, names)
  {
  }

  lemma NoChangesIsEqual(a: Def, b: Def)
    ensures Changes(a, b) == {} <==> a == b
  {
    if Changes(a, b) == {} {
      SameMaps(a.calls, b.calls);
      SameMaps(a.rest, b.rest);
    }
  }

  lemma SameMaps(a: map<string, string>, b: map<string, string>)
    requires Differing(a, b) == {}
    ensures a == b
  {
    forall k ensures (k in a <==> k in b) && (k in a ==> a[k] == b[k]) {
      assert k !in Differing(a, b);
    }
  }

  // --- Applying it ------------------------------------------------------------------------------

  /** The tools after a plan. Added tools get the ids they are given. */
  function Applied(tools: Tools, p: Plan, ids: map<string, string>): Tools
    requires p.add.Keys <= ids.Keys
  {
    map n | n in tools.Keys + p.add.Keys && n !in p.remove
      :: if n in p.add then NewTool(ids[n], p.add[n]) else Rewritten(tools, p, n)
  }

  function Rewritten(tools: Tools, p: Plan, n: string): Tool
    requires n in tools
  {
    var t := tools[n];
    if n in p.update then t.(def := p.update[n], source := FromCatalog, version := t.version + 1)
    else if n in p.relabel then t.(source := FromCatalog)
    else t
  }

  function AfterResync(c: Connector, p: Plan, a: Adapter): Connector {
    c.(instructions := a.instructions, hash := a.hash, version := c.version + 1)
  }

  /** A tool somebody made or edited is never touched. */
  lemma HandOwnedToolsAreUntouched(c: Connector, tools: Tools, a: Adapter, ids: map<string, string>, n: string)
    requires PlanOf(c, tools, a).add.Keys <= ids.Keys && n in tools && (tools[n].source == Custom || tools[n].edited)
    ensures var after := Applied(tools, PlanOf(c, tools, a), ids);
            n in after && after[n] == tools[n]
  {
  }

  /** And every other name ends up exactly as the bundle has it. */
  lemma TheRestIsTheBundles(c: Connector, tools: Tools, a: Adapter, ids: map<string, string>, n: string)
    requires PlanOf(c, tools, a).add.Keys <= ids.Keys && (n in tools ==> tools[n].source != Custom && !tools[n].edited)
    ensures var after, defs := Applied(tools, PlanOf(c, tools, a), ids), Defs(a.tools);
            (n in after <==> n in defs)
            && (n in after ==> after[n].def == defs[n] && after[n].source == FromCatalog && !after[n].edited
                               && after[n].enabled == (n in tools ==> tools[n].enabled)
                               && after[n].id == (if n in tools then tools[n].id else ids[n])
                               && after[n].version == (if n !in tools then 1
                                                       else if tools[n].def != defs[n] then tools[n].version + 1
                                                       else tools[n].version))
  {
  }

  /** What a name is after a re-sync: its owner's, or the bundle's. */
  ghost predicate Settled(tools: Tools, defs: DefMap, after: Tools, n: string) {
    if n in tools && SkipReason(tools[n]).Some? then n in after && after[n] == tools[n]
    else (n in after <==> n in defs)
         && (n in after ==> after[n].def == defs[n] && after[n].source == FromCatalog && !after[n].edited)
  }

  lemma EveryNameSettles(c: Connector, tools: Tools, a: Adapter, ids: map<string, string>)
    requires PlanOf(c, tools, a).add.Keys <= ids.Keys
    ensures var after := Applied(tools, PlanOf(c, tools, a), ids);
            forall n :: Settled(tools, Defs(a.tools), after, n)
  {
    var after := Applied(tools, PlanOf(c, tools, a), ids);
    forall n ensures Settled(tools, Defs(a.tools), after, n) {
      if n in tools && SkipReason(tools[n]).Some? {
        HandOwnedToolsAreUntouched(c, tools, a, ids, n);
      } else {
        TheRestIsTheBundles(c, tools, a, ids, n);
      }
    }
  }

  lemma NothingLeftToDo(tools: Tools, defs: DefMap, after: Tools)
    requires forall n :: Settled(tools, defs, after, n)
    ensures ToAdd(after, defs) == map[] && ToUpdate(after, defs) == map[]
    ensures ToRelabel(after, defs) == {} && ToRemove(after, defs, after.Keys) == {}
  {
    forall n ensures n !in ToAdd(after, defs) && n !in ToUpdate(after, defs) && n !in ToRelabel(after, defs)
                     && n !in ToRemove(after, defs, after.Keys) {
      assert Settled(tools, defs, after, n);
    }
  }

  lemma SameToolsLeft(tools: Tools, defs: DefMap, after: Tools)
    requires forall n :: Settled(tools, defs, after, n)
    ensures Kept(after, defs) == Kept(tools, defs)
    ensures Orphaned(after, defs, after.Keys) == Orphaned(tools, defs, tools.Keys)
  {
    forall n ensures n in Kept(after, defs) <==> n in Kept(tools, defs) {
      assert Settled(tools, defs, after, n);
    }
    forall n ensures n in Orphaned(after, defs, after.Keys) <==> n in Orphaned(tools, defs, tools.Keys) {
      assert Settled(tools, defs, after, n);
    }
    forall n | n in Kept(after, defs) ensures Kept(after, defs)[n] == Kept(tools, defs)[n] {
      assert Settled(tools, defs, after, n);
    }
    forall n | n in Orphaned(after, defs, after.Keys)
      ensures Orphaned(after, defs, after.Keys)[n] == Orphaned(tools, defs, tools.Keys)[n]
    {
      assert Settled(tools, defs, after, n);
    }
  }

  /** Planning again after a plan was applied finds nothing to do, and the same tools left
      to their owners. */
  lemma ResyncConverges(c: Connector, tools: Tools, a: Adapter, ids: map<string, string>)
    requires PlanOf(c, tools, a).add.Keys <= ids.Keys
    ensures var p := PlanOf(c, tools, a);
            var c' := AfterResync(c, p, a);
            var again := PlanOf(c', Applied(tools, p, ids), a);
            Empty(again) && !Outdated(c', a) && again.skipped == p.skipped
  {
    var p := PlanOf(c, tools, a);
    EveryNameSettles(c, tools, a, ids);
    NothingLeftToDo(tools, Defs(a.tools), Applied(tools, p, ids));
    SameToolsLeft(tools, Defs(a.tools), Applied(tools, p, ids));
  }

  /** A name is in one class at most; what is relabelled is neither added, removed nor
      left to an owner. */
  lemma ClassesAreDisjoint(c: Connector, tools: Tools, a: Adapter)
    ensures var p := PlanOf(c, tools, a);
            && p.add.Keys !! p.update.Keys !! p.remove !! p.skipped.Keys
            && p.relabel !! p.add.Keys + p.remove + p.skipped.Keys
  {
  }

  // --- Counting -------------------------------------------------------------------------------------

  function Enabled(tools: Tools): set<string> {
    set n | n in tools && tools[n].enabled
  }

  /** The count recorded in the connector's revision is the count there is. */
  lemma ToolCountIsRight(c: Connector, tools: Tools, a: Adapter, ids: map<string, string>)
    requires PlanOf(c, tools, a).add.Keys <= ids.Keys
    ensures var p := PlanOf(c, tools, a);
            |Enabled(Applied(tools, p, ids))|
            == |Enabled(tools)| + |p.add| - |set n | n in p.remove && tools[n].enabled|
  {
    var p := PlanOf(c, tools, a);
    var gone := set n | n in p.remove && tools[n].enabled;
    EnabledAfter(tools, p, ids);
    CountAfter(Enabled(tools), gone, p.add.Keys);
    assert |p.add.Keys| == |p.add|;
  }

  lemma CountAfter(s: set<string>, gone: set<string>, more: set<string>)
    requires gone <= s && s !! more
    ensures |s - gone + more| == |s| + |more| - |gone|
  {
    assert |s - gone + more| == |s - gone| + |more|;
  }

  lemma EnabledAfter(tools: Tools, p: Plan, ids: map<string, string>)
    requires p.add.Keys <= ids.Keys && p.add.Keys !! tools.Keys && p.remove <= tools.Keys
    ensures Enabled(Applied(tools, p, ids)) == Enabled(tools) - (set n | n in p.remove && tools[n].enabled) + p.add.Keys
  {
    var after := Applied(tools, p, ids);
    forall n ensures n in after && after[n].enabled <==>
             n in p.add || (n in tools && tools[n].enabled && n !in p.remove) {
    }
  }

  // --- The transaction ------------------------------------------------------------------------------

  const REMOVED := "the tool was removed from the catalog adapter"

  /** Every open request for one of these tools is cancelled. */
  function CancelledFor(requests: seq<A.Request>, ids: set<string>, why: string, now: int): (r: seq<A.Request>)
    ensures |r| == |requests|
    ensures forall i :: 0 <= i < |r| ==>
              r[i] == if requests[i].tool in ids then A.Withdrawn(requests[i], requests[i].tool, why, now)
              else requests[i]
  {
    seq(|requests|, i requires 0 <= i < |requests| =>
      if requests[i].tool in ids then A.Withdrawn(requests[i], requests[i].tool, why, now) else requests[i])
  }

  /** The updated tools that now do something else. */
  function Changed(tools: Tools, p: Plan, names: set<string>): set<string>
    requires p.update.Keys <= tools.Keys
  {
    set n | n in names && n in p.update && BehaviourChanged(tools[n].def, p.update[n]) :: tools[n].id
  }

  function Removed(tools: Tools, p: Plan): set<string>
    requires p.remove <= tools.Keys
  {
    set n | n in p.remove :: tools[n].id
  }

  /** The rows a re-sync writes: the connector, its tools, the requests for approval, and the
      access rules, each of which names a tool. */
  datatype Rows = Rows(connector: Connector, tools: Tools, requests: seq<A.Request>, rules: set<(string, string)>)

  function Written(db: Rows, a: Adapter, ids: map<string, string>, now: int): Rows
    requires Defs(a.tools).Keys <= ids.Keys
  {
    var p := PlanOf(db.connector, db.tools, a);
    var gone := Removed(db.tools, p);
    Rows(AfterResync(db.connector, p, a), Applied(db.tools, p, ids),
         CancelledFor(CancelledFor(db.requests, Changed(db.tools, p, p.update.Keys), A.CHANGED, now), gone, REMOVED,
           now),
         set r | r in db.rules && r.0 !in gone)
  }

  datatype Outcome = Stale | NotFromCatalog | NotInCatalog | NotBehind | Refused | UpToDate | Done(plan: Plan)

  /** What an attempt comes to. The caller gives the hash and the version that were
      reviewed, and whether the plan was authorised. */
  function OutcomeOf(c: Connector, tools: Tools, bundled: Option<Adapter>, hash: string, version: nat,
                     authorized: bool): Outcome {
    if version == 0 || c.version != version then Stale
    else if c.slug == "" then NotFromCatalog
    else if bundled.None? then NotInCatalog
    else
      var a := bundled.value;
      var p := PlanOf(c, tools, a);
      if c.hash != a.hash && !Outdated(c, a) then NotBehind
      else if a.hash != hash then Stale
      else if Empty(p) && !Outdated(c, a) then UpToDate
      else if !authorized then Refused
      else Done(p)
  }

  /** The stored connector. */
  class Store {
    var connector: Connector
    var tools: Tools
    var requests: seq<A.Request>
    var rules: set<(string, string)>

    constructor (db: Rows)
      ensures Contents() == db
    {
      connector, tools, requests, rules := db.connector, db.tools, db.requests, db.rules;
    }

    function Contents(): Rows
      reads this
    {
      Rows(connector, tools, requests, rules)
    }

    /** Applies a re-sync, or changes nothing. Every name the bundle has comes with an id
        for the case that it is new. */
    method ApplyResync(bundled: Option<Adapter>, hash: string, version: nat, authorized: bool,
                       ids: map<string, string>, now: int)
      returns (o: Outcome)
      requires bundled.Some? ==> Distinct(bundled.value.tools) && Defs(bundled.value.tools).Keys <= ids.Keys
      modifies this
      ensures o == OutcomeOf(old(connector), old(tools), bundled, hash, version, authorized)
      ensures Contents() == if o.Done? then Written(old(Contents()), bundled.value, ids, now) else old(Contents())
      ensures o.Done? ==>
                && authorized && bundled.Some? && bundled.value.hash == hash
                && version != 0 && old(connector).version == version && old(connector).slug != ""
                && (old(connector).hash == hash
                    || (old(connector).hash != "" && old(connector).hash in bundled.value.previous))
                && connector == old(connector).(instructions := bundled.value.instructions, hash := hash,
                                                version := version + 1)
      ensures !authorized || bundled.None? || old(connector).version != version ==> Contents() == old(Contents())
      ensures o == Refused ==> !authorized
    {
      if version == 0 || connector.version != version {
        return Stale;
      }
      if connector.slug == "" {
        return NotFromCatalog;
      }
      if bundled == None {
        return NotInCatalog;
      }
      var a := bundled.value;
      if connector.hash != a.hash && !Outdated(connector, a) {
        return NotBehind;
      }
      var p := MakePlan(connector, tools, a);
      if a.hash != hash {
        return Stale;
      }
      if Empty(p) && !Outdated(connector, a) {
        return UpToDate;
      }
      if !authorized {
        return Refused;
      }
      var rewritten, changed := WriteTools(tools, p, ids);
      var gone := Removed(tools, p);
      connector := connector.(instructions := a.instructions, hash := a.hash, version := connector.version + 1);
      requests := CancelledFor(CancelledFor(requests, changed, A.CHANGED, now), gone, REMOVED, now);
      rules := set r | r in rules && r.0 !in gone;
      tools := rewritten;
      o := Done(p);
    }
  }

  function NewTool(id: string, d: Def): Tool {
    Tool(id, d, true, FromCatalog, false, 1)
  }

  /** The tools with some of the planned ones inserted. */
  function Inserted(tools: Tools, p: Plan, ids: map<string, string>, names: set<string>): Tools
    requires p.add.Keys <= ids.Keys
  {
    tools + map n | n in names && n in p.add :: NewTool(ids[n], p.add[n])
  }

  /** And with some of them rewritten. */
  function Updated(tools: Tools, p: Plan, names: set<string>): Tools {
    map n | n in tools
      :: if n in names && n in p.update then
           tools[n].(def := p.update[n], source := FromCatalog, version := tools[n].version + 1)
         else tools[n]
  }

  method InsertTools(tools: Tools, p: Plan, ids: map<string, string>) returns (m: Tools)
    requires p.add.Keys <= ids.Keys && p.add.Keys !! tools.Keys
    ensures m == Inserted(tools, p, ids, p.add.Keys)
  {
    m := tools;
    var rest := p.add.Keys;
    while rest != {}
      invariant rest <= p.add.Keys
      invariant m == Inserted(tools, p, ids, p.add.Keys - rest)
      decreases |rest|
    {
      var n := Any(rest);
      InsertedNext(tools, p, ids, p.add.Keys - rest, n);
      assert p.add.Keys - (rest - {n}) == (p.add.Keys - rest) + {n};
      m := m[n := NewTool(ids[n], p.add[n])];
      rest := rest - {n};
    }
    assert p.add.Keys - {} == p.add.Keys;
  }

  /** Also says which of them now do something else. */
  method UpdateTools(tools: Tools, p: Plan) returns (m: Tools, changed: set<string>)
    requires p.update.Keys <= tools.Keys
    ensures m == Updated(tools, p, p.update.Keys) && changed == Changed(tools, p, p.update.Keys)
  {
    m, changed := tools, {};
    var rest := p.update.Keys;
    while rest != {}
      invariant rest <= p.update.Keys
      invariant Rewriting(tools, p, rest, m, changed)
      decreases |rest|
    {
      var n := Any(rest);
      RewritingNext(tools, p, rest, n, m, changed);
      var t := m[n];
      m := m[n := t.(def := p.update[n], source := FromCatalog, version := t.version + 1)];
      if BehaviourChanged(t.def, p.update[n]) {
        changed := changed + {t.id};
      }
      rest := rest - {n};
    }
    assert p.update.Keys - {} == p.update.Keys;
  }

  /** Rows are inserted and updated one by one, then deleted and relabelled together. */
  method WriteTools(tools: Tools, p: Plan, ids: map<string, string>) returns (m: Tools, changed: set<string>)
    requires p.add.Keys <= ids.Keys && p.add.Keys !! tools.Keys && p.update.Keys <= tools.Keys && p.remove <= tools.Keys
    requires p.relabel <= tools.Keys
    ensures m == Applied(tools, p, ids) && changed == Changed(tools, p, p.update.Keys)
  {
    var inserted := InsertTools(tools, p, ids);
    m, changed := UpdateTools(inserted, p);
    assert changed == Changed(tools, p, p.update.Keys) by {
      assert forall n | n in p.update :: inserted[n] == tools[n];
    }
    m := m - p.remove;
    m := map n | n in m :: if n in p.relabel then m[n].(source := FromCatalog) else m[n];
  }

  ghost predicate Rewriting(tools: Tools, p: Plan, rest: set<string>, m: Tools, changed: set<string>) {
    p.update.Keys <= tools.Keys && m == Updated(tools, p, p.update.Keys - rest)
    && changed == Changed(tools, p, p.update.Keys - rest)
  }

  lemma RewritingNext(tools: Tools, p: Plan, rest: set<string>, n: string, m: Tools, changed: set<string>)
    requires Rewriting(tools, p, rest, m, changed) && n in rest && n in p.update
    ensures n in m && m[n] == tools[n]
    ensures var t := tools[n];
            Rewriting(tools, p, rest - {n},
                      m[n := t.(def := p.update[n], source := FromCatalog, version := t.version + 1)],
                      if BehaviourChanged(t.def, p.update[n]) then changed + {t.id} else changed)
  {
    ChangedNext(tools, p, p.update.Keys - rest, n);
    UpdatedNext(tools, p, p.update.Keys - rest, n);
    assert p.update.Keys - (rest - {n}) == (p.update.Keys - rest) + {n};
  }

  lemma InsertedNext(tools: Tools, p: Plan, ids: map<string, string>, names: set<string>, n: string)
    requires p.add.Keys <= ids.Keys && n in p.add
    ensures Inserted(tools, p, ids, names + {n}) == Inserted(tools, p, ids, names)[n := NewTool(ids[n], p.add[n])]
  {
  }

  lemma UpdatedNext(tools: Tools, p: Plan, names: set<string>, n: string)
    requires n in tools && n in p.update && n !in names
    ensures var m := Updated(tools, p, names);
            m[n] == tools[n]
            && Updated(tools, p, names + {n})
            == m[n := tools[n].(def := p.update[n], source := FromCatalog, version := tools[n].version + 1)]
  {
  }

  lemma ChangedNext(tools: Tools, p: Plan, names: set<string>, n: string)
    requires p.update.Keys <= tools.Keys && n in p.update
    ensures Changed(tools, p, names + {n})
         == Changed(tools, p, names) + if BehaviourChanged(tools[n].def, p.update[n]) then {tools[n].id} else {}
  {
  }

  /** The plan, name by name: what is added, rewritten, removed, relabelled, and what is
      somebody's own and stays, with the reason. */
  lemma PlanIsByName(c: Connector, tools: Tools, a: Adapter, n: string)
    ensures var p, defs := PlanOf(c, tools, a), Defs(a.tools);
            var hand := n in tools && (tools[n].source == Custom || tools[n].edited);
            && (n in p.add <==> n in defs && n !in tools) && (n in p.add ==> p.add[n] == defs[n])
            && (n in p.update <==> n in defs && n in tools && tools[n].def != defs[n] && !hand)
            && (n in p.update ==> p.update[n] == defs[n])
            && (n in p.remove <==> n in tools && n !in defs && !hand)
            && (n in p.relabel <==> n in defs && n in tools && tools[n].source == FromImport && !tools[n].edited)
            && (n in p.skipped <==>
                  hand && ((n in defs && tools[n].def != defs[n]) || (n !in defs && tools[n].source != Custom)))
            && (n in p.skipped ==>
                  && p.skipped[n].id == tools[n].id
                  && p.skipped[n].reason == (if tools[n].source == Custom then IsCustom else Edited))
  {
  }

  /** The access rules that go are those of the tools that go. */
  lemma RulesFollowTheTools(db: Rows, a: Adapter, ids: map<string, string>, now: int, r: (string, string))
    requires Defs(a.tools).Keys <= ids.Keys
    ensures var after := Written(db, a, ids, now);
            r in after.rules <==>
              r in db.rules && !exists n :: n in db.tools && n !in after.tools && db.tools[n].id == r.0
  {
    var p := PlanOf(db.connector, db.tools, a);
    var after := Written(db, a, ids, now);
    forall n | n in db.tools ensures n in p.remove <==> n !in after.tools {}
    if r.0 in Removed(db.tools, p) {
      var n :| n in p.remove && db.tools[n].id == r.0;
      assert n in db.tools && n !in after.tools;
    }
  }

  // --- What an attempt guarantees ------------------------------------------------------------------------

  predicate DistinctIds(tools: Tools) {
    forall m, n :: m in tools && n in tools && m != n ==> tools[m].id != tools[n].id
  }

  /** A request for a tool that went, or that now does something else, is open no more; every
      other request is as it was. */
  lemma ApprovalsFollowTheTools(db: Rows, a: Adapter, ids: map<string, string>, now: int, n: string, i: nat)
    requires Defs(a.tools).Keys <= ids.Keys && DistinctIds(db.tools)
    requires n in db.tools && i < |db.requests| && db.requests[i].tool == db.tools[n].id
    ensures var p := PlanOf(db.connector, db.tools, a);
            var after := Written(db, a, ids, now).requests[i];
            if n in p.remove || (n in p.update && db.tools[n].def.calls != p.update[n].calls)
            then !after.state.Pending? && !after.state.Approved?
            else after == db.requests[i]
  {
    var p := PlanOf(db.connector, db.tools, a);
    OwnId(db.tools, p, n);
    CancelledOnce(db.requests, Changed(db.tools, p, p.update.Keys), Removed(db.tools, p), now, i);
  }

  lemma CancelledOnce(requests: seq<A.Request>, changed: set<string>, gone: set<string>, now: int, i: nat)
    requires i < |requests|
    ensures var after := CancelledFor(CancelledFor(requests, changed, A.CHANGED, now), gone, REMOVED, now)[i];
            if requests[i].tool in changed + gone then !after.state.Pending? && !after.state.Approved?
            else after == requests[i]
  {
    assert CancelledFor(requests, changed, A.CHANGED, now)[i].tool == requests[i].tool;
  }

  lemma OwnId(tools: Tools, p: Plan, n: string)
    requires DistinctIds(tools) && n in tools && p.update.Keys <= tools.Keys && p.remove <= tools.Keys
    ensures tools[n].id in Removed(tools, p) <==> n in p.remove
    ensures tools[n].id in Changed(tools, p, p.update.Keys)
            <==> n in p.update && BehaviourChanged(tools[n].def, p.update[n])
  {
  }

  /** Trying again at once changes nothing: the connector is up to date. */
  lemma SecondAttemptDoesNothing(db: Rows, a: Adapter, ids: map<string, string>, now: int, authorized: bool)
    requires Defs(a.tools).Keys <= ids.Keys && db.connector.slug != ""
    ensures var after := Written(db, a, ids, now);
            OutcomeOf(after.connector, after.tools, Some(a), a.hash, after.connector.version, authorized) == UpToDate
  {
    ResyncConverges(db.connector, db.tools, a, ids);
  }
}
