/** The service behind approvals: each operation as the transaction it runs, with the
    reason it gives when it changes nothing. */
module ApprovalService {
  import opened Collections
  import opened Approvals

  datatype Error = NoActor | NoReason | NoTool | NotFound | SelfDecision | RequestExpired | AlreadyDecided
                 | NotRequester | Confirmed | NotPending | TooManyPending

  datatype Result<+T> = Ok(value: T) | Err(error: Error)

  /** What a caller who names a request gets to run. */
  datatype Outcome = Run(args: string) | Refuse(state: State)

  class Service {
    var requests: seq<Request>
    var tools: map<string, nat>
    var now: int

    ghost function Contents(): Book
      reads this
    {
      Book(requests, tools, now)
    }

    /** Raises a request, or gives back the answer this call already has. */
    method Raise(tool: string, actor: string, args: string, policyTtl: nat) returns (res: Result<nat>)
      modifies this`requests
      ensures var b := old(Contents()); var ttl := if policyTtl > 0 then policyTtl else DEFAULT_TTL;
              && Contents() == Next(b, Step.Raise(tool, actor, args, ttl))
              && (tool == "" ==> res == Err(NoTool))
              && (tool != "" && actor == "" ==> res == Err(NoActor))
              && (tool != "" && actor != "" ==>
                    res == match RaiseOutcome(b, tool, actor, args)
                           case Existing(id) => Ok(id)
                           case TooMany => Err(TooManyPending)
                           case New(id) => Ok(id))
      ensures res.Ok? ==>
                && res.value < |requests| && requests[res.value].args == args
                && requests[res.value].tool == tool && requests[res.value].requester == actor
      ensures res.Ok? && res.value < |old(requests)| ==>
                var r := requests[res.value];
                && requests == old(requests)
                && ((r.state == Pending && now < r.expiresAt) || (r.state == Rejected && now < r.decidedAt + r.ttl))
      ensures res.Ok? && res.value >= |old(requests)| ==>
                var r := requests[res.value];
                && |requests| == |old(requests)| + 1 && requests[..|old(requests)|] == old(requests)
                && r.state == Pending && r.createdAt == now
                && r.expiresAt == now + (if policyTtl > 0 then policyTtl else DEFAULT_TTL)
                && r.behaviour == if tool in tools then Some(tools[tool]) else None
      ensures res.Err? ==> requests == old(requests)
    {
      if tool == "" {
        return Err(NoTool);
      }
      if actor == "" {
        return Err(NoActor);
      }
      var ttl := if policyTtl > 0 then policyTtl else DEFAULT_TTL;
      var answer := AnswerFor(Book(requests, tools, now), tool, actor, args);
      ExistingIsTheCall(Book(requests, tools, now), tool, actor, args);
      match answer
      case Existing(id) => return Ok(id);
      case TooMany => return Err(TooManyPending);
      case New(_) =>
        var behaviour := if tool in tools then Some(tools[tool]) else None;
        requests :=
          requests + [Request(tool, actor, args, ttl, Pending, now, now + ttl, "", 0, 0, 0, false, "", behaviour)];
        return Ok(|requests| - 1);
    }

    /** One person's answer. Not the asker's, not to a question that has closed. A
        refused answer changes nothing. */
    method Decide(id: nat, actor: string, approve: bool, reason: string) returns (res: Result<Request>)
      modifies this`requests
      ensures Contents() == Next(old(Contents()), Step.Decide(id, actor, approve, reason))
      ensures res.Ok? <==>
          actor != "" && (approve || reason != "") && id < |old(requests)| && MayDecide(old(requests)[id], actor, now)
      ensures res.Ok? ==> res.value == requests[id]
      ensures res.Ok? ==>
                var r := old(requests)[id];
                && r.state == Pending && now < r.expiresAt && actor != r.requester
                && requests[id].state == (if approve then Approved else Rejected)
                && requests[id].decidedBy == actor && requests[id].decidedAt == now && requests[id].reason == reason
                && requests[id].expiresAt == (if approve then now + r.ttl else r.expiresAt)
      ensures res.Err? ==> requests == old(requests)
      ensures res.Err? && actor != "" && (approve || reason != "") && id < |old(requests)| ==>
                var r := requests[id];
                && (res.error == SelfDecision <==> r.requester == actor)
                && (res.error == RequestExpired <==> r.requester != actor && EffectiveState(r, now).Expired?)
                && (res.error == AlreadyDecided <==> r.requester != actor && !EffectiveState(r, now).Expired?)
    {
      if actor == "" {
        return Err(NoActor);
      }
      if !approve && reason == "" {
        return Err(NoReason);
      }
      if id >= |requests| {
        return Err(NotFound);
      }
      var r := requests[id];
      if r.state == Pending && r.expiresAt > now && r.requester != actor {
        var expiresAt := if approve then now + r.ttl else r.expiresAt;
        var state := if approve then Approved else Rejected;
        requests := requests[id := r.(state := state, decidedBy := actor, decidedAt := now,
                                      reason := reason, expiresAt := expiresAt)];
        return Ok(requests[id]);
      }
      if r.requester == actor {
        return Err(SelfDecision);
      }
      if r.state == Expired || (r.state == Pending && r.expiresAt <= now) {
        return Err(RequestExpired);
      }
      return Err(AlreadyDecided);
    }

    /** Withdraws a request; only its asker may. */
    method Cancel(id: nat, actor: string, reason: string, unconfirmedOnly: bool) returns (res: Result<Request>)
      modifies this`requests
      ensures Contents() == Next(old(Contents()), Step.Cancel(id, actor, reason, unconfirmedOnly))
      ensures res.Ok? <==>
                && actor != "" && id < |old(requests)|
                && old(requests)[id].state == Pending && old(requests)[id].requester == actor
                && !(unconfirmedOnly && old(requests)[id].acknowledged)
      ensures res.Ok? ==> requests[id] == old(requests)[id].(state := Cancelled, cancelledAt := now, reason := reason)
      ensures res.Err? ==> requests == old(requests)
      ensures res == Err(NoActor) <==> actor == ""
      ensures res == Err(NotFound) <==> actor != "" && id >= |old(requests)|
      ensures res.Err? && actor != "" && id < |requests| ==>
                var r := requests[id];
                var state := EffectiveState(r, now);
                var confirmed := unconfirmedOnly && state.Pending? && r.acknowledged;
                && (res.error == NotRequester <==> r.requester != actor)
                && (res.error == Confirmed <==> r.requester == actor && confirmed)
                && (res.error == RequestExpired <==> r.requester == actor && state.Expired?)
                && (res.error == AlreadyDecided <==> r.requester == actor && !confirmed && !state.Expired?)
      ensures res.Ok? ==> id < |requests| && res.value == requests[id]
    {
      if actor == "" {
        return Err(NoActor);
      }
      if id >= |requests| {
        return Err(NotFound);
      }
      var r := requests[id];
      if r.state == Pending && r.requester == actor && (!unconfirmedOnly || !r.acknowledged) {
        requests := requests[id := r.(state := Cancelled, cancelledAt := now, reason := reason)];
        return Ok(requests[id]);
      }
      var state := EffectiveState(r, now);
      if r.requester != actor {
        return Err(NotRequester);
      }
      if unconfirmedOnly && state == Pending && r.acknowledged {
        return Err(Confirmed);
      }
      if state == Expired {
        return Err(RequestExpired);
      }
      return Err(AlreadyDecided);
    }

    /** The asker confirms a waiting request, once. A second confirmation gets the
        first one back. */
    method Acknowledge(id: nat, actor: string) returns (res: Result<Request>)
      modifies this`requests
      ensures Contents() == Next(old(Contents()), Step.Acknowledge(id, actor))
      ensures res.Ok? <==>
          actor != "" && id < |old(requests)| && old(requests)[id].requester == actor && Waiting(old(requests)[id], now)
      ensures res.Ok? ==> res.value == requests[id] && requests[id].acknowledged && requests[id].state.Pending?
      ensures res == Err(NoActor) <==> actor == ""
      ensures res == Err(NotFound) <==> actor != "" && id >= |old(requests)|
      ensures res.Ok? ==> requests[id] == old(requests)[id].(acknowledged := true)
      ensures res.Err? ==> requests == old(requests)
      ensures res.Err? && actor != "" && id < |requests| ==>
                && (res.error == NotRequester <==> requests[id].requester != actor)
                && (res.error == NotPending <==> requests[id].requester == actor && !Waiting(requests[id], now))
    {
      if actor == "" {
        return Err(NoActor);
      }
      if id >= |requests| {
        return Err(NotFound);
      }
      var r := requests[id];
      if r.requester == actor && r.state == Pending && r.expiresAt > now && !r.acknowledged {
        requests := requests[id := r.(acknowledged := true)];
        return Ok(requests[id]);
      }
      if r.requester != actor {
        return Err(NotRequester);
      }
      if EffectiveState(r, now) == Pending {
        return Ok(r);
      }
      return Err(NotPending);
    }

    /** Spends an approval: the state moves in the step that reads the arguments. */
    method Claim(id: nat, actor: string) returns (res: Result<Outcome>)
      modifies this`requests
      ensures Contents() == Next(old(Contents()), Step.Claim(id, actor))
      ensures res == Err(NotFound) <==> id >= |old(requests)|
      ensures id < |old(requests)| ==>
                var r := old(requests)[id];
                res == Ok(if r.state == Approved && r.requester == actor && now < r.expiresAt then Run(r.args)
                          else Refuse(EffectiveState(r, now)))
      ensures res.Ok? && res.value.Run? ==>
                && requests[id] == old(requests)[id].(state := Consumed, consumedAt := now)
                && forall i :: 0 <= i < |requests| && i != id ==> requests[i] == old(requests)[i]
      ensures res.Ok? && res.value.Refuse? ==> requests == old(requests)
    {
      if id >= |requests| {
        return Err(NotFound);
      }
      var r := requests[id];
      if r.requester == actor && r.state == Approved && r.expiresAt > now {
        requests := requests[id := r.(state := Consumed, consumedAt := now)];
        return Ok(Run(r.args));
      }
      return Ok(Refuse(EffectiveState(r, now)));
    }

    /** Settles the requests nobody answered, and says how many. */
    method Sweep() returns (settled: nat)
      modifies this`requests
      ensures Contents() == Next(old(Contents()), Step.Sweep)
      ensures settled == CountPending(old(requests)) - CountPending(requests)
      ensures forall i :: 0 <= i < |requests| ==> EffectiveState(requests[i], now) == requests[i].state
      ensures |requests| == |old(requests)| && forall i :: 0 <= i < |requests| ==>
                var r := old(requests)[i];
                requests[i] == if r.state == Pending && r.expiresAt <= now then r.(state := Expired) else r
    {
      requests, settled := SettleLate(requests, now);
    }

    /** A tool changes what it does; its open requests are cancelled with it. */
    method EditTool(tool: string, behaviour: nat)
      modifies this`requests, this`tools
      ensures Contents() == Next(old(Contents()), Step.EditTool(tool, behaviour))
      ensures tools == old(tools)[tool := behaviour]
      ensures tool !in old(tools) || old(tools)[tool] == behaviour ==> requests == old(requests)
      ensures tool in old(tools) && old(tools)[tool] != behaviour ==>
                OnlyCancelled(old(requests), requests, tool, CHANGED, now)
    {
      if tool in tools && tools[tool] != behaviour {
        requests := CancelFor(requests, tool, CHANGED, now);
      }
      tools := tools[tool := behaviour];
    }

    method DeleteTool(tool: string)
      modifies this`requests, this`tools
      ensures Contents() == Next(old(Contents()), Step.DeleteTool(tool))
      ensures tools == old(tools) - {tool} && OnlyCancelled(old(requests), requests, tool, DELETED, now)
    {
      tools := tools - {tool};
      requests := CancelFor(requests, tool, DELETED, now);
    }
  }

  /** The tool's open requests are cancelled for this reason, and no other request changed. */
  ghost predicate OnlyCancelled(before: seq<Request>, after: seq<Request>, tool: string, why: string, now: int) {
    |after| == |before| && forall i :: 0 <= i < |after| ==>
      var r := before[i];
      after[i] == if r.tool == tool && (r.state == Pending || r.state == Approved)
                  then r.(state := Cancelled, cancelledAt := now, reason := why) else r
  }

  /** An answer a call already has is to exactly this call. */
  lemma ExistingIsTheCall(b: Book, tool: string, actor: string, args: string)
    ensures var o := RaiseOutcome(b, tool, actor, args);
            && (o.Existing? ==>
                  && o.id < |b.requests| && b.requests[o.id].args == args
                  && b.requests[o.id].tool == tool && b.requests[o.id].requester == actor
                  && (Waiting(b.requests[o.id], b.now) || Refused(b.requests[o.id], b.now)))
            && (o.New? ==> o.id == |b.requests|)
  {
    SameCallFinds(b.requests, Newest(b.requests, tool, actor, b.now, MAX_PENDING), args);
  }

  function CountPending(requests: seq<Request>): nat {
    if requests == [] then 0
    else CountPending(requests[..|requests| - 1]) + if requests[|requests| - 1].state.Pending? then 1 else 0
  }

  /** What the call gets: the answer it already has, a refusal, or a new request. */
  method AnswerFor(b: Book, tool: string, actor: string, args: string) returns (answer: Raised)
    ensures answer == RaiseOutcome(b, tool, actor, args)
  {
    var found, pending := ReadCandidates(b.requests, tool, actor, b.now);
    var existing := FindSame(b.requests, found, args);
    if existing.Some? {
      return Existing(existing.value);
    }
    if pending >= MAX_PENDING {
      return TooMany;
    }
    return New(|b.requests|);
  }

  /** What is found so far and what is left to find make up the whole answer. */
  ghost predicate Reading(requests: seq<Request>, n: nat, tool: string, actor: string, now: int, found: seq<nat>)
    requires n <= |requests|
  {
    && |found| <= MAX_PENDING
    && found + Newest(requests[..n], tool, actor, now, MAX_PENDING - |found|)
       == Newest(requests, tool, actor, now, MAX_PENDING)
  }

  lemma ReadOne(requests: seq<Request>, n: nat, tool: string, actor: string, now: int, found: seq<nat>)
    requires n < |requests| && |found| < MAX_PENDING && Reading(requests, n + 1, tool, actor, now, found)
    ensures Reading(requests, n, tool, actor, now,
                    if Candidate(requests[n], tool, actor, now) then found + [n] else found)
  {
    assert requests[..n + 1][..n] == requests[..n];
  }

  lemma CountOne(requests: seq<Request>, found: seq<nat>, n: nat, now: int)
    requires n < |requests| && forall k :: 0 <= k < |found| ==> found[k] < |requests|
    ensures CountWaiting(requests, found + [n], now)
            == CountWaiting(requests, found, now) + if Waiting(requests[n], now) then 1 else 0
  {
    assert (found + [n])[..|found|] == found;
  }

  /** The query under the queue's lock: the newest candidates, and how many of those
      read are still waiting. */
  method ReadCandidates(requests: seq<Request>, tool: string, actor: string, now: int)
    returns (found: seq<nat>, pending: nat)
    ensures found == Newest(requests, tool, actor, now, MAX_PENDING)
    ensures pending == CountWaiting(requests, found, now)
  {
    found, pending := [], 0;
    var n := |requests|;
    assert requests[..n] == requests;
    while n > 0 && |found| < MAX_PENDING
      invariant 0 <= n <= |requests| && Reading(requests, n, tool, actor, now, found)
      invariant forall k :: 0 <= k < |found| ==> found[k] < |requests|
      invariant pending == CountWaiting(requests, found, now)
    {
      n := n - 1;
      ReadOne(requests, n, tool, actor, now, found);
      var r := requests[n];
      var waiting := r.state == Pending && r.expiresAt > now;
      if r.tool == tool && r.requester == actor && (waiting || (r.state == Rejected && r.decidedAt > now - r.ttl)) {
        CountOne(requests, found, n, now);
        found := found + [n];
        if waiting {
          pending := pending + 1;
        }
      }
    }
  }

  method FindSame(requests: seq<Request>, found: seq<nat>, args: string) returns (same: Option<nat>)
    requires forall k :: 0 <= k < |found| ==> found[k] < |requests|
    ensures same == SameCall(requests, found, args)
  {
    var k := 0;
    while k < |found|
      invariant 0 <= k <= |found|
      invariant SameCall(requests, found[k..], args) == SameCall(requests, found, args)
    {
      if requests[found[k]].args == args {
        return Some(found[k]);
      }
      assert found[k..][1..] == found[k + 1..];
      k := k + 1;
    }
    return None;
  }

  method SettleLate(requests: seq<Request>, now: int) returns (all: seq<Request>, settled: nat)
    ensures all == SettleAll(requests, now)
    ensures settled == CountPending(requests) - CountPending(all)
  {
    all, settled := [], 0;
    for i := 0 to |requests|
      invariant |all| == i && forall j :: 0 <= j < i ==> all[j] == Settled(requests[j], now)
      invariant settled == CountPending(requests[..i]) - CountPending(all)
    {
      var r := requests[i];
      assert requests[..i + 1][..i] == requests[..i];
      if r.state == Pending && r.expiresAt <= now {
        r := r.(state := Expired);
        settled := settled + 1;
      }
      assert (all + [r])[..i] == all;
      all := all + [r];
    }
    assert requests[..|requests|] == requests;
  }

  method CancelFor(requests: seq<Request>, tool: string, why: string, now: int) returns (all: seq<Request>)
    ensures all == WithdrawAll(requests, tool, why, now)
  {
    all := [];
    for i := 0 to |requests|
      invariant |all| == i && forall j :: 0 <= j < i ==> all[j] == Withdrawn(requests[j], tool, why, now)
    {
      var r := requests[i];
      if r.tool == tool && r.state in {Pending, Approved} {
        r := r.(state := Cancelled, cancelledAt := now, reason := why);
      }
      all := all + [r];
    }
  }

  // --- which rule governs a call -----------------------------------------------------------

  datatype Scope = Organization | Server | Connector | Tool

  datatype Effect = Require | Allow

  /** A rule, as far as choosing between rules goes: whether it matches the call is
      settled per rule. */
  datatype Policy = Policy(scope: Scope, effect: Effect, matches: bool)

  function Rank(p: Policy): nat {
    match p.scope
    case Tool => 3
    case Connector => 2
    case Server => 1
    case Organization => 0
  }

  /** Narrower beats broader; at the same width, asking for a person beats waiving
      them; otherwise the older rule stands. */
  predicate Governs(policies: seq<Policy>, k: nat)
    requires k < |policies|
  {
    && policies[k].matches
    && forall j :: 0 <= j < |policies| && policies[j].matches && j != k ==>
         || Rank(policies[j]) < Rank(policies[k])
         || (Rank(policies[j]) == Rank(policies[k]) &&
             ((policies[k].effect.Require? && policies[j].effect.Allow?)
               || (policies[k].effect == policies[j].effect && k < j)))
  }

  method Governing(policies: seq<Policy>) returns (best: Option<nat>)
    ensures best.None? <==> forall j :: 0 <= j < |policies| ==> !policies[j].matches
    ensures best.Some? ==> best.value < |policies| && Governs(policies, best.value)
    ensures best.Some? ==> policies[best.value].matches && forall j :: 0 <= j < |policies| && policies[j].matches ==>
              var p, q := policies[best.value], policies[j];
              && (q.scope == Tool ==> p.scope == Tool)
              && (q.scope == Connector ==> p.scope in {Tool, Connector})
              && (q.scope == Server ==> p.scope in {Tool, Connector, Server})
              && (q.scope == p.scope && q.effect == Require ==> p.effect == Require)
              && (q.scope == p.scope && q.effect == p.effect ==> best.value <= j)
  {
    best := None;
    for i := 0 to |policies|
      invariant best.None? <==> forall j :: 0 <= j < i ==> !policies[j].matches
      invariant best.Some? ==> best.value < i && Governs(policies[..i], best.value)
    {
      var p := policies[i];
      if p.matches {
        if best.None? || Rank(p) > Rank(policies[best.value]) {
          best := Some(i);
        } else if Rank(p) == Rank(policies[best.value]) && p.effect == Require && policies[best.value].effect == Allow {
          best := Some(i);
        }
      }
    }
    assert policies[..|policies|] == policies;
  }

  /** There is only ever one governing rule. */
  lemma GoverningIsUnique(policies: seq<Policy>, j: nat, k: nat)
    requires j < |policies| && k < |policies| && Governs(policies, j) && Governs(policies, k)
    ensures j == k
  {
  }
}
