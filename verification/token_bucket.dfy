/** The budget of one replica on its own: token buckets, kept for a bounded number of keys.
    Times are whole nanoseconds; tokens are real numbers, without rounding. */
module TokenBucket {
  import opened Collections

  datatype Bucket = Bucket(tokens: real, last: int)

  datatype Decision = Decision(allowed: bool, limit: int, remaining: int, resetAfter: real, retryAfter: real)

  function Refilled(b: Bucket, capacity: real, rate: real, now: int): Bucket {
    var grown := if now > b.last then Bucket(b.tokens + (now - b.last) as real * rate, now) else b;
    if grown.tokens > capacity then grown.(tokens := capacity) else grown
  }

  /** The bucket after a call, and whether the call is admitted. */
  function Charge(b: Bucket, capacity: real, rate: real, now: int): (Bucket, bool) {
    var full := Refilled(b, capacity, rate, now);
    if full.tokens >= 1.0 then (full.(tokens := full.tokens - 1.0), true) else (full, false)
  }

  function SpanFor(tokens: real, rate: real): real {
    if tokens <= 0.0 || rate <= 0.0 then 0.0 else tokens / rate
  }

  /** A replica's share of a budget, never less than one. */
  function Effective(burst: int, divisor: int): int
    requires burst > 0 && divisor > 0
  {
    if burst / divisor < 1 then 1 else burst / divisor
  }

  // --- Making room -------------------------------------------------------------------------------

  predicate Idle(b: Bucket, now: int, window: int) {
    now - b.last >= window
  }

  type Buckets = map<string, Bucket>

  /** The buckets that are not idle. */
  function Busy(m: Buckets, now: int, window: int): Buckets {
    map k | k in m && !Idle(m[k], now, window) :: m[k]
  }

  function SeenAfter(m: Buckets, cutoff: int): Buckets {
    map k | k in m && m[k].last > cutoff :: m[k]
  }

  /** The keys in the order they were last seen. */
  predicate ByLast(m: Buckets, ks: seq<string>) {
    && (forall i :: 0 <= i < |ks| ==> ks[i] in m)
    && (forall i, j :: 0 <= i < j < |ks| ==> ks[i] != ks[j] && m[ks[i]].last <= m[ks[j]].last)
  }

  ghost predicate AreKeys(ks: seq<string>, s: set<string>) {
    forall k :: k in ks <==> k in s
  }

  function PlaceFor(m: Buckets, ks: seq<string>, last: int): (i: nat)
    requires ByLast(m, ks)
    ensures i <= |ks| && (forall j :: 0 <= j < i ==> m[ks[j]].last <= last)
            && forall j :: i <= j < |ks| ==> last <= m[ks[j]].last
    decreases |ks|
  {
    if ks == [] || m[ks[|ks| - 1]].last <= last then |ks| else PlaceFor(m, ks[..|ks| - 1], last)
  }

  lemma PutInPlace(m: Buckets, ks: seq<string>, k: string, i: nat)
    requires ByLast(m, ks) && k in m && k !in ks && i <= |ks|
    requires (forall j :: 0 <= j < i ==> m[ks[j]].last <= m[k].last)
             && forall j :: i <= j < |ks| ==> m[k].last <= m[ks[j]].last
    ensures ByLast(m, ks[..i] + [k] + ks[i..])
  {
    var r := ks[..i] + [k] + ks[i..];
    assert forall x :: 0 <= x < |r| ==> r[x] == if x < i then ks[x] else if x == i then k else ks[x - 1];
  }

  lemma KeysOfThree(ks: seq<string>, k: string, i: nat)
    requires i <= |ks|
    ensures forall x :: x in ks[..i] + [k] + ks[i..] <==> x in ks || x == k
  {
    assert ks == ks[..i] + ks[i..];
  }

  method SortedByLast(m: Buckets) returns (ks: seq<string>)
    ensures ByLast(m, ks) && AreKeys(ks, m.Keys) && |ks| == |m|
  {
    ks := [];
    var rest := m.Keys;
    while rest != {}
      invariant rest <= m.Keys && |ks| == |m.Keys| - |rest|
      invariant ByLast(m, ks) && AreKeys(ks, m.Keys - rest)
      decreases |rest|
    {
      var k := Any(rest);
      var i := PlaceFor(m, ks, m[k].last);
      ghost var before := ks;
      ks := ks[..i] + [k] + ks[i..];
      PutInPlace(m, before, k, i);
      KeysOfThree(before, k, i);
      rest := rest - {k};
    }
  }

  /** Removing everyone last seen no later than the median leaves less than half. */
  lemma MedianHalves(m: Buckets, ks: seq<string>, cutoff: int)
    requires ByLast(m, ks) && |ks| == |m| && |ks| > 0 && cutoff == m[ks[|ks| / 2]].last
    ensures |SeenAfter(m, cutoff)| <= |m| - |m| / 2 - 1
  {
    var half := |ks| / 2 + 1;
    var gone := set i | 0 <= i < half :: ks[i];
    DistinctCount(m, ks, half);
    assert gone <= m.Keys;
    var kept := SeenAfter(m, cutoff).Keys;
    assert kept <= m.Keys - gone;
    SubsetSize(kept, m.Keys - gone);
    assert |m.Keys - gone| == |m.Keys| - |gone|;
  }

  lemma {:induction false} DistinctCount(m: Buckets, ks: seq<string>, n: nat)
    requires ByLast(m, ks) && n <= |ks|
    ensures |set i | 0 <= i < n :: ks[i]| == n
  {
    if n > 0 {
      DistinctCount(m, ks, n - 1);
      assert (set i | 0 <= i < n :: ks[i]) == (set i | 0 <= i < n - 1 :: ks[i]) + {ks[n - 1]};
    }
  }

  /** What making room leaves: nobody idle; and if that was not room enough, the least
      recently seen go, more than half of those that were left. */
  ghost predicate MadeRoom(before: Buckets, after: Buckets, now: int, window: int, maxKeys: nat) {
    var busy := Busy(before, now, window);
    if |busy| < maxKeys then after == busy
    else |after| <= |busy| - |busy| / 2 - 1 && exists cutoff :: after == SeenAfter(busy, cutoff)
  }

  method Evict(before: Buckets, now: int, window: int, maxKeys: nat) returns (m: Buckets)
    requires maxKeys > 0
    ensures MadeRoom(before, m, now, window, maxKeys)
  {
    m := before;
    var rest := before.Keys;
    while rest != {}
      invariant rest <= before.Keys
      invariant forall k :: k in m <==> k in before && (k in rest || !Idle(before[k], now, window))
      invariant forall k :: k in m ==> m[k] == before[k]
      decreases |rest|
    {
      var k := Any(rest);
      if now - m[k].last >= window {
        m := m - {k};
      }
      rest := rest - {k};
    }
    assert m == Busy(before, now, window);
    if |m| < maxKeys {
      return;
    }
    var seen := SortedByLast(m);
    var cutoff := m[seen[|seen| / 2]].last;
    MedianHalves(m, seen, cutoff);
    m := SeenAfter(m, cutoff);
  }

  // --- One call ---------------------------------------------------------------------------------------

  /** A replica's buckets. */
  class Memory {
    const divisor: int
    const maxKeys: nat
    var buckets: Buckets

    ghost predicate Valid()
      reads this
    {
      divisor > 0 && maxKeys > 0 && |buckets| <= maxKeys
    }

    constructor (divisor: int, maxKeys: nat)
      requires divisor > 0 && maxKeys > 0
      ensures Valid() && buckets == map[] && this.divisor == divisor && this.maxKeys == maxKeys
    {
      this.divisor, this.maxKeys, buckets := divisor, maxKeys, map[];
    }

    method Allow(key: string, burst: int, window: int, now: int) returns (d: Decision)
      requires Valid() && burst > 0 && window > 0
      modifies this
      ensures Valid() && Called(old(buckets), buckets, key, Effective(burst, divisor), window, now, maxKeys, d)
    {
      var effective := Effective(burst, divisor);
      var m := WithRoom(buckets, key, now, window, maxKeys);
      var b, decision :=
        ChargeOnce(if key in m then m[key] else Bucket(effective as real, now), effective, window, now);
      CalledWithRoom(buckets, m, key, effective, window, now, maxKeys);
      d := decision;
      buckets := m[key := b];
    }
  }

  function Decided(b: Bucket, effective: int, window: int, now: int): (Bucket, Decision)
    requires window > 0
  {
    var capacity := effective as real;
    var rate := capacity / window as real;
    var c := Charge(b, capacity, rate, now);
    (c.0, Decision(c.1, effective, c.0.tokens.Floor, SpanFor(capacity - c.0.tokens, rate),
                   if c.1 then 0.0 else SpanFor(1.0 - c.0.tokens, rate)))
  }

  method Refill(before: Bucket, capacity: real, rate: real, now: int) returns (b: Bucket)
    ensures b == Refilled(before, capacity, rate, now)
  {
    b := before;
    if now > b.last {
      b := Bucket(b.tokens + (now - b.last) as real * rate, now);
    }
    if b.tokens > capacity {
      b := b.(tokens := capacity);
    }
  }

  method ChargeOnce(before: Bucket, effective: int, window: int, now: int) returns (b: Bucket, d: Decision)
    requires window > 0
    ensures (b, d) == Decided(before, effective, window, now)
  {
    var capacity := effective as real;
    var rate := capacity / window as real;
    b := Refill(before, capacity, rate, now);
    var allowed := b.tokens >= 1.0;
    var retryAfter := 0.0;
    if allowed {
      b := b.(tokens := b.tokens - 1.0);
    } else {
      retryAfter := SpanFor(1.0 - b.tokens, rate);
    }
    assert (b, allowed) == Charge(before, capacity, rate, now);
    d := Decision(allowed, effective, b.tokens.Floor, SpanFor(capacity - b.tokens, rate), retryAfter);
  }

  method WithRoom(before: Buckets, key: string, now: int, window: int, maxKeys: nat) returns (m: Buckets)
    requires maxKeys > 0 && |before| <= maxKeys
    ensures Room(before, m, key, now, window, maxKeys)
  {
    m := before;
    if key !in m && |m| >= maxKeys {
      m := Evict(m, now, window, maxKeys);
      RoomWasMade(before, m, now, window, maxKeys);
    }
  }

  ghost predicate Room(before: Buckets, m: Buckets, key: string, now: int, window: int, maxKeys: nat) {
    && m.Keys <= before.Keys && (key in m <==> key in before) && (key in m || |m| < maxKeys) && |m| <= maxKeys
    && if key in before || |before| < maxKeys then m == before else MadeRoom(before, m, now, window, maxKeys)
  }

  /** What one call does: the key's own bucket, or a full one if it has none, is charged, and
      the others are left alone unless the key is new and there is no room for it. */
  ghost predicate Called(before: Buckets, after: Buckets, key: string, effective: int, window: int, now: int,
                         maxKeys: nat, d: Decision)
    requires window > 0
  {
    && key in after
    && (after[key], d)
       == Decided(if key in before then before[key] else Bucket(effective as real, now), effective, window, now)
    && if key in before then after == before[key := after[key]]
       else if |before| < maxKeys then after == before[key := after[key]]
       else MadeRoom(before, after - {key}, now, window, maxKeys)
  }

  lemma CalledWithRoom(before: Buckets, m: Buckets, key: string, effective: int, window: int, now: int, maxKeys: nat)
    requires window > 0 && maxKeys > 0 && Room(before, m, key, now, window, maxKeys)
    ensures var c := Decided(if key in m then m[key] else Bucket(effective as real, now), effective, window, now);
            Called(before, m[key := c.0], key, effective, window, now, maxKeys, c.1) && |m[key := c.0]| <= maxKeys
  {
    var c := Decided(if key in m then m[key] else Bucket(effective as real, now), effective, window, now);
    assert key !in m ==> m[key := c.0] - {key} == m;
    SizeWith(m, key, c.0);
  }

  lemma SizeWith(m: Buckets, key: string, b: Bucket)
    ensures |m[key := b]| == if key in m then |m| else |m| + 1
  {
    var after := m[key := b];
    assert |after| == |after.Keys| && |m| == |m.Keys|;
    assert after.Keys == m.Keys + {key};
  }

  lemma RoomWasMade(before: Buckets, after: Buckets, now: int, window: int, maxKeys: nat)
    requires MadeRoom(before, after, now, window, maxKeys) && maxKeys > 0 && |before| <= maxKeys
    ensures after.Keys <= before.Keys && |after| < maxKeys
  {
    var busy := Busy(before, now, window);
    SubsetSize(busy.Keys, before.Keys);
    assert |busy.Keys| == |busy| && |before.Keys| == |before|;
  }

  // --- What a bucket lets through ---------------------------------------------------------------------

  /** A bucket under some calls, and how many of them it admits. */
  function Run(b: Bucket, capacity: real, rate: real, times: seq<int>): (Bucket, nat) {
    if times == [] then (b, 0)
    else
      Step(Run(b, capacity, rate, times[..|times| - 1]), capacity, rate, times[|times| - 1])
  }

  function Step(before: (Bucket, nat), capacity: real, rate: real, now: int): (Bucket, nat) {
    var c := Charge(before.0, capacity, rate, now);
    (c.0, if c.1 then before.1 + 1 else before.1)
  }

  /** Never fewer than no tokens, never more than the capacity. */
  predicate Holds(b: Bucket, capacity: real) {
    0.0 <= b.tokens <= capacity
  }

  lemma Earned(rate: real, span: real, more: real)
    requires rate >= 0.0 && more >= 0.0
    ensures rate * (span + more) == rate * span + more * rate && more * rate >= 0.0
  {
  }

  lemma ChargeHolds(b: Bucket, capacity: real, rate: real, now: int)
    requires Holds(b, capacity) && rate >= 0.0
    ensures var c := Charge(b, capacity, rate, now);
            Holds(c.0, capacity) && c.0.last == if now > b.last then now else b.last
  {
    if now > b.last {
      Earned(rate, 0.0, (now - b.last) as real);
    }
  }

  /** Admitted calls and tokens left do not exceed the capacity and what was earned since
      from, counting what came before as no more than full. */
  ghost predicate Earning(r: (Bucket, nat), capacity: real, rate: real, from: int) {
    && r.0.last >= from && Holds(r.0, capacity)
    && r.1 as real + r.0.tokens <= capacity + rate * (r.0.last - from) as real
  }

  lemma FirstCharge(b: Bucket, capacity: real, rate: real, now: int, from: int)
    requires Holds(b, capacity) && rate >= 0.0 && b.last <= from <= now
    ensures Earning(Step((b, 0), capacity, rate, now), capacity, rate, from)
  {
    ChargeHolds(b, capacity, rate, now);
    Earned(rate, 0.0, (now - from) as real);
  }

  lemma NextCharge(r: (Bucket, nat), capacity: real, rate: real, now: int, from: int)
    requires rate >= 0.0 && Earning(r, capacity, rate, from)
    ensures Earning(Step(r, capacity, rate, now), capacity, rate, from)
  {
    var b := r.0;
    ChargeHolds(b, capacity, rate, now);
    if now > b.last {
      Earned(rate, (b.last - from) as real, (now - b.last) as real);
      assert (now - from) as real == (b.last - from) as real + (now - b.last) as real;
    }
  }

  lemma {:induction false} EveryRunEarns(b: Bucket, capacity: real, rate: real, times: seq<int>, from: int)
    requires Holds(b, capacity) && rate >= 0.0 && times != [] && b.last <= from
    requires forall i :: 0 <= i < |times| ==> times[i] >= from
    ensures Earning(Run(b, capacity, rate, times), capacity, rate, from)
    decreases |times|
  {
    var n := |times| - 1;
    if n == 0 {
      assert Run(b, capacity, rate, times[..0]) == (b, 0);
      FirstCharge(b, capacity, rate, times[n], from);
    } else {
      EveryRunEarns(b, capacity, rate, times[..n], from);
      NextCharge(Run(b, capacity, rate, times[..n]), capacity, rate, times[n], from);
    }
  }

  lemma {:induction false} NeverPastTheCalls(b: Bucket, capacity: real, rate: real, times: seq<int>, to: int)
    requires b.last <= to && forall i :: 0 <= i < |times| ==> times[i] <= to
    ensures Run(b, capacity, rate, times).0.last <= to
    decreases |times|
  {
    if times != [] {
      NeverPastTheCalls(b, capacity, rate, times[..|times| - 1], to);
    }
  }

  /** No more calls than the capacity and what is earned in the span. */
  predicate WithinBudget(admitted: nat, capacity: real, rate: real, span: int) {
    admitted as real <= capacity + rate * span as real
  }

  lemma EarnedSoFar(admitted: real, left: real, capacity: real, rate: real, span: real, more: real)
    requires admitted + left <= capacity + rate * span && left >= 0.0 && rate >= 0.0 && more >= 0.0
    ensures admitted <= capacity + rate * (span + more)
  {
    Earned(rate, span, more);
  }

  /** Calls made between two moments, in whatever order the clock reports them, are admitted
      at most as often as the capacity and what is earned in between. */
  lemma AdmissionsAreBounded(b: Bucket, capacity: real, rate: real, times: seq<int>, from: int, to: int)
    requires Holds(b, capacity) && rate >= 0.0 && b.last <= from <= to
    requires forall i :: 0 <= i < |times| ==> from <= times[i] <= to
    ensures WithinBudget(Run(b, capacity, rate, times).1, capacity, rate, to - from)
  {
    if times == [] {
      EarnedSoFar(0.0, 0.0, capacity, rate, 0.0, (to - from) as real);
    } else {
      EveryRunEarns(b, capacity, rate, times, from);
      NeverPastTheCalls(b, capacity, rate, times, to);
      EarnedBy(Run(b, capacity, rate, times), capacity, rate, from, to);
    }
  }

  lemma EarnedBy(r: (Bucket, nat), capacity: real, rate: real, from: int, to: int)
    requires Earning(r, capacity, rate, from) && rate >= 0.0 && r.0.last <= to
    ensures WithinBudget(r.1, capacity, rate, to - from)
  {
    EarnedSoFar(r.1 as real, r.0.tokens, capacity, rate, (r.0.last - from) as real, (to - r.0.last) as real);
    assert (r.0.last - from) as real + (to - r.0.last) as real == (to - from) as real;
  }

  // --- One key among others -----------------------------------------------------------------------------

  datatype Call = Call(key: string, effective: int, window: int, now: int)

  /** Calls one after another, with the buckets before each and after the last, and what
      each was answered. */
  ghost predicate CalledAll(states: seq<Buckets>, calls: seq<Call>, answers: seq<Decision>, maxKeys: nat) {
    && |states| == |calls| + 1 && |answers| == |calls|
    && forall i :: 0 <= i < |calls| ==>
         calls[i].window > 0
         && Called(states[i], states[i + 1], calls[i].key, calls[i].effective, calls[i].window, calls[i].now, maxKeys,
              answers[i])
  }

  /** Once there, the key is never forgotten. */
  ghost predicate Stays(states: seq<Buckets>, key: string) {
    forall i, j :: 0 <= i < j < |states| && key in states[i] ==> key in states[j]
  }

  /** When a key called. */
  function TimesOf(calls: seq<Call>, key: string): seq<int> {
    if calls == [] then []
    else
      var n := |calls| - 1;
      TimesOf(calls[..n], key) + if calls[n].key == key then [calls[n].now] else []
  }

  /** How often it was admitted. */
  function Admitted(calls: seq<Call>, answers: seq<Decision>, key: string): nat
    requires |answers| == |calls|
  {
    if calls == [] then 0
    else
      var n := |calls| - 1;
      Admitted(calls[..n], answers[..n], key) + if calls[n].key == key && answers[n].allowed then 1 else 0
  }

  /** What a call does to one key's bucket, as long as it is kept. */
  predicate KeyStep(before: Bucket, after: Bucket, c: Call, allowed: bool, key: string, capacity: real, rate: real) {
    if c.key == key then (after, allowed) == Charge(before, capacity, rate, c.now) else after == before
  }

  /** A key's bucket, where one that has none counts as full since some moment. */
  function BucketOf(m: Buckets, key: string, capacity: real, from: int): Bucket {
    if key in m then m[key] else Bucket(capacity, from)
  }

  lemma CallIsKeyStep(before: Buckets, after: Buckets, c: Call, maxKeys: nat, d: Decision, key: string, from: int)
    requires c.window > 0 && Called(before, after, c.key, c.effective, c.window, c.now, maxKeys, d)
    requires (key in before ==> key in after) && (c.key == key ==> from <= c.now && c.effective >= 1)
    ensures var capacity := c.effective as real;
            c.key == key ==> (after[key], d.allowed)
                             == Charge(BucketOf(before, key, capacity, from), capacity,
                                       capacity / c.window as real, c.now)
    ensures c.key != key ==>
              forall capacity :: BucketOf(after, key, capacity, from) == BucketOf(before, key, capacity, from)
  {
    if key == c.key {
      if key !in before {
        RateIsPositive(c.effective, c.window);
        FullStaysFull(c.effective as real, c.effective as real / c.window as real, from, c.now);
      }
    } else {
      OthersAreLeftAlone(before, after, c, maxKeys, d, key);
    }
  }

  lemma OthersAreLeftAlone(before: Buckets, after: Buckets, c: Call, maxKeys: nat, d: Decision, key: string)
    requires c.window > 0 && Called(before, after, c.key, c.effective, c.window, c.now, maxKeys, d)
    requires key != c.key && (key in before ==> key in after)
    ensures (key in after <==> key in before) && (key in after ==> after[key] == before[key])
  {
    if key in after {
      assert key in after - {c.key} && (after - {c.key})[key] == after[key];
    }
  }

  /** A full bucket earns nothing more, so it does not matter since when it is full. */
  lemma FullStaysFull(capacity: real, rate: real, from: int, now: int)
    requires from <= now && rate >= 0.0
    ensures Charge(Bucket(capacity, from), capacity, rate, now) == Charge(Bucket(capacity, now), capacity, rate, now)
  {
    Earned(rate, 0.0, (now - from) as real);
  }

  /** Whatever the others do, a key that stays once it is there is charged for its own calls
      alone, from its first one on. */
  lemma {:induction false} ChargedForItsOwn(buckets: seq<Bucket>, calls: seq<Call>, answers: seq<Decision>,
                                            key: string, capacity: real, rate: real)
    requires |buckets| == |calls| + 1 && |answers| == |calls|
    requires forall i :: 0 <= i < |calls| ==>
               KeyStep(buckets[i], buckets[i + 1], calls[i], answers[i].allowed, key, capacity, rate)
    ensures Run(buckets[0], capacity, rate, TimesOf(calls, key)) == (buckets[|calls|], Admitted(calls, answers, key))
    decreases |calls|
  {
    if calls != [] {
      var n := |calls| - 1;
      var times := TimesOf(calls, key);
      ChargedForItsOwn(buckets[..n + 1], calls[..n], answers[..n], key, capacity, rate);
      assert KeyStep(buckets[n], buckets[n + 1], calls[n], answers[n].allowed, key, capacity, rate);
      if calls[n].key == key {
        assert times[..|times| - 1] == TimesOf(calls[..n], key);
      } else {
        assert times == TimesOf(calls[..n], key);
      }
    }
  }

  /** A key that is not forgotten once it is there is admitted, among any calls of others, its
      own first call included, no more often than its capacity and what is earned between its
      calls. */
  lemma AdmissionsAmongOthersAreBounded(states: seq<Buckets>, calls: seq<Call>, answers: seq<Decision>, maxKeys: nat,
                                        key: string, effective: int, window: int, from: int, to: int)
    requires CalledAll(states, calls, answers, maxKeys) && effective >= 1 && window > 0 && from <= to
    requires Stays(states, key)
    requires forall i :: 0 <= i < |calls| && calls[i].key == key ==>
               calls[i].effective == effective && calls[i].window == window && from <= calls[i].now <= to
    requires key in states[0] ==> Holds(states[0][key], effective as real) && states[0][key].last <= from
    ensures WithinBudget(Admitted(calls, answers, key), effective as real, effective as real / window as real,
                         to - from)
  {
    var capacity, rate := effective as real, effective as real / window as real;
    RateIsPositive(effective, window);
    KeySteps(states, calls, answers, maxKeys, key, effective, window, from);
    AdmittedAmongOthers(BucketsOf(states, key, capacity, from), calls, answers, key, capacity, rate, from, to);
  }

  function BucketsOf(states: seq<Buckets>, key: string, capacity: real, from: int): (r: seq<Bucket>)
    ensures |r| == |states| && forall i :: 0 <= i < |r| ==> r[i] == BucketOf(states[i], key, capacity, from)
  {
    seq(|states|, i requires 0 <= i < |states| => BucketOf(states[i], key, capacity, from))
  }

  lemma CalledIsKeyStep(states: seq<Buckets>, calls: seq<Call>, answers: seq<Decision>, maxKeys: nat,
                        key: string, effective: int, window: int, from: int, i: nat)
    requires CalledAll(states, calls, answers, maxKeys) && i < |calls| && effective >= 1 && window > 0
    requires key in states[i] ==> key in states[i + 1]
    requires calls[i].key == key ==>
               calls[i].effective == effective && calls[i].window == window && from <= calls[i].now
    ensures var capacity := effective as real;
            KeyStep(BucketOf(states[i], key, capacity, from), BucketOf(states[i + 1], key, capacity, from), calls[i],
                    answers[i].allowed, key, capacity, capacity / window as real)
  {
    CallIsKeyStep(states[i], states[i + 1], calls[i], maxKeys, answers[i], key, from);
  }

  lemma KeySteps(states: seq<Buckets>, calls: seq<Call>, answers: seq<Decision>, maxKeys: nat,
                 key: string, effective: int, window: int, from: int)
    requires CalledAll(states, calls, answers, maxKeys) && effective >= 1 && window > 0
    requires Stays(states, key)
    requires forall i :: 0 <= i < |calls| && calls[i].key == key ==>
               calls[i].effective == effective && calls[i].window == window && from <= calls[i].now
    ensures var capacity, rate := effective as real, effective as real / window as real;
            var buckets := BucketsOf(states, key, capacity, from);
            forall i :: 0 <= i < |calls| ==>
              KeyStep(buckets[i], buckets[i + 1], calls[i], answers[i].allowed, key, capacity, rate)
  {
    var capacity, rate := effective as real, effective as real / window as real;
    var buckets := BucketsOf(states, key, capacity, from);
    forall i | 0 <= i < |calls|
      ensures KeyStep(buckets[i], buckets[i + 1], calls[i], answers[i].allowed, key, capacity, rate)
    {
      CalledIsKeyStep(states, calls, answers, maxKeys, key, effective, window, from, i);
    }
  }

  lemma AdmittedAmongOthers(buckets: seq<Bucket>, calls: seq<Call>, answers: seq<Decision>,
                            key: string, capacity: real, rate: real, from: int, to: int)
    requires |buckets| == |calls| + 1 && |answers| == |calls|
    requires forall i :: 0 <= i < |calls| ==>
               KeyStep(buckets[i], buckets[i + 1], calls[i], answers[i].allowed, key, capacity, rate)
    requires forall i :: 0 <= i < |calls| && calls[i].key == key ==> from <= calls[i].now <= to
    requires Holds(buckets[0], capacity) && buckets[0].last <= from <= to && rate >= 0.0
    ensures WithinBudget(Admitted(calls, answers, key), capacity, rate, to - from)
  {
    ChargedForItsOwn(buckets, calls, answers, key, capacity, rate);
    TimesAreWithin(calls, key, from, to);
    AdmissionsAreBounded(buckets[0], capacity, rate, TimesOf(calls, key), from, to);
  }

  lemma RateIsPositive(effective: int, window: int)
    requires effective >= 1 && window > 0
    ensures effective as real / window as real > 0.0
  {
  }

  lemma {:induction false} TimesAreWithin(calls: seq<Call>, key: string, from: int, to: int)
    requires forall i :: 0 <= i < |calls| && calls[i].key == key ==> from <= calls[i].now <= to
    ensures forall i :: 0 <= i < |TimesOf(calls, key)| ==> from <= TimesOf(calls, key)[i] <= to
    decreases |calls|
  {
    if calls != [] {
      TimesAreWithin(calls[..|calls| - 1], key, from, to);
    }
  }

  // --- Coming back ------------------------------------------------------------------------------------

  /** A refused caller's wait is exact: if nothing else is charged in between, the next call
      is admitted once it has passed and not before. */
  lemma RetryAfterIsExact(b: Bucket, effective: int, window: int, now: int, later: int)
    requires effective >= 1 && window > 0 && Holds(b, effective as real) && b.last <= now <= later
    requires !Decided(b, effective, window, now).1.allowed
    ensures var c := Decided(b, effective, window, now);
            c.1.retryAfter > 0.0
            && (Decided(c.0, effective, window, later).1.allowed <==> (later - now) as real >= c.1.retryAfter)
  {
    var capacity := effective as real;
    var rate := capacity / window as real;
    var c := Decided(b, effective, window, now);
    ChargeHolds(b, capacity, rate, now);
    Waited(1.0 - c.0.tokens, rate, (later - now) as real);
  }

  lemma Waited(missing: real, rate: real, span: real)
    requires missing > 0.0 && rate > 0.0
    ensures missing / rate > 0.0 && (span * rate >= missing <==> span >= missing / rate)
  {
    var wait := missing / rate;
    assert wait * rate == missing;
    if span >= wait {
      assert span * rate == wait * rate + (span - wait) * rate;
    } else {
      assert wait * rate == span * rate + (wait - span) * rate;
    }
  }

  /** What remains is how many more calls are admitted at the same moment: none when it is
      nothing, and one less after each. */
  lemma RemainingIsExact(b: Bucket, effective: int, window: int, now: int)
    requires effective >= 1 && window > 0 && Holds(b, effective as real)
    ensures var c := Decided(b, effective, window, now);
            var d := Decided(c.0, effective, window, now);
            && c.1.limit == effective && 0 <= c.1.remaining <= effective
            && (d.1.allowed <==> c.1.remaining > 0)
            && d.1.remaining == (if c.1.remaining > 0 then c.1.remaining - 1 else 0)
  {
    var capacity := effective as real;
    var rate := capacity / window as real;
    RateIsPositive(effective, window);
    ChargeHolds(b, capacity, rate, now);
    var tokens := Charge(b, capacity, rate, now).0.tokens;
    FloorOfOneLess(tokens);
  }

  lemma FloorOfOneLess(x: real)
    requires x >= 0.0
    ensures x >= 1.0 <==> x.Floor > 0
    ensures x >= 1.0 ==> (x - 1.0).Floor == x.Floor - 1
  {
  }

  /** And when the reset has passed without a call, the bucket is full, and not before. */
  lemma ResetIsExact(b: Bucket, effective: int, window: int, now: int, later: int)
    requires effective >= 1 && window > 0 && Holds(b, effective as real) && b.last <= now <= later
    ensures var c := Decided(b, effective, window, now);
            var capacity := effective as real;
            0.0 <= c.1.resetAfter
            && (Refilled(c.0, capacity, capacity / window as real, later).tokens == capacity
                <==> (later - now) as real >= c.1.resetAfter)
  {
    var capacity := effective as real;
    var rate := capacity / window as real;
    RateIsPositive(effective, window);
    var c := Decided(b, effective, window, now);
    ChargeHolds(b, capacity, rate, now);
    assert c.0.last == now;
    if c.0.tokens < capacity {
      Waited(capacity - c.0.tokens, rate, (later - now) as real);
    } else {
      Earned(rate, 0.0, (later - now) as real);
    }
  }

  // --- Being forgotten ----------------------------------------------------------------------------------

  /** Forgetting a bucket changes the next verdict, or what is left behind it, exactly when
      the bucket would not have been full by then. */
  lemma ForgottenExactlyWhenFull(b: Bucket, effective: int, window: int, later: int)
    requires effective >= 1 && window > 0 && Holds(b, effective as real) && b.last <= later
    ensures var capacity := effective as real;
            Decided(b, effective, window, later) == Decided(Bucket(capacity, later), effective, window, later) <==>
              b.tokens + (later - b.last) as real * (capacity / window as real) >= capacity
  {
    var capacity := effective as real;
    var rate := capacity / window as real;
    if later == b.last {
      assert (later - b.last) as real * rate == 0.0;
    }
  }

  /** Whatever bucket has been idle for w, forgetting it changes nothing. */
  ghost predicate HarmlessAfter(w: int, effective: int, window: int)
    requires window > 0
  {
    forall b, later :: Holds(b, effective as real) && b.last <= later && Idle(b, later, w) ==>
      Decided(b, effective, window, later) == Decided(Bucket(effective as real, later), effective, window, later)
  }

  lemma FullAfterItsWindow(b: Bucket, effective: int, window: int, later: int)
    requires effective >= 1 && window > 0 && Holds(b, effective as real) && Idle(b, later, window)
    ensures b.tokens + (later - b.last) as real * (effective as real / window as real) >= effective as real
  {
    var capacity := effective as real;
    var rate := capacity / window as real;
    assert window as real * rate == capacity;
    Earned(rate, window as real, (later - b.last - window) as real);
  }

  lemma NotFullBefore(effective: int, window: int, w: int)
    requires effective >= 1 && 0 <= w < window
    ensures w as real * (effective as real / window as real) < effective as real
  {
    var rate := effective as real / window as real;
    assert window as real * rate == effective as real && rate > 0.0;
    Earned(rate, w as real, (window - w) as real);
    assert (window - w) as real * rate > 0.0;
  }

  /** Making room forgets what has been idle for the window of the caller that needs it.
      That is harmless to a bucket's owner exactly when that window is no shorter than the
      owner's. */
  lemma HarmlessExactlyWhenNoShorter(effective: int, window: int, w: int)
    requires effective >= 1 && window > 0 && w >= 0
    ensures HarmlessAfter(w, effective, window) <==> w >= window
  {
    if w >= window {
      forall b, later | Holds(b, effective as real) && b.last <= later && Idle(b, later, w)
        ensures Decided(b, effective, window, later)
                == Decided(Bucket(effective as real, later), effective, window, later)
      {
        FullAfterItsWindow(b, effective, window, later);
        ForgottenExactlyWhenFull(b, effective, window, later);
      }
    } else {
      var empty := Bucket(0.0, 0);
      NotFullBefore(effective, window, w);
      ForgottenExactlyWhenFull(empty, effective, window, w);
      assert Holds(empty, effective as real) && Idle(empty, w, w);
    }
  }

  /** A caller whose new key meets a full map forgets every bucket idle for its own window. */
  lemma RoomForOneForgetsAnother(before: Buckets, after: Buckets, owner: string, other: string, e: int, w: int,
                                 now: int, maxKeys: nat, d: Decision)
    requires w > 0 && owner in before && other !in before && |before| >= maxKeys && Idle(before[owner], now, w)
    requires Called(before, after, other, e, w, now, maxKeys, d)
    ensures owner !in after
  {
    assert owner !in after - {other};
  }

  /** The next call of an owner whose bucket b was forgotten is admitted, and decided as it
      would have been with b exactly when b was full. */
  lemma AForgottenOwnerIsAdmitted(b: Bucket, before: Buckets, after: Buckets, owner: string, effective: int,
                                  window: int, now: int, maxKeys: nat, d: Decision)
    requires effective >= 1 && window > 0 && owner !in before && Holds(b, effective as real) && b.last <= now
    requires Called(before, after, owner, effective, window, now, maxKeys, d)
    ensures d.allowed
    ensures (after[owner], d) == Decided(b, effective, window, now) <==>
              b.tokens + (now - b.last) as real * (effective as real / window as real) >= effective as real
  {
    assert (after[owner], d) == Decided(Bucket(effective as real, now), effective, window, now);
    ForgottenExactlyWhenFull(b, effective, window, now);
  }

  /** So with room for one key, a budget of one call a window lets a caller through twice
      within w, when another caller with that shorter window comes in between. */
  method AdmittedTwice(window: int, w: int) returns (first: Decision, again: Decision)
    requires 0 < w < window
    ensures first.allowed && again.allowed && !Decided(Bucket(0.0, 0), 1, window, w).1.allowed
  {
    var m := new Memory(1, 1);
    first := m.Allow("owner", 1, window, 0);
    assert m.buckets["owner"] == Bucket(0.0, 0);
    ghost var before := m.buckets;
    var d := m.Allow("other", 1, w, w);
    ghost var middle := m.buckets;
    again := m.Allow("owner", 1, window, w);
    RoomForOneForgetsAnother(before, middle, "owner", "other", 1, w, w, 1, d);
    AForgottenOwnerIsAdmitted(before["owner"], middle, m.buckets, "owner", 1, window, w, 1, again);
    NotFullBefore(1, window, w);
  }

  /** Replicas together allow no more than the budget, or one each, and with one more each
      they would allow more. */
  lemma SharesStayWithinTheBudget(burst: int, replicas: int)
    requires burst > 0 && replicas > 0
    ensures replicas * Effective(burst, replicas) <= if burst > replicas then burst else replicas
    ensures burst < replicas * (Effective(burst, replicas) + 1) && Effective(burst, replicas) >= 1
  {
    assert burst == replicas * (burst / replicas) + burst % replicas;
    if burst / replicas < 1 {
      assert burst < replicas;
    }
  }
}
