/** The shared budget: a sliding window of admitted calls, trimmed, charged and read in one
    step. Times are in milliseconds. */
module SlidingWindow {

  datatype Reply = Reply(allowed: bool, remaining: int, reset: int)

  predicate Rising(e: seq<int>) {
    forall j, k :: 0 <= j < k < |e| ==> e[j] <= e[k]
  }

  /** The scores above floor. */
  function Kept(e: seq<int>, floor: int): (r: seq<int>)
    ensures forall k :: 0 <= k < |r| ==> r[k] > floor
    ensures |r| <= |e|
  {
    if e == [] then []
    else Kept(e[..|e| - 1], floor) + if e[|e| - 1] > floor then [e[|e| - 1]] else []
  }

  /** A score put where it belongs. */
  function Added(e: seq<int>, x: int): (r: seq<int>)
    requires Rising(e)
    ensures Rising(r) && |r| == |e| + 1 && r[|e|] == if e == [] || e[|e| - 1] <= x then x else e[|e| - 1]
  {
    if e == [] || e[|e| - 1] <= x then e + [x]
    else Added(e[..|e| - 1], x) + [e[|e| - 1]]
  }

  lemma {:induction false} KeptRises(e: seq<int>, floor: int)
    requires Rising(e)
    ensures Rising(Kept(e, floor))
  {
    if e != [] {
      KeptRises(e[..|e| - 1], floor);
      KeptAtMost(e[..|e| - 1], floor, e[|e| - 1]);
    }
  }

  ghost predicate AtMost(e: seq<int>, x: int) {
    forall k :: 0 <= k < |e| ==> e[k] <= x
  }

  lemma {:induction false} KeptAtMost(e: seq<int>, floor: int, x: int)
    requires AtMost(e, x)
    ensures AtMost(Kept(e, floor), x)
  {
    if e != [] {
      KeptAtMost(e[..|e| - 1], floor, x);
    }
  }

  /** One key's window. */
  class Window {
    const window: nat
    const limit: nat
    var entries: seq<int>

    ghost predicate Valid()
      reads this
    {
      Rising(entries) && |entries| <= limit
    }

    constructor (window: nat, limit: nat)
      ensures Valid() && entries == [] && this.window == window && this.limit == limit
    {
      this.window, this.limit, entries := window, limit, [];
    }

    /** One call at the given time. */
    method Call(now: int) returns (r: Reply)
      requires Valid()
      modifies this
      ensures Valid() && (entries, r) == Charge(old(entries), now, window, limit)
    {
      entries, r := Script(entries, now, window, limit);
    }
  }

  /** What the script does with the sorted set. */
  method Script(e: seq<int>, now: int, window: nat, limit: nat) returns (after: seq<int>, r: Reply)
    requires Rising(e)
    ensures (after, r) == Charge(e, now, window, limit)
  {
    KeptRises(e, now - window);
    after := Kept(e, now - window);
    assert Charge(e, now, window, limit) == Admit(after, now, window, limit);
    var count := |after|;
    var allowed := false;
    if count < limit {
      after := Added(after, now);
      count := count + 1;
      allowed := true;
    }
    var reset: int := window;
    if |after| > 0 {
      reset := after[0] + window - now;
      if reset < 0 {
        reset := 0;
      }
    }
    var remaining := limit - count;
    if remaining < 0 {
      remaining := 0;
    }
    r := Reply(allowed, remaining, reset);
  }

  /** The window after a call, and the answer. */
  function Charge(e: seq<int>, now: int, window: nat, limit: nat): (r: (seq<int>, Reply))
    requires Rising(e)
    ensures Rising(r.0) && (|e| <= limit ==> |r.0| <= limit)
  {
    KeptRises(e, now - window);
    Admit(Kept(e, now - window), now, window, limit)
  }

  /** What the trimmed window decides. */
  function Admit(kept: seq<int>, now: int, window: nat, limit: nat): (r: (seq<int>, Reply))
    requires Rising(kept)
    ensures Rising(r.0) && (|kept| <= limit ==> |r.0| <= limit)
    ensures r.1.allowed <==> |kept| < limit
    ensures !r.1.allowed ==> r.0 == kept
  {
    var after := if |kept| < limit then Added(kept, now) else kept;
    var reset := if after == [] then window else if after[0] + window < now then 0 else after[0] + window - now;
    (after, Reply(|kept| < limit, if limit < |after| then 0 else limit - |after|, reset))
  }

  // --- Over a whole run -------------------------------------------------------------------------

  /** The window and the admitted calls after some calls. */
  function Run(calls: seq<int>, window: nat, limit: nat): (r: (seq<int>, seq<int>))
    ensures Rising(r.0)
  {
    if calls == [] then ([], [])
    else OneMore(Run(calls[..|calls| - 1], window, limit), calls[|calls| - 1], window, limit)
  }

  function OneMore(before: (seq<int>, seq<int>), now: int, window: nat, limit: nat): (r: (seq<int>, seq<int>))
    requires Rising(before.0)
    ensures Rising(r.0)
  {
    var c := Charge(before.0, now, window, limit);
    (c.0, if c.1.allowed then before.1 + [now] else before.1)
  }

  /** How many of the admitted calls fall in (from, to]. */
  function Within(log: seq<int>, from: int, to: int): nat {
    if log == [] then 0
    else Within(log[..|log| - 1], from, to) + if from < log[|log| - 1] <= to then 1 else 0
  }

  lemma {:induction false} KeptTwice(e: seq<int>, floor: int, higher: int)
    requires floor <= higher
    ensures Kept(Kept(e, floor), higher) == Kept(e, higher)
  {
    if e != [] {
      var rest, last := e[..|e| - 1], e[|e| - 1];
      KeptTwice(rest, floor, higher);
      if last > floor {
        assert (Kept(rest, floor) + [last])[..|Kept(rest, floor)|] == Kept(rest, floor);
      } else {
        assert Kept(rest, floor) + [] == Kept(rest, floor);
      }
    }
  }

  /** Of a rising sequence the newest are kept. */
  lemma {:induction false} TheNewestAreKept(e: seq<int>, floor: int)
    requires Rising(e)
    ensures forall k :: 0 <= k < |e| - |Kept(e, floor)| ==> e[k] <= floor
  {
    if e != [] {
      TheNewestAreKept(e[..|e| - 1], floor);
    }
  }

  /** Any limit + 1 admitted calls in a row span at least the window. */
  ghost predicate Spread(log: seq<int>, window: nat, limit: nat) {
    forall k :: 0 <= k && k + limit < |log| ==> log[k + limit] - log[k] >= window
  }

  /** After some calls, the last of them at the given time, on a clock that does not run
      backwards: the window holds exactly the admitted calls that are not older than it. */
  ghost predicate Tracks(last: int, window: nat, limit: nat, entries: seq<int>, log: seq<int>) {
    Rising(log) && Spread(log, window, limit) && AtMost(log, last) && entries == Kept(log, last - window)
  }

  lemma AddedLast(e: seq<int>, x: int)
    requires Rising(e) && AtMost(e, x)
    ensures Added(e, x) == e + [x]
  {
  }

  lemma LogGrows(log: seq<int>, now: int, window: nat, limit: nat)
    requires Rising(log) && Spread(log, window, limit) && AtMost(log, now) && |Kept(log, now - window)| < limit
    ensures Rising(log + [now]) && Spread(log + [now], window, limit) && AtMost(log + [now], now)
  {
    TheNewestAreKept(log, now - window);
  }

  lemma AdmitTracks(kept: seq<int>, log: seq<int>, now: int, window: nat, limit: nat)
    requires window > 0 && Rising(log) && Spread(log, window, limit) && AtMost(log, now)
    requires Rising(kept) && AtMost(kept, now) && kept == Kept(log, now - window)
    ensures var c := Admit(kept, now, window, limit);
            Tracks(now, window, limit, c.0, if c.1.allowed then log + [now] else log)
  {
    if |kept| < limit {
      LogGrows(log, now, window, limit);
      AddedLast(kept, now);
      AddedIsKept(log, now, window);
    }
  }

  lemma ChargeTracks(last: int, now: int, entries: seq<int>, log: seq<int>, window: nat, limit: nat)
    requires window > 0 && last <= now && Rising(entries) && Tracks(last, window, limit, entries, log)
    ensures var c := Charge(entries, now, window, limit);
            Tracks(now, window, limit, c.0, if c.1.allowed then log + [now] else log)
  {
    KeptTwice(log, last - window, now - window);
    KeptRises(log, now - window);
    KeptAtMost(log, now - window, now);
    var kept := Kept(log, now - window);
    assert Charge(entries, now, window, limit) == Admit(kept, now, window, limit);
    AdmitTracks(kept, log, now, window, limit);
  }

  lemma {:induction false} RunTracks(calls: seq<int>, window: nat, limit: nat)
    requires Rising(calls) && calls != [] && window > 0
    ensures var r := Run(calls, window, limit); Tracks(calls[|calls| - 1], window, limit, r.0, r.1)
  {
    var earlier, now := calls[..|calls| - 1], calls[|calls| - 1];
    var before := Run(earlier, window, limit);
    if earlier == [] {
      assert Tracks(now, window, limit, before.0, before.1);
      ChargeTracks(now, now, before.0, before.1, window, limit);
    } else {
      RunTracks(earlier, window, limit);
      ChargeTracks(earlier[|earlier| - 1], now, before.0, before.1, window, limit);
    }
  }

  /** A call is not trimmed by itself. */
  lemma AddedIsKept(log: seq<int>, now: int, window: nat)
    requires window > 0
    ensures Kept(log + [now], now - window) == Kept(log, now - window) + [now]
  {
    assert (log + [now])[..|log|] == log;
  }

  lemma {:induction false} SpreadBoundsEveryWindow(log: seq<int>, window: nat, limit: nat, t: int)
    requires Rising(log) && Spread(log, window, limit)
    ensures Within(log, t - window, t) <= limit
  {
    var n := |log|;
    if n > 0 {
      assert Spread(log[..n - 1], window, limit);
      SpreadBoundsEveryWindow(log[..n - 1], window, limit, t);
      if t - window < log[n - 1] <= t {
        if n > limit {
          assert log[(n - 1 - limit) + limit] - log[n - 1 - limit] >= window;
          NoneThisOld(log, n - limit, t - window, t);
        } else {
          FewEnough(log, t - window, t);
        }
      }
    }
  }

  lemma {:induction false} FewEnough(log: seq<int>, from: int, to: int)
    ensures Within(log, from, to) <= |log|
  {
    if log != [] {
      FewEnough(log[..|log| - 1], from, to);
    }
  }

  /** If the first m are too old, only the others count. */
  lemma {:induction false} NoneThisOld(log: seq<int>, m: nat, from: int, to: int)
    requires m <= |log| && forall k :: 0 <= k < m ==> log[k] <= from
    ensures Within(log, from, to) <= |log| - m
  {
    if log != [] && m < |log| {
      NoneThisOld(log[..|log| - 1], m, from, to);
    } else if log != [] {
      NoneThisOld(log[..|log| - 1], m - 1, from, to);
    }
  }

  // --- Clocks that disagree ---------------------------------------------------------------------

  /** No reading lies more than d behind an earlier one. */
  ghost predicate Behind(calls: seq<int>, d: nat) {
    forall j, k :: 0 <= j < k < |calls| ==> calls[k] >= calls[j] - d
  }

  lemma WithinOneMore(log: seq<int>, x: int, from: int, to: int)
    ensures Within(log + [x], from, to) == Within(log, from, to) + if from < x <= to then 1 else 0
  {
    assert (log + [x])[..|log|] == log;
  }

  lemma {:induction false} KeptAreWithin(e: seq<int>, floor: int, from: int, to: int)
    requires floor <= from
    ensures Within(Kept(e, floor), from, to) == Within(e, from, to)
  {
    if e != [] {
      var rest, last := e[..|e| - 1], e[|e| - 1];
      KeptAreWithin(rest, floor, from, to);
      if last > floor {
        WithinOneMore(Kept(rest, floor), last, from, to);
      } else {
        assert Kept(rest, floor) + [] == Kept(rest, floor);
      }
    }
  }

  lemma {:induction false} AddedIsWithin(e: seq<int>, x: int, from: int, to: int)
    requires Rising(e)
    ensures Within(Added(e, x), from, to) == Within(e, from, to) + if from < x <= to then 1 else 0
  {
    if e == [] || e[|e| - 1] <= x {
      WithinOneMore(e, x, from, to);
    } else {
      var rest, last := e[..|e| - 1], e[|e| - 1];
      AddedIsWithin(rest, x, from, to);
      WithinOneMore(Added(rest, x), last, from, to);
    }
  }

  /** One more call: what is trimmed, and then what is admitted. */
  lemma TrimmedThenAdmitted(before: (seq<int>, seq<int>), kept: seq<int>, now: int, window: nat, limit: nat)
    requires Rising(before.0) && kept == Kept(before.0, now - window)
    ensures Rising(kept)
    ensures OneMore(before, now, window, limit)
         == if |kept| < limit then (Added(kept, now), before.1 + [now]) else (kept, before.1)
  {
    KeptRises(before.0, now - window);
    assert Charge(before.0, now, window, limit) == Admit(kept, now, window, limit);
  }

  /** After a call what is young is both admitted and in the window, as it was before. */
  lemma YoungStays(before: (seq<int>, seq<int>), now: int, window: nat, limit: nat, from: int, to: int)
    requires Rising(before.0) && from >= now - window && Within(before.1, from, to) == Within(before.0, from, to)
    ensures var after := OneMore(before, now, window, limit); Within(after.1, from, to) == Within(after.0, from, to)
  {
    var kept := Kept(before.0, now - window);
    TrimmedThenAdmitted(before, kept, now, window, limit);
    KeptAreWithin(before.0, now - window, from, to);
    if |kept| < limit {
      AddedIsWithin(kept, now, from, to);
      WithinOneMore(before.1, now, from, to);
    }
  }

  /** Whatever the clocks read, nothing younger than the window has been trimmed, counting
      from the newest reading there has been. */
  lemma {:induction false} NothingYoungIsTrimmed(calls: seq<int>, window: nat, limit: nat, newest: int, from: int,
                                                 to: int)
    requires AtMost(calls, newest) && from >= newest - window
    ensures var r := Run(calls, window, limit); Within(r.1, from, to) == Within(r.0, from, to)
    decreases |calls|
  {
    if calls != [] {
      var earlier, now := calls[..|calls| - 1], calls[|calls| - 1];
      NothingYoungIsTrimmed(earlier, window, limit, newest, from, to);
      YoungStays(Run(earlier, window, limit), now, window, limit, from, to);
    }
  }

  lemma OneMoreFits(before: (seq<int>, seq<int>), now: int, window: nat, limit: nat, from: int, to: int)
    requires Rising(before.0) && from >= now - window
             && Within(before.1, from, to) == Within(before.0, from, to) <= limit
    ensures Within(OneMore(before, now, window, limit).1, from, to) <= limit
  {
    var kept := Kept(before.0, now - window);
    TrimmedThenAdmitted(before, kept, now, window, limit);
    if |kept| < limit {
      KeptAreWithin(before.0, now - window, from, to);
      RoomForOne(before.1, kept, now, limit, from, to);
    }
  }

  lemma RoomForOne(log: seq<int>, kept: seq<int>, now: int, limit: nat, from: int, to: int)
    requires Within(log, from, to) == Within(kept, from, to) && |kept| < limit
    ensures Within(log + [now], from, to) <= limit
  {
    FewEnough(kept, from, to);
    WithinOneMore(log, now, from, to);
  }

  lemma OutsideDoesNotCount(before: (seq<int>, seq<int>), now: int, window: nat, limit: nat, from: int, to: int)
    requires Rising(before.0) && !(from < now <= to)
    ensures Within(OneMore(before, now, window, limit).1, from, to) == Within(before.1, from, to)
  {
    WithinOneMore(before.1, now, from, to);
  }

  lemma NotFarBehind(calls: seq<int>, d: nat)
    requires Behind(calls, d) && calls != []
    ensures Behind(calls[..|calls| - 1], d) && AtMost(calls[..|calls| - 1], calls[|calls| - 1] + d)
  {
  }

  /** If no reading lies more than d behind an earlier one, no stretch shorter than the
      window by d ever holds more than the limit of admitted calls. */
  lemma {:induction false} SkewShortensTheWindow(calls: seq<int>, window: nat, limit: nat, d: nat, t: int)
    requires Behind(calls, d)
    ensures Within(Run(calls, window, limit).1, t - (window - d), t) <= limit
    decreases |calls|
  {
    if calls != [] {
      var n, from := |calls| - 1, t - (window - d);
      NotFarBehind(calls, d);
      SkewShortensTheWindow(calls[..n], window, limit, d, t);
      if from < calls[n] <= t {
        NothingYoungIsTrimmed(calls[..n], window, limit, calls[n] + d, from, t);
        OneMoreFits(Run(calls[..n], window, limit), calls[n], window, limit, from, t);
      } else {
        OutsideDoesNotCount(Run(calls[..n], window, limit), calls[n], window, limit, from, t);
      }
      assert Run(calls, window, limit) == OneMore(Run(calls[..n], window, limit), calls[n], window, limit);
    }
  }

  /** On a clock that does not run backwards, no stretch as long as the window ever holds
      more than the limit of admitted calls. */
  lemma NeverMoreThanTheLimit(calls: seq<int>, window: nat, limit: nat, t: int)
    requires Rising(calls)
    ensures Within(Run(calls, window, limit).1, t - window, t) <= limit
  {
    SkewShortensTheWindow(calls, window, limit, 0, t);
  }

  /** Whatever the run, as long as no reading lies more than d behind an earlier one, no
      stretch of this length holds more than the limit of admitted calls. */
  ghost predicate Bounds(stretch: int, window: nat, limit: nat, d: nat) {
    forall calls, t :: Behind(calls, d) ==> AdmittedIn(calls, t, stretch, window, limit) <= limit
  }

  /** How many calls of a run are admitted in a stretch that ends at t. */
  function AdmittedIn(calls: seq<int>, t: int, stretch: int, window: nat, limit: nat): nat {
    Within(Run(calls, window, limit).1, t - stretch, t)
  }

  // --- a full window, and one call more -------------------------------------------------------

  /** All of these calls are admitted, and leave this window. */
  ghost predicate Leave(calls: seq<int>, e: seq<int>, window: nat, limit: nat) {
    Run(calls, window, limit) == (e, calls)
  }

  lemma AlsoAdmitted(calls: seq<int>, e: seq<int>, more: seq<int>, kept: seq<int>, now: int, window: nat, limit: nat)
    requires Leave(calls, e, window, limit) && more == calls + [now]
    requires kept == Kept(e, now - window) && |kept| < limit
    ensures Rising(kept) && Leave(more, Added(kept, now), window, limit)
  {
    assert more[..|more| - 1] == calls;
    TrimmedThenAdmitted((e, calls), kept, now, window, limit);
  }

  ghost predicate AllAre(s: seq<int>, x: int) {
    forall k :: 0 <= k < |s| ==> s[k] == x
  }

  /** As many calls at one moment as are allowed. */
  function Burst(n: nat, x: int): (s: seq<int>)
    ensures |s| == n && AllAre(s, x)
  {
    if n == 0 then [] else Burst(n - 1, x) + [x]
  }

  lemma {:induction false} BurstIsAdmitted(n: nat, x: int, window: nat, limit: nat)
    requires n <= limit && window > 0
    ensures Leave(Burst(n, x), Burst(n, x), window, limit)
  {
    if n > 0 {
      BurstIsAdmitted(n - 1, x, window, limit);
      OneMoreInBurst(Burst(n - 1, x), Burst(n, x), x, window, limit);
    }
  }

  lemma OneMoreInBurst(burst: seq<int>, more: seq<int>, x: int, window: nat, limit: nat)
    requires AllAre(burst, x) && more == burst + [x] && |burst| < limit && window > 0
    requires Leave(burst, burst, window, limit)
    ensures Leave(more, more, window, limit)
  {
    BurstStays(burst, more, x, window);
    AlsoAdmitted(burst, burst, more, burst, x, window, limit);
  }

  lemma BurstStays(burst: seq<int>, more: seq<int>, x: int, window: nat)
    requires AllAre(burst, x) && more == burst + [x] && window > 0
    ensures Kept(burst, x - window) == burst && Rising(burst) && Added(burst, x) == more
  {
    AllAreKept(burst, x - window);
    AddedLast(burst, x);
  }

  lemma {:induction false} BurstIsWithin(n: nat, x: int, from: int, to: int)
    requires from < x <= to
    ensures Within(Burst(n, x), from, to) == n
  {
    if n > 0 {
      BurstIsWithin(n - 1, x, from, to);
      WithinOneMore(Burst(n - 1, x), x, from, to);
    }
  }

  /** A burst, a call a window later, which trims it, and one whose clock is behind: all are
      admitted. */
  lemma AllFourAdmitted(burst: seq<int>, three: seq<int>, four: seq<int>, last: seq<int>, x: int, window: nat,
                        limit: nat, t: int)
    requires window > 0 && limit >= 2 && burst == Burst(limit, x) && last == [x + window] && t <= x + window
    requires three == burst + last && four == three + [t]
    ensures Run(four, window, limit).1 == four
  {
    BurstIsAdmitted(limit, x, window, limit);
    NoneIsKept(burst, x);
    AlsoAdmitted(burst, burst, three, [], x + window, window, limit);
    AddedLast([], x + window);
    assert [] + [x + window] == last;
    LastAdmitted(three, four, last, x, window, limit, t);
  }

  lemma LastAdmitted(three: seq<int>, four: seq<int>, last: seq<int>, x: int, window: nat, limit: nat, t: int)
    requires window > 0 && limit >= 2 && last == [x + window] && t <= x + window
    requires Leave(three, last, window, limit) && four == three + [t]
    ensures Run(four, window, limit).1 == four
  {
    AllAreKept(last, t - window);
    AlsoAdmitted(three, last, four, last, t, window, limit);
  }

  lemma FourAreWithin(burst: seq<int>, three: seq<int>, four: seq<int>, limit: nat, x: int, window: nat, t: int,
                      from: int)
    requires burst == Burst(limit, x) && three == burst + [x + window] && four == three + [t] && from < x <= t
    ensures Within(four, from, t) >= limit + 1
  {
    BurstIsWithin(limit, x, from, t);
    WithinOneMore(burst, x + window, from, t);
    WithinOneMore(three, t, from, t);
  }

  lemma BurstBehind(burst: seq<int>, four: seq<int>, x: int, window: nat, d: nat)
    requires AllAre(burst, x) && four == burst + [x + window] + [x + window - d] && d <= window
    ensures Behind(four, d)
  {
    var n := |burst|;
    assert forall k :: 0 <= k < n ==> four[k] == burst[k];
    assert four[n] == x + window && four[n + 1] == x + window - d;
  }

  lemma {:induction false} LongerHoldsMore(log: seq<int>, from: int, earlier: int, to: int)
    requires earlier <= from
    ensures Within(log, from, to) <= Within(log, earlier, to)
  {
    if log != [] {
      LongerHoldsMore(log[..|log| - 1], from, earlier, to);
    }
  }

  /** Where two or more calls are allowed, a stretch is bounded exactly when it is shorter
      than the window by the skew. */
  lemma BoundsExactlyWhen(stretch: int, window: nat, limit: nat, d: nat)
    requires limit >= 2 && d <= window && window > 0
    ensures Bounds(stretch, window, limit, d) <==> stretch <= window - d
  {
    if stretch <= window - d {
      ShorterIsBounded(stretch, window, limit, d);
    } else {
      NoSmallerMargin(Burst(limit, 0) + [window] + [window - d], stretch, window, limit, d);
    }
  }

  lemma ShorterIsBounded(stretch: int, window: nat, limit: nat, d: nat)
    requires stretch <= window - d
    ensures Bounds(stretch, window, limit, d)
  {
    forall calls, t | Behind(calls, d) ensures AdmittedIn(calls, t, stretch, window, limit) <= limit {
      SkewShortensTheWindow(calls, window, limit, d, t);
      LongerHoldsMore(Run(calls, window, limit).1, t - stretch, t - (window - d), t);
    }
  }

  lemma NoSmallerMargin(four: seq<int>, stretch: int, window: nat, limit: nat, d: nat)
    requires limit >= 2 && d <= window && window > 0 && stretch > window - d
    requires four == Burst(limit, 0) + [window] + [window - d]
    ensures Behind(four, d) && AdmittedIn(four, window - d, stretch, window, limit) > limit
  {
    var burst, last := Burst(limit, 0), [window];
    BurstBehind(burst, four, 0, window, d);
    FourAreWithin(burst, burst + last, four, limit, 0, window, window - d, window - d - stretch);
    AllAdmittedIn(burst, burst + last, four, last, stretch, window, limit, window - d);
  }

  lemma AllAdmittedIn(burst: seq<int>, three: seq<int>, four: seq<int>, last: seq<int>, stretch: int, window: nat,
                      limit: nat, t: int)
    requires window > 0 && limit >= 2 && burst == Burst(limit, 0) && last == [window] && t <= window
    requires three == burst + last && four == three + [t]
    ensures AdmittedIn(four, t, stretch, window, limit) == Within(four, t - stretch, t)
  {
    AllFourAdmitted(burst, three, four, last, 0, window, limit, t);
  }

  // --- one call a window ----------------------------------------------------------------------

  /** Where one call is allowed, the window is the last one admitted, and any two admitted lie
      a window apart. */
  ghost predicate Alone(r: (seq<int>, seq<int>), window: nat) {
    && Rising(r.1) && Spread(r.1, window, 1)
    && r.0 == if r.1 == [] then [] else [r.1[|r.1| - 1]]
  }

  lemma OneMoreAlone(before: (seq<int>, seq<int>), now: int, window: nat)
    requires Rising(before.0) && Alone(before, window)
    ensures Alone(OneMore(before, now, window, 1), window)
  {
    var kept := Kept(before.0, now - window);
    TrimmedThenAdmitted(before, kept, now, window, 1);
    if before.1 != [] {
      var last := before.1[|before.1| - 1];
      if last <= now - window {
        NoneIsKept(before.0, now - window);
      } else {
        AllAreKept(before.0, now - window);
      }
    }
  }

  lemma {:induction false} RunAlone(calls: seq<int>, window: nat)
    ensures Alone(Run(calls, window, 1), window)
    decreases |calls|
  {
    if calls != [] {
      RunAlone(calls[..|calls| - 1], window);
      OneMoreAlone(Run(calls[..|calls| - 1], window, 1), calls[|calls| - 1], window);
    }
  }

  lemma {:induction false} NothingWithoutABudget(calls: seq<int>, window: nat)
    ensures Run(calls, window, 0) == ([], [])
    decreases |calls|
  {
    if calls != [] {
      NothingWithoutABudget(calls[..|calls| - 1], window);
      TrimmedThenAdmitted(([], []), [], calls[|calls| - 1], window, 0);
    }
  }

  /** A budget of one holds whatever the clocks read. */
  lemma OneHoldsOnAnyClock(calls: seq<int>, window: nat, limit: nat, t: int)
    requires limit <= 1
    ensures AdmittedIn(calls, t, window, window, limit) <= limit
  {
    if limit == 0 {
      NothingWithoutABudget(calls, window);
    } else {
      OneHolds(calls, window, t);
    }
  }

  lemma OneHolds(calls: seq<int>, window: nat, t: int)
    ensures AdmittedIn(calls, t, window, window, 1) <= 1
  {
    RunAlone(calls, window);
    AloneHolds(Run(calls, window, 1), window, t);
  }

  lemma AloneHolds(r: (seq<int>, seq<int>), window: nat, t: int)
    requires Alone(r, window)
    ensures Within(r.1, t - window, t) <= 1
  {
    SpreadBoundsEveryWindow(r.1, window, 1, t);
  }

  /** A stretch as long as the window is bounded by the limit exactly when the clocks agree
      or no more than one call is allowed. */
  lemma WindowBoundsExactlyWhen(window: nat, limit: nat, d: nat)
    requires window > 0
    ensures Bounds(window, window, limit, d) <==> d == 0 || limit <= 1
  {
    if limit <= 1 {
      forall calls, t | Behind(calls, d) ensures AdmittedIn(calls, t, window, window, limit) <= limit {
        OneHoldsOnAnyClock(calls, window, limit, t);
      }
    } else {
      var e := if d < window then d else window;
      BoundsExactlyWhen(window, window, limit, e);
      if Bounds(window, window, limit, d) {
        LessSkewIsBounded(window, window, limit, d, e);
      }
    }
  }

  lemma LessSkewIsBounded(stretch: int, window: nat, limit: nat, d: nat, e: nat)
    requires Bounds(stretch, window, limit, d) && e <= d
    ensures Bounds(stretch, window, limit, e)
  {
    forall calls, t | Behind(calls, e) ensures AdmittedIn(calls, t, stretch, window, limit) <= limit {
      assert Behind(calls, d);
    }
  }

  // --- When a refused caller may come back ----------------------------------------------------------

  lemma {:induction false} AllAreKept(e: seq<int>, floor: int)
    requires forall k :: 0 <= k < |e| ==> e[k] > floor
    ensures Kept(e, floor) == e
  {
    if e != [] {
      AllAreKept(e[..|e| - 1], floor);
      assert e == e[..|e| - 1] + [e[|e| - 1]];
    }
  }

  lemma {:induction false} OneIsDropped(e: seq<int>, floor: int)
    requires e != [] && e[0] <= floor
    ensures |Kept(e, floor)| < |e|
  {
    if |e| > 1 {
      OneIsDropped(e[..|e| - 1], floor);
    }
  }

  /** The reset of a refusal is exact: if nobody else calls in between, the next call is
      admitted when that time has passed and not before. */
  lemma ResetIsExact(e: seq<int>, now: int, window: nat, limit: nat, later: int)
    requires Rising(e) && |e| <= limit && limit >= 1 && now <= later
    requires !Charge(e, now, window, limit).1.allowed
    ensures var c := Charge(e, now, window, limit);
            0 <= c.1.reset && (Charge(c.0, later, window, limit).1.allowed <==> later >= now + c.1.reset)
  {
    var kept := Kept(e, now - window);
    KeptRises(e, now - window);
    KeptRises(kept, later - window);
    assert Charge(e, now, window, limit) == Admit(kept, now, window, limit);
    assert Charge(kept, later, window, limit) == Admit(Kept(kept, later - window), later, window, limit);
    assert Admit(kept, now, window, limit).1.reset == kept[0] + window - now;
    RoomReturns(kept, later - window);
  }

  /** What remains is how many more calls are admitted at the same moment: none when it is
      nothing, and one less after each. */
  lemma RemainingIsExact(e: seq<int>, now: int, window: nat, limit: nat)
    requires Rising(e) && |e| <= limit && AtMost(e, now) && window > 0
    ensures var c := Charge(e, now, window, limit);
            var d := Charge(c.0, now, window, limit);
            && 0 <= c.1.remaining <= limit && (d.1.allowed <==> c.1.remaining > 0)
            && d.1.remaining == (if c.1.remaining > 0 then c.1.remaining - 1 else 0)
  {
    var kept := Kept(e, now - window);
    KeptRises(e, now - window);
    KeptAtMost(e, now - window, now);
    var after := Charge(e, now, window, limit).0;
    assert Charge(e, now, window, limit) == Admit(kept, now, window, limit);
    AfterIsKept(kept, after, now, window, limit);
    assert Charge(after, now, window, limit) == Admit(after, now, window, limit);
  }

  lemma AfterIsKept(kept: seq<int>, after: seq<int>, now: int, window: nat, limit: nat)
    requires Rising(kept) && AtMost(kept, now) && window > 0 && after == Admit(kept, now, window, limit).0
    requires forall k :: 0 <= k < |kept| ==> kept[k] > now - window
    ensures Kept(after, now - window) == after
  {
    if |kept| < limit {
      AddedLast(kept, now);
    }
    AllAreKept(after, now - window);
  }

  /** The reset is when the oldest call in the window leaves it, and not before. */
  lemma OldestLeavesAtTheReset(e: seq<int>, now: int, window: nat, limit: nat, later: int)
    requires Rising(e) && AtMost(e, now) && now <= later && window > 0
    ensures LeavesAt(Charge(e, now, window, limit), now, window, later)
  {
    var kept := Kept(e, now - window);
    KeptRises(e, now - window);
    KeptAtMost(e, now - window, now);
    assert Charge(e, now, window, limit) == Admit(kept, now, window, limit);
    AdmittedLeavesAt(kept, now, window, limit, later);
  }

  ghost predicate LeavesAt(c: (seq<int>, Reply), now: int, window: nat, later: int) {
    && (c.0 == [] ==> c.1.reset == window)
    && (c.0 != [] ==> 0 <= c.1.reset && (|Kept(c.0, later - window)| < |c.0| <==> later >= now + c.1.reset))
  }

  lemma AdmittedLeavesAt(kept: seq<int>, now: int, window: nat, limit: nat, later: int)
    requires Rising(kept) && AtMost(kept, now) && now <= later && window > 0
    requires forall k :: 0 <= k < |kept| ==> kept[k] > now - window
    ensures LeavesAt(Admit(kept, now, window, limit), now, window, later)
  {
    var after := Admit(kept, now, window, limit).0;
    if after != [] {
      assert after[0] > now - window by {
        if |kept| < limit {
          AddedLast(kept, now);
        }
      }
      RoomReturns(after, later - window);
    }
  }

  lemma RoomReturns(kept: seq<int>, floor: int)
    requires Rising(kept) && kept != []
    ensures |Kept(kept, floor)| < |kept| <==> floor >= kept[0]
  {
    if floor >= kept[0] {
      OneIsDropped(kept, floor);
    } else {
      AllAreKept(kept, floor);
    }
  }

  lemma {:induction false} NoneIsKept(e: seq<int>, floor: int)
    requires AtMost(e, floor)
    ensures Kept(e, floor) == []
  {
    if e != [] {
      NoneIsKept(e[..|e| - 1], floor);
    }
  }

  /** A key left alone for a whole window may as well be forgotten: a call that comes then
      finds it as if it were new. */
  lemma ExpiryForgetsNothing(e: seq<int>, last: int, window: nat, limit: nat, later: int)
    requires Rising(e) && AtMost(e, last) && later >= last + window
    ensures Charge(e, later, window, limit) == Charge([], later, window, limit)
  {
    NoneIsKept(e, later - window);
  }
}
