/** Gaps: what a writer says about events it accepted and never wrote. */
module AuditGap {
  import opened AuditSpool

  /** How many events are missing, which of the writer's own numbers they carried,
      and when it accepted them. Numbers and times start at one; zero is unset. */
  datatype Gap = Gap(count: nat, first: nat, last: nat, from: nat, to: nat)

  const NO_GAP := Gap(0, 0, 0, 0, 0)

  predicate WellFormed(g: Gap) {
    if g.count == 0 then g == NO_GAP else 0 < g.first <= g.last && 0 < g.from <= g.to
  }

  predicate Covers(g: Gap, item: Item) {
    g.count > 0 && g.first <= item.num <= g.last && g.from <= item.at <= g.to
  }

  function Min(a: nat, b: nat): nat { if a < b then a else b }

  function Max(a: nat, b: nat): nat { if a < b then b else a }

  /** The gap that stands for both: it counts what they count and reaches exactly
      from the earliest of them to the latest. */
  function AddGap(g: Gap, o: Gap): (sum: Gap)
    ensures sum.count == g.count + o.count
    ensures g.count == 0 ==> o.count == 0 || sum == o
    ensures o.count == 0 ==> sum == g
    ensures WellFormed(g) && WellFormed(o) ==> WellFormed(sum)
    ensures WellFormed(g) && WellFormed(o) && g.count > 0 && o.count > 0 ==>
              && sum.first == Min(g.first, o.first) && sum.last == Max(g.last, o.last)
              && sum.from == Min(g.from, o.from) && sum.to == Max(g.to, o.to)
  {
    if o.count == 0 then g
    else if g.count == 0 then o
    else Gap(g.count + o.count,
             if o.first != 0 && (g.first == 0 || o.first < g.first) then o.first else g.first,
             if o.last > g.last then o.last else g.last,
             if o.from != 0 && (g.from == 0 || o.from < g.from) then o.from else g.from,
             if o.to > g.to then o.to else g.to)
  }

  /** Nothing a gap covered is uncovered by adding to it. */
  lemma AddGapCovers(g: Gap, o: Gap, item: Item)
    requires WellFormed(g) && WellFormed(o)
    ensures Covers(g, item) || Covers(o, item) ==> Covers(AddGap(g, o), item)
  {
  }

  /** Two writers putting gaps back in either order leave the same gap. */
  lemma AddGapCommutes(g: Gap, o: Gap)
    requires WellFormed(g) && WellFormed(o)
    ensures AddGap(g, o) == AddGap(o, g)
  {
  }

  /** An accepted event has a number and a time. */
  predicate Accepted(item: Item) {
    item.num > 0 && item.at > 0
  }

  function OneGap(item: Item): Gap {
    Gap(1, item.num, item.num, item.at, item.at)
  }

  /** The gap a batch becomes: one event at a time. */
  function BatchGap(items: seq<Item>): Gap {
    if items == [] then NO_GAP else AddGap(BatchGap(items[..|items| - 1]), OneGap(items[|items| - 1]))
  }

  /** A batch's gap counts the batch, covers every event of it, and reaches no
      further than its first and last numbers. */
  lemma {:induction false} BatchGapIsExact(items: seq<Item>)
    requires forall i :: i in items ==> Accepted(i)
    ensures var g := BatchGap(items);
            && WellFormed(g) && g.count == |items|
            && (forall i :: i in items ==> Covers(g, i))
            && (items != [] ==>
                   (exists i :: i in items && g.first == i.num) && (exists i :: i in items && g.last == i.num))
    decreases |items|
  {
    if items != [] {
      var n := |items| - 1;
      var before, last := items[..n], items[n];
      BatchGapIsExact(before);
      assert last in items;
      forall i | i in items ensures Covers(BatchGap(items), i) {
        assert i in before || i == last;
        AddGapCovers(BatchGap(before), OneGap(last), i);
      }
    }
  }

  method GapOf(items: seq<Item>) returns (g: Gap)
    ensures g == BatchGap(items)
  {
    g := NO_GAP;
    for n := 0 to |items|
      invariant g == BatchGap(items[..n])
    {
      assert items[..n + 1][..n] == items[..n];
      g := AddGap(g, OneGap(items[n]));
    }
    assert items[..|items|] == items;
  }
}
