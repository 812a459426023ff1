/** The spool: a bounded queue of segments in a directory of this replica's own.
    The directory outlives the process; everything else is rebuilt from it. */
module AuditSpool {
  import opened Collections
  import opened SegmentNames

  /** How many events one segment holds at most. */
  const SEGMENT_MAX := 200

  /** n events are some number of full segments. */
  predicate FullSegments(n: nat) {
    n == 0 || (n >= SEGMENT_MAX && FullSegments(n - SEGMENT_MAX))
  }

  /** An event as the writer accepted it: its own number for the event, when it
      was accepted, and the bytes its line takes on disk. */
  datatype Item = Item(num: nat, at: nat, size: nat)

  /** A segment's file, by what its name says: the order it was written in and how
      many events it holds. The text of the name is `Text`. */
  datatype Segment = Segment(order: nat, count: nat)

  type Directory = map<Segment, seq<Item>>

  function Text(f: Segment, instance: string): string {
    SegmentName(f.order, f.count, instance)
  }

  // --- what a directory holds ----------------------------------------------------------

  /** Every file's name tells how many events it holds. */
  ghost predicate FilesOk(disk: Directory, next: int) {
    forall f :: f in disk ==> f.order < next && f.count == |disk[f]|
  }

  /** And no two files share an order. */
  ghost predicate DirectoryOk(disk: Directory, next: int) {
    FilesOk(disk, next) && forall f, g :: f in disk && g in disk && f.order == g.order ==> f == g
  }

  ghost predicate ByOrder(names: seq<Segment>) {
    forall i, j :: 0 <= i < j < |names| ==> names[i].order < names[j].order
  }

  ghost predicate Lists(names: seq<Segment>, disk: Directory) {
    forall f :: f in names <==> f in disk
  }

  /** The events on disk, oldest segment first. */
  function Waiting(disk: Directory, names: seq<Segment>): seq<Item>
    requires forall f :: f in names ==> f in disk
  {
    if names == [] then [] else disk[names[0]] + Waiting(disk, names[1..])
  }

  function SizeOf(items: seq<Item>): nat {
    if items == [] then 0 else items[0].size + SizeOf(items[1..])
  }

  /** What was oldest still is. */
  predicate SameHead(before: seq<Segment>, names: seq<Segment>) {
    before != [] ==> names != [] && names[0] == before[0]
  }

  /** The index a replica keeps of its directory. */
  ghost predicate IndexOk(disk: Directory, names: seq<Segment>, order: int, events: int, bytes: int) {
    && FilesOk(disk, order)
    && ByOrder(names) && Lists(names, disk)
    && events == |Waiting(disk, names)| && bytes == SizeOf(Waiting(disk, names))
  }

  class Spool {
    const instance: string
    const maxBytes: int
    var disk: Directory
    var names: seq<Segment>
    var events: int
    var bytes: int
    var order: int

    /** The events on disk, oldest first. */
    ghost var held: seq<Item>

    ghost predicate Valid()
      reads this
    {
      IndexOk(disk, names, order, events, bytes) && held == Waiting(disk, names)
    }

    /** Opens a directory an earlier process may have left something in. */
    constructor (disk: Directory, instance: string, maxBytes: int)
      requires DirectoryOk(disk, ORDER_LIMIT) // orders are 64-bit
      ensures Valid() && this.disk == disk && this.instance == instance && this.maxBytes == maxBytes
    {
      this.instance, this.maxBytes, this.disk := instance, maxBytes, disk;
      var names, events, bytes, next := ScanDirectory(disk, instance);
      this.names, this.events, this.bytes := names, events, bytes;
      this.order := next;
      this.held := Waiting(disk, names);
    }

    method Empty() returns (empty: bool)
      requires Valid()
      ensures empty <==> names == []
      ensures empty ==> held == []
    {
      empty := names == [];
    }

    /** Takes over a directory and an index of it. */
    method Reindex(files: Directory, listed: seq<Segment>, count: int, size: int)
      requires IndexOk(files, listed, order, count, size)
      modifies this`disk, this`names, this`events, this`bytes, this`held
      ensures disk == files && names == listed && events == count && bytes == size
      ensures Valid() && held == Waiting(files, listed)
    {
      disk, names, events, bytes, held := files, listed, count, size, Waiting(files, listed);
    }

    /** Writes one segment durably. `stored` is whether the disk takes it. */
    method WriteSegment(items: seq<Item>, now: nat, stored: bool) returns (ok: bool)
      requires Valid()
      modifies this`disk, this`names, this`events, this`bytes, this`order, this`held
      ensures Valid()
      ensures ok <==> stored && old(bytes) + SizeOf(items) <= maxBytes
      ensures held == if ok then old(held) + items else old(held)
      ensures SameHead(old(names), names)
    {
      var size := BodySize(items);
      if bytes + size > maxBytes {
        return false;
      }
      var mine := if order > now then order else now;
      order := mine + 1;
      if !stored {
        return false;
      }
      var name := Segment(mine, |items|);
      var files, listed := disk[name := items], names + [name];
      NewestGoesLast(disk, names, old(order), events, bytes, mine, items);
      Reindex(files, listed, events + |items|, bytes + size);
      ok := true;
    }

    /** Puts a batch on disk, a segment at a time. The disk takes segments that start
        below event `room` and then gives out; the segments before stay written, and
        `written` is how many events they hold. */
    method Write(items: seq<Item>, now: nat, room: nat) returns (ok: bool, written: nat)
      requires Valid()
      modifies this`disk, this`names, this`events, this`bytes, this`order, this`held
      ensures Valid()
      ensures written <= |items| && held == old(held) + items[..written]
      ensures ok <==> written == |items|
      ensures !ok ==> FullSegments(written)
      ensures SameHead(old(names), names)
    {
      written := 0;
      ghost var before, first := held, names;
      while written < |items|
        invariant Valid() && Grown(before, held, first, names, items, written)
      {
        ghost var listed, waiting := names, held;
        var n := if |items| - written < SEGMENT_MAX then |items| - written else SEGMENT_MAX;
        ok := WriteSegment(items[written..written + n], now, written < room);
        GrownMore(before, waiting, held, first, listed, names, items, written, n, ok);
        if !ok {
          return false, written;
        }
        written := written + n;
      }
      assert items[..written] == items;
      ok := true;
    }

    /** The segment that has waited longest. */
    method Oldest() returns (segment: Option<(Segment, seq<Item>)>)
      requires Valid()
      ensures segment.None? <==> names == []
      ensures segment.Some? ==>
                segment.value == (names[0], disk[names[0]]) && held == segment.value.1 + Waiting(disk, names[1..])
    {
      if names == [] {
        return None;
      }
      return Some((names[0], disk[names[0]]));
    }

    /** Drops a segment that has been replayed. `removed` is whether the disk let
        it go. */
    method Remove(name: Segment, removed: bool) returns (ok: bool)
      requires Valid() && names != [] && name == names[0]
      modifies this`disk, this`names, this`events, this`bytes, this`held
      ensures Valid() && ok == removed
      ensures ok ==> name in old(disk) && old(held) == old(disk)[name] + held
      ensures ok ==> names == old(names)[1..] && disk == old(disk) - {name}
      ensures !ok ==> held == old(held) && names == old(names) && disk == old(disk)
    {
      if !removed {
        return false;
      }
      var files, listed, fewer, smaller := Dropped(disk, names, order, events, bytes);
      Reindex(files, listed, fewer, smaller);
      ok := true;
    }
  }

  /** The directory and its index without the segment that was oldest. */
  method Dropped(disk: Directory, names: seq<Segment>, ghost order: int, events: int, bytes: int)
    returns (disk': Directory, names': seq<Segment>, events': int, bytes': int)
    requires IndexOk(disk, names, order, events, bytes) && names != []
    ensures IndexOk(disk', names', order, events', bytes')
    ensures names' == names[1..] && disk' == disk - {names[0]}
    ensures names[0] in disk && Waiting(disk, names) == disk[names[0]] + Waiting(disk', names')
  {
    var name := names[0];
    OldestGoesFirst(disk, names, order, events, bytes);
    var size := BodySize(disk[name]);
    names', events', bytes' := Forget(names, events, bytes, name, size);
    disk' := disk - {name};
  }

  method BodySize(items: seq<Item>) returns (size: nat)
    ensures size == SizeOf(items)
  {
    size := 0;
    for i := 0 to |items|
      invariant size + SizeOf(items[i..]) == SizeOf(items)
    {
      assert items[i..][1..] == items[i + 1..];
      size := size + items[i].size;
    }
  }

  /** Takes a name out of the index, with the counts that go with it. */
  method Forget(names: seq<Segment>, events: int, bytes: int, name: Segment, size: nat)
    returns (names': seq<Segment>, events': int, bytes': int)
    requires name in names
    ensures names != [] && names[0] == name ==> names' == names[1..]
    ensures events' == (if events < name.count then 0 else events - name.count)
    ensures bytes' == if bytes < size then 0 else bytes - size
  {
    var i := 0;
    while names[i] != name
      invariant i < |names| && name in names[i..]
      invariant forall j :: 0 <= j < i ==> names[j] != name
      decreases |names| - i
    {
      assert names[i..] == [names[i]] + names[i + 1..];
      i := i + 1;
    }
    names' := names[..i] + names[i + 1..];
    events' := if events < name.count then 0 else events - name.count;
    bytes' := if bytes < size then 0 else bytes - size;
  }

  /** Rebuilds the index from the directory alone. */
  method ScanDirectory(disk: Directory, instance: string)
    returns (names: seq<Segment>, events: int, bytes: int, next: int)
    requires DirectoryOk(disk, ORDER_LIMIT)
    ensures IndexOk(disk, names, next, events, bytes) && next >= 0
  {
    names, events, bytes, next := [], 0, 0, 0;
    var rest := disk.Keys;
    while rest != {}
      invariant rest <= disk.Keys && next >= 0
      invariant forall f :: f in names <==> f in disk && f !in rest
      invariant forall f :: f in names ==> f.order < next
      invariant ByOrder(names)
      invariant events == |Waiting(disk, names)| && bytes == SizeOf(Waiting(disk, names))
      decreases |rest|
    {
      var name := Any(rest);
      var (order, count) := ParseSegmentName(Text(name, instance));
      SegmentNameReadsBack(name.order, name.count, instance);
      var size := BodySize(disk[name]);
      names := InsertName(disk, instance, names, name);
      events := events + count;
      bytes := bytes + size;
      next := if next > order + 1 then next else order + 1;
      rest := rest - {name};
    }
  }

  /** Puts a name where it sorts. */
  method InsertName(disk: Directory, instance: string, names: seq<Segment>, name: Segment)
    returns (sorted: seq<Segment>)
    requires DirectoryOk(disk, ORDER_LIMIT) && ByOrder(names)
    requires name in disk && name !in names && forall f :: f in names ==> f in disk
    ensures ByOrder(sorted) && (forall f :: f in sorted <==> f in names || f == name)
    ensures |Waiting(disk, sorted)| == |Waiting(disk, names)| + |disk[name]|
    ensures SizeOf(Waiting(disk, sorted)) == SizeOf(Waiting(disk, names)) + SizeOf(disk[name])
  {
    var i := 0;
    while i < |names| && Less(Text(names[i], instance), Text(name, instance))
      invariant 0 <= i <= |names|
      invariant forall j :: 0 <= j < i ==> names[j].order < name.order
    {
      NamesAgree(disk, instance, names[i], name);
      i := i + 1;
    }
    if i < |names| {
      NamesAgree(disk, instance, names[i], name);
      assert names[i].order != name.order;
    }
    sorted := names[..i] + [name] + names[i..];
    InsertSorts(names, i, name);
    WaitingInsert(disk, names, i, name);
  }

  /** The first `written` events of a batch have joined what waited. */
  ghost predicate Grown(before: seq<Item>, held: seq<Item>, first: seq<Segment>, names: seq<Segment>, items: seq<Item>,
                        written: nat) {
    && written <= |items| && held == before + items[..written] && SameHead(first, names)
    && (written < |items| ==> FullSegments(written))
  }

  lemma GrownMore(before: seq<Item>, waiting: seq<Item>, held: seq<Item>, first: seq<Segment>, listed: seq<Segment>,
                  names: seq<Segment>, items: seq<Item>, written: nat, n: nat, ok: bool)
    requires Grown(before, waiting, first, listed, items, written) && SameHead(listed, names) && written < |items|
    requires n == if |items| - written < SEGMENT_MAX then |items| - written else SEGMENT_MAX
    requires held == if ok then waiting + items[written..written + n] else waiting
    ensures Grown(before, held, first, names, items, if ok then written + n else written)
  {
    TakeMore(before, items, written, n);
  }

  lemma TakeMore(before: seq<Item>, items: seq<Item>, i: nat, n: nat)
    requires i + n <= |items|
    ensures before + items[..i] + items[i..i + n] == before + items[..i + n]
  {
    assert items[..i] + items[i..i + n] == items[..i + n];
  }

  // --- proof steps ------------------------------------------------------------------

  lemma NamesAgree(disk: Directory, instance: string, a: Segment, b: Segment)
    requires DirectoryOk(disk, ORDER_LIMIT) && a in disk && b in disk && a != b
    ensures Less(Text(a, instance), Text(b, instance)) <==> a.order < b.order
  {
    if a.order < b.order {
      NamesSortByOrder(a.order, b.order, a.count, b.count, instance);
    } else {
      NamesSortByOrder(b.order, a.order, b.count, a.count, instance);
    }
  }

  lemma InsertSorts(names: seq<Segment>, i: nat, name: Segment)
    requires ByOrder(names) && i <= |names|
    requires forall j :: 0 <= j < i ==> names[j].order < name.order
    requires i < |names| ==> name.order < names[i].order
    ensures ByOrder(names[..i] + [name] + names[i..])
    ensures forall f :: f in names[..i] + [name] + names[i..] <==> f in names || f == name
  {
    assert names == names[..i] + names[i..];
  }

  lemma {:induction false} WaitingConcat(disk: Directory, a: seq<Segment>, b: seq<Segment>)
    requires forall f :: f in a + b ==> f in disk
    ensures forall f :: f in a ==> f in disk
    ensures forall f :: f in b ==> f in disk
    ensures Waiting(disk, a + b) == Waiting(disk, a) + Waiting(disk, b)
  {
    assert forall f :: f in a ==> f in a + b;
    assert forall f :: f in b ==> f in a + b;
    if a == [] {
      assert a + b == b;
    } else {
      assert (a + b)[1..] == a[1..] + b;
      WaitingConcat(disk, a[1..], b);
    }
  }

  lemma {:induction false} SizeConcat(a: seq<Item>, b: seq<Item>)
    ensures SizeOf(a + b) == SizeOf(a) + SizeOf(b)
  {
    if a == [] {
      assert a + b == b;
    } else {
      assert (a + b)[1..] == a[1..] + b;
      SizeConcat(a[1..], b);
    }
  }

  lemma WaitingInsert(disk: Directory, names: seq<Segment>, i: nat, name: Segment)
    requires i <= |names| && name in disk && forall f :: f in names ==> f in disk
    ensures var sorted := names[..i] + [name] + names[i..];
            && (forall f :: f in sorted ==> f in disk)
            && |Waiting(disk, sorted)| == |Waiting(disk, names)| + |disk[name]|
            && SizeOf(Waiting(disk, sorted)) == SizeOf(Waiting(disk, names)) + SizeOf(disk[name])
  {
    var a, b := names[..i], names[i..];
    assert names == a + b;
    WaitingConcat(disk, a, b);
    var tail := [name] + b;
    assert a + [name] + b == a + tail && tail[1..] == b;
    WaitingConcat(disk, a, tail);
    SizeConcat(Waiting(disk, a), Waiting(disk, b));
    SizeConcat(disk[name], Waiting(disk, b));
    SizeConcat(Waiting(disk, a), Waiting(disk, tail));
  }

  lemma {:induction false} WaitingUnchanged(disk: Directory, disk': Directory, names: seq<Segment>)
    requires forall f :: f in names ==> f in disk && f in disk' && disk[f] == disk'[f]
    ensures Waiting(disk, names) == Waiting(disk', names)
  {
    if names != [] {
      WaitingUnchanged(disk, disk', names[1..]);
    }
  }

  lemma NewestGoesLast(disk: Directory, names: seq<Segment>, order: int, events: int, bytes: int, mine: nat,
                       items: seq<Item>)
    requires IndexOk(disk, names, order, events, bytes) && mine >= order
    ensures var name := Segment(mine, |items|);
            && name !in disk
            && IndexOk(disk[name := items], names + [name], mine + 1, events + |items|, bytes + SizeOf(items))
            && Waiting(disk[name := items], names + [name]) == Waiting(disk, names) + items
            && SameHead(names, names + [name])
  {
    var name := Segment(mine, |items|);
    var disk' := disk[name := items];
    assert name !in disk;
    WaitingUnchanged(disk, disk', names);
    WaitingConcat(disk', names, [name]);
    assert Waiting(disk', [name]) == items;
    SizeConcat(Waiting(disk, names), items);
    assert forall i :: 0 <= i < |names| ==> names[i] in names;
  }

  lemma OldestGoesFirst(disk: Directory, names: seq<Segment>, order: int, events: int, bytes: int)
    requires names != [] && IndexOk(disk, names, order, events, bytes)
    ensures var name := names[0]; var items := disk[name];
            && name in names && name in disk && name.count == |items| && events >= |items| && bytes >= SizeOf(items)
            && IndexOk(disk - {name}, names[1..], order, events - |items|, bytes - SizeOf(items))
            && Waiting(disk - {name}, names[1..]) == Waiting(disk, names[1..])
  {
    var name, rest := names[0], names[1..];
    assert name in names;
    HeadsAreSeparate(names);
    WaitingUnchanged(disk, disk - {name}, rest);
    SizeConcat(disk[name], Waiting(disk, rest));
  }

  /** A directory in use can be opened again. */
  lemma InUseMeansOpenable(disk: Directory, names: seq<Segment>, order: int, events: int, bytes: int)
    requires IndexOk(disk, names, order, events, bytes)
    ensures DirectoryOk(disk, order)
  {
    forall f, g | f in disk && g in disk && f.order == g.order ensures f == g {
      var i :| 0 <= i < |names| && names[i] == f;
      var j :| 0 <= j < |names| && names[j] == g;
    }
  }

  /** The directory alone fixes the index: a restart comes back with the segments
      in the order they were written. */
  lemma {:induction false} RestartKeepsTheOrder(a: seq<Segment>, b: seq<Segment>)
    requires ByOrder(a) && ByOrder(b)
    requires forall f :: f in a <==> f in b
    ensures a == b
  {
    assert a != [] ==> a[0] in b;
    assert b != [] ==> b[0] in a;
    if a != [] {
      HeadsAreSeparate(a);
      HeadsAreSeparate(b);
      RestartKeepsTheOrder(a[1..], b[1..]);
    }
  }

  /** Whatever index a reopened spool builds, it holds the same events in the same
      order as the one before it. */
  lemma ReopeningKeepsEverything(disk: Directory, a: seq<Segment>, orderA: int, eventsA: int, bytesA: int,
                                 b: seq<Segment>, orderB: int, eventsB: int, bytesB: int)
    requires IndexOk(disk, a, orderA, eventsA, bytesA) && IndexOk(disk, b, orderB, eventsB, bytesB)
    ensures a == b && eventsA == eventsB && bytesA == bytesB
  {
    RestartKeepsTheOrder(a, b);
  }

  lemma HeadsAreSeparate(a: seq<Segment>)
    requires a != [] && ByOrder(a)
    ensures forall f :: f in a[1..] <==> f in a && f != a[0]
    ensures forall f :: f in a ==> a[0].order <= f.order
  {
    assert a == [a[0]] + a[1..];
    forall f | f in a[1..] ensures f != a[0] {
      var i :| 0 <= i < |a[1..]| && a[1..][i] == f;
      assert a[0].order < a[i + 1].order;
    }
  }
}
