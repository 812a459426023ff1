/** The names the spool gives its segments: `<order>-<count>-<instance>.ndjson`,
    the order padded with zeros so that names sort in the order they were
    written, and the count kept where a restart can read it. */
module SegmentNames {

  const SUFFIX := ".ndjson"
  const ORDER_WIDTH := 20
  const COUNT_WIDTH := 6

  /** Orders are 64-bit. */
  const ORDER_LIMIT := 0x8000_0000_0000_0000

  // --- decimal text -----------------------------------------------------------------

  function Digit(d: nat): char
    requires d < 10
  {
    '0' + d as char
  }

  predicate IsDigit(c: char) {
    '0' <= c <= '9'
  }

  function DigitValue(c: char): (d: nat)
    requires IsDigit(c)
    ensures d < 10
  {
    (c - '0') as nat
  }

  /** n in decimal, padded with zeros to at least `width` characters. */
  function Pad(n: nat, width: nat): (s: string)
    ensures |s| >= width && forall i :: 0 <= i < |s| ==> IsDigit(s[i])
    ensures n > 0 || width > 0 ==> s != ""
    decreases n, width
  {
    if n == 0 && width == 0 then ""
    else Pad(n / 10, if width > 0 then width - 1 else 0) + [Digit(n % 10)]
  }

  /** What reading a run of digits gives; anything else reads as zero, as a parse
      error does. */
  function ParseDigits(s: string): nat {
    if s != "" && (forall i :: 0 <= i < |s| ==> IsDigit(s[i])) then Value(s) else 0
  }

  function Value(s: string): nat
    requires forall i :: 0 <= i < |s| ==> IsDigit(s[i])
  {
    if s == "" then 0 else Value(s[..|s| - 1]) * 10 + DigitValue(s[|s| - 1])
  }

  lemma {:induction false} PadReadsBack(n: nat, width: nat)
    ensures Value(Pad(n, width)) == n
    decreases n, width
  {
    if n > 0 || width > 0 {
      var w := if width > 0 then width - 1 else 0;
      PadReadsBack(n / 10, w);
      assert Pad(n, width)[..|Pad(n, width)| - 1] == Pad(n / 10, w);
    }
  }

  // --- order of names ----------------------------------------------------------------

  /** Byte-wise string order. */
  predicate Less(a: string, b: string) {
    if a == "" then b != ""
    else if b == "" then false
    else a[0] < b[0] || (a[0] == b[0] && Less(a[1..], b[1..]))
  }

  function Pow10(n: nat): nat {
    if n == 0 then 1 else 10 * Pow10(n - 1)
  }

  /** What makes one string sort before another: the first place they differ. */
  lemma {:induction false} LessAt(a: string, b: string, k: nat)
    requires k < |a| && k < |b| && a[..k] == b[..k] && a[k] < b[k]
    ensures Less(a, b) && !Less(b, a)
  {
    if k > 0 {
      assert a[0] == a[..k][0] == b[..k][0] == b[0];
      assert a[1..][..k - 1] == a[..k][1..] == b[..k][1..] == b[1..][..k - 1];
      LessAt(a[1..], b[1..], k - 1);
    }
  }

  lemma {:induction false} PadHasWidth(n: nat, width: nat)
    requires n < Pow10(width)
    ensures |Pad(n, width)| == width
  {
    if width > 0 {
      assert n / 10 < Pow10(width - 1);
      PadHasWidth(n / 10, width - 1);
    }
  }

  /** Padded numbers differ first at a digit where the smaller number's is
      smaller. */
  lemma {:induction false} PadSorts(m: nat, n: nat, width: nat) returns (k: nat)
    requires m < n < Pow10(width)
    ensures |Pad(m, width)| == |Pad(n, width)| == width && k < width
    ensures Pad(m, width)[..k] == Pad(n, width)[..k] && Pad(m, width)[k] < Pad(n, width)[k]
  {
    PadHasWidth(m, width);
    PadHasWidth(n, width);
    var a, b := Pad(m, width), Pad(n, width);
    var a', b' := Pad(m / 10, width - 1), Pad(n / 10, width - 1);
    assert a == a' + [Digit(m % 10)] && b == b' + [Digit(n % 10)];
    if m / 10 == n / 10 {
      k := width - 1;
      assert a[..k] == a' && b[..k] == b';
    } else {
      k := PadSorts(m / 10, n / 10, width - 1);
      assert a[..k] == a'[..k] && b[..k] == b'[..k];
    }
  }

  // --- segment names ------------------------------------------------------------------

  function SegmentName(order: nat, count: nat, instance: string): string {
    Pad(order, ORDER_WIDTH) + "-" + Pad(count, COUNT_WIDTH) + "-" + instance + SUFFIX
  }

  /** Where c first occurs in s; |s| when it does not. */
  function IndexOf(s: string, c: char): (i: nat)
    ensures i <= |s| && (forall j :: 0 <= j < i ==> s[j] != c) && (i < |s| ==> s[i] == c)
  {
    if s == "" || s[0] == c then 0 else 1 + IndexOf(s[1..], c)
  }

  function TrimSuffix(s: string): string {
    if |s| >= |SUFFIX| && s[|s| - |SUFFIX|..] == SUFFIX then s[..|s| - |SUFFIX|] else s
  }

  /** The order and the count read back out of a name. */
  function ParseSegmentName(name: string): (nat, nat) {
    var base := TrimSuffix(name);
    var i := IndexOf(base, '-');
    if i == |base| then (0, 0)
    else
      var right := base[i + 1..];
      (ParseDigits(base[..i]), ParseDigits(right[..IndexOf(right, '-')]))
  }

  lemma DigitsBeforeADash(digits: string, rest: string)
    requires forall i :: 0 <= i < |digits| ==> IsDigit(digits[i])
    ensures IndexOf(digits + "-" + rest, '-') == |digits|
  {
    var s := digits + "-" + rest;
    var i := IndexOf(s, '-');
    assert s[|digits|] == '-';
    assert forall j :: 0 <= j < |digits| ==> s[j] == digits[j];
  }

  /** A restart reads from a name what was written into it, whatever the instance
      is called. */
  lemma SegmentNameReadsBack(order: nat, count: nat, instance: string)
    ensures ParseSegmentName(SegmentName(order, count, instance)) == (order, count)
  {
    var left, mid := Pad(order, ORDER_WIDTH), Pad(count, COUNT_WIDTH);
    var name := SegmentName(order, count, instance);
    var tail := mid + "-" + instance;
    var base := left + "-" + tail;
    assert name == base + SUFFIX;
    assert name[|name| - |SUFFIX|..] == SUFFIX && TrimSuffix(name) == base;
    DigitsBeforeADash(left, tail);
    assert base[..|left|] == left && base[|left| + 1..] == tail;
    DigitsBeforeADash(mid, instance);
    assert tail[..|mid|] == mid;
    PadReadsBack(order, ORDER_WIDTH);
    PadReadsBack(count, COUNT_WIDTH);
  }

  lemma OrdersFitTheirWidth()
    ensures Pow10(ORDER_WIDTH) > ORDER_LIMIT
  {
    assert Pow10(10) == 10_000_000_000;
    assert Pow10(20) == 10_000_000_000 * 10_000_000_000;
  }

  /** Names sort in the order the segments were written. */
  lemma NamesSortByOrder(m: nat, n: nat, countM: nat, countN: nat, instance: string)
    requires m < n < ORDER_LIMIT
    ensures Less(SegmentName(m, countM, instance), SegmentName(n, countN, instance))
    ensures !Less(SegmentName(n, countN, instance), SegmentName(m, countM, instance))
  {
    OrdersFitTheirWidth();
    var k := PadSorts(m, n, ORDER_WIDTH);
    var a, b := Pad(m, ORDER_WIDTH), Pad(n, ORDER_WIDTH);
    var nameA, nameB := SegmentName(m, countM, instance), SegmentName(n, countN, instance);
    assert nameA[..k] == a[..k] && nameB[..k] == b[..k] && nameA[k] == a[k] && nameB[k] == b[k];
    LessAt(nameA, nameB, k);
  }
}
