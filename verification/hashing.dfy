/** The bytes the audit chain hashes.
 *
 * SHA-256 is a parameter: any function from byte strings to 32-byte digests.
 * A statement that needs it to be collision free says so for the finite set
 * of byte strings actually hashed (`CollisionFree`); over all byte strings no
 * function with 32-byte results is injective.
 */
module Hashing {

  newtype Byte = b: int | 0 <= b < 256

  type Bytes = seq<Byte>

  const DIGEST_SIZE := 32

  type Digest = d: Bytes | |d| == DIGEST_SIZE
    witness [0, 0, 0, 0, 0, 0, 0, 0, 0, 0, 0, 0, 0, 0, 0, 0,
             0, 0, 0, 0, 0, 0, 0, 0, 0, 0, 0, 0, 0, 0, 0, 0]

  /** What the first row of a stream records as its predecessor. */
  const GENESIS: Digest := [0, 0, 0, 0, 0, 0, 0, 0, 0, 0, 0, 0, 0, 0, 0, 0,
                             0, 0, 0, 0, 0, 0, 0, 0, 0, 0, 0, 0, 0, 0, 0, 0]

  /** The two primitives the chain is built over: the digest, and the text a
      timestamp (microseconds since the epoch) is rendered as. */
  datatype Crypto = Crypto(sha: Bytes -> Digest, timeText: int -> Bytes)

  /** The columns a row's hash covers, in the order they are hashed. An absent
      column reads back as the empty string. */
  datatype Facts = Facts(id: Bytes, ts: int, org: Bytes, category: Bytes, action: Bytes, outcome: Bytes,
                         actorKind: Bytes, actorId: Bytes, targetKind: Bytes, targetId: Bytes)

  predicate NulFree(b: Bytes) {
    0 !in b
  }

  /** What the database's text columns guarantee: no value holds a NUL. */
  predicate TextColumns(f: Facts) {
    && NulFree(f.id) && NulFree(f.org) && NulFree(f.category) && NulFree(f.action) && NulFree(f.outcome)
    && NulFree(f.actorKind) && NulFree(f.actorId) && NulFree(f.targetKind) && NulFree(f.targetId)
  }

  /** Timestamps are rendered without NULs, and different ones differently. */
  ghost predicate FaithfulClock(c: Crypto) {
    && (forall t :: NulFree(c.timeText(t)))
    && (forall t, u :: c.timeText(t) == c.timeText(u) ==> t == u)
  }

  ghost predicate CollisionFree(c: Crypto, hashed: set<Bytes>) {
    forall x, y :: x in hashed && y in hashed && c.sha(x) == c.sha(y) ==> x == y
  }

  function Fields(c: Crypto, f: Facts): seq<Bytes> {
    [f.id, c.timeText(f.ts), f.org, f.category, f.action, f.outcome, f.actorKind, f.actorId, f.targetKind, f.targetId]
  }

  /** Each field followed by a NUL. */
  function Framed(fields: seq<Bytes>): Bytes {
    if fields == [] then [] else fields[0] + [0] + Framed(fields[1..])
  }

  function ChainPreimage(c: Crypto, prev: Digest, f: Facts, content: Digest): Bytes {
    prev + Framed(Fields(c, f)) + content
  }

  function ChainHash(c: Crypto, prev: Digest, f: Facts, content: Digest): Digest {
    c.sha(ChainPreimage(c, prev, f, content))
  }

  function ContentPreimage(c: Crypto, diff: Bytes, payload: Bytes, meta: Bytes): Bytes {
    c.sha(diff) + c.sha(payload) + c.sha(meta)
  }

  function ContentHash(c: Crypto, diff: Bytes, payload: Bytes, meta: Bytes): Digest {
    c.sha(ContentPreimage(c, diff, payload, meta))
  }

  /** A NUL-free field followed by a NUL can only be split off one way. */
  lemma FieldIsUniquelyReadable(a: Bytes, b: Bytes, restA: Bytes, restB: Bytes)
    requires NulFree(a) && NulFree(b)
    requires a + [0] + restA == b + [0] + restB
    ensures a == b && restA == restB
  {
    var whole := a + [0] + restA;
    assert whole == b + [0] + restB;
    assert forall i :: 0 <= i < |a| ==> whole[i] == a[i] && whole[i] != 0;
    assert forall i :: 0 <= i < |b| ==> whole[i] == b[i] && whole[i] != 0;
    assert whole[|a|] == 0 && whole[|b|] == 0;
    assert |a| == |b|;
    assert a == whole[..|a|] == b;
    assert restA == whole[|a| + 1..] == restB;
  }

  lemma {:induction false} FramedIsUniquelyReadable(a: seq<Bytes>, b: seq<Bytes>, restA: Bytes, restB: Bytes)
    requires |a| == |b|
    requires forall i :: 0 <= i < |a| ==> NulFree(a[i]) && NulFree(b[i])
    requires Framed(a) + restA == Framed(b) + restB
    ensures a == b && restA == restB
  {
    if a == [] {
      assert restA == Framed(a) + restA == Framed(b) + restB == restB;
    } else {
      var tailA, tailB := Framed(a[1..]) + restA, Framed(b[1..]) + restB;
      assert a[0] + [0] + tailA == Framed(a) + restA;
      assert b[0] + [0] + tailB == Framed(b) + restB;
      FieldIsUniquelyReadable(a[0], b[0], tailA, tailB);
      FramedIsUniquelyReadable(a[1..], b[1..], restA, restB);
      assert a == [a[0]] + a[1..] && b == [b[0]] + b[1..];
    }
  }

  lemma PrefixIsUniquelyReadable(a: Digest, b: Digest, restA: Bytes, restB: Bytes)
    requires a + restA == b + restB
    ensures a == b && restA == restB
  {
    assert a == (a + restA)[..DIGEST_SIZE] && b == (b + restB)[..DIGEST_SIZE];
    assert restA == (a + restA)[DIGEST_SIZE..] && restB == (b + restB)[DIGEST_SIZE..];
  }

  /** What a row hashes determines its predecessor, every fact and its content
      digest. */
  lemma ChainPreimageIsUniquelyReadable(c: Crypto, prevA: Digest, a: Facts, contentA: Digest,
                                        prevB: Digest, b: Facts, contentB: Digest)
    requires FaithfulClock(c) && TextColumns(a) && TextColumns(b)
    requires ChainPreimage(c, prevA, a, contentA) == ChainPreimage(c, prevB, b, contentB)
    ensures prevA == prevB && a == b && contentA == contentB
  {
    var fa, fb := Fields(c, a), Fields(c, b);
    assert ChainPreimage(c, prevA, a, contentA) == prevA + (Framed(fa) + contentA);
    assert ChainPreimage(c, prevB, b, contentB) == prevB + (Framed(fb) + contentB);
    PrefixIsUniquelyReadable(prevA, prevB, Framed(fa) + contentA, Framed(fb) + contentB);
    FramedIsUniquelyReadable(fa, fb, contentA, contentB);
    assert fa[0] == fb[0] && fa[1] == fb[1] && fa[2] == fb[2] && fa[3] == fb[3] && fa[4] == fb[4];
    assert fa[5] == fb[5] && fa[6] == fb[6] && fa[7] == fb[7] && fa[8] == fb[8] && fa[9] == fb[9];
  }

  /** A content digest determines the three columns it was taken over. */
  lemma ContentIsDetermined(c: Crypto, hashed: set<Bytes>, d: Bytes, p: Bytes, m: Bytes, d': Bytes, p': Bytes,
                            m': Bytes)
    requires CollisionFree(c, hashed)
    requires {d, p, m, d', p', m', ContentPreimage(c, d, p, m), ContentPreimage(c, d', p', m')} <= hashed
    requires ContentHash(c, d, p, m) == ContentHash(c, d', p', m')
    ensures d == d' && p == p' && m == m'
  {
    var whole := ContentPreimage(c, d, p, m);
    assert whole in hashed && ContentPreimage(c, d', p', m') in hashed;
    assert whole == ContentPreimage(c, d', p', m');
    assert c.sha(d) == whole[..32] == c.sha(d');
    assert c.sha(p) == whole[32..64] == c.sha(p');
    assert c.sha(m) == whole[64..] == c.sha(m');
    assert d in hashed && d' in hashed && p in hashed && p' in hashed && m in hashed && m' in hashed;
  }
}
