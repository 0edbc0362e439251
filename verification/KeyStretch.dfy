/** Deriving a key of any length from a shared secret (section 7.2 of RFC 4253). */
module KeyStretch {
  import opened Bytes

  const DIGEST_LENGTH := 20

  /** What a hash yields, and a hash; nothing more is asked of it. */
  type Digest = s: seq<Byte> | |s| == 20 witness [0, 0, 0, 0, 0, 0, 0, 0, 0, 0, 0, 0, 0, 0, 0, 0, 0, 0, 0, 0]
  type Hash = seq<Byte> -> Digest

  /** The inputs of the derivation: K, H, the letter, and the session id. */
  datatype Inputs = Inputs(secret: seq<Byte>, exchange: Digest, letter: Byte, sessionId: seq<Byte>)

  /** K1 || ... || Kn: K1 is the hash of K, H, the letter and the session id, and every other part is the
      hash of K, H and all parts before it. */
  function Parts(hash: Hash, from: Inputs, n: nat): (r: seq<Byte>)
    ensures |r| == n * DIGEST_LENGTH
  {
    if n == 0 then []
    else if n == 1 then hash(from.secret + from.exchange + [from.letter] + from.sessionId)
    else Parts(hash, from, n - 1) + hash(from.secret + from.exchange + Parts(hash, from, n - 1))
  }

  /** How many parts a request takes. */
  function Rounds(reqlen: nat): (n: nat)
    ensures reqlen <= n * DIGEST_LENGTH < reqlen + DIGEST_LENGTH
  {
    (reqlen + DIGEST_LENGTH - 1) / DIGEST_LENGTH
  }

  /** The parts of a shorter derivation begin every longer one. */
  lemma {:induction false} PartsExtend(hash: Hash, from: Inputs, m: nat, n: nat)
    requires m <= n
    ensures Parts(hash, from, m) <= Parts(hash, from, n)
    decreases n
  {
    if m < n { PartsExtend(hash, from, m, n - 1); }
  }

  /** What is returned for a request of this length. */
  function Key(hash: Hash, from: Inputs, reqlen: nat): (r: seq<Byte>)
    ensures |r| == reqlen
  {
    Parts(hash, from, Rounds(reqlen))[..reqlen]
  }

  /** A longer request extends the result of a shorter one. */
  lemma LongerExtendsShorter(hash: Hash, from: Inputs, short: nat, long: nat)
    requires short <= long
    ensures Key(hash, from, short) <= Key(hash, from, long)
  {
    var m, n := Rounds(short), Rounds(long);
    PartsExtend(hash, from, m, n);
    assert Parts(hash, from, m)[..short] == Parts(hash, from, n)[..short];
  }

  /** Filling the buffer: `len` bytes of it are the parts so far. */
  ghost predicate Filled(buf: seq<Byte>, hash: Hash, from: Inputs, n: nat) {
    n * DIGEST_LENGTH <= |buf| && buf[..n * DIGEST_LENGTH] == Parts(hash, from, n)
  }

  /** LIBSSH2_KEX_METHOD_DIFFIE_HELLMAN_SHA1_HASH: whole parts are written, one digest beyond the request at
      most, into a buffer that has the room for it. */
  method Stretch(hash: Hash, from: Inputs, reqlen: nat) returns (value: array<Byte>)
    ensures fresh(value) && value.Length == reqlen + DIGEST_LENGTH
    ensures value[..reqlen] == Key(hash, from, reqlen)
    ensures Filled(value[..], hash, from, Rounds(reqlen))
    ensures reqlen > 0 ==> value[..20] == hash(from.secret + from.exchange + [from.letter] + from.sessionId)
    ensures forall n :: 0 < n && 20 * n < reqlen ==>
              value[20 * n..20 * n + 20] == hash(from.secret + from.exchange + value[..20 * n])
  {
    value := new Byte[reqlen + DIGEST_LENGTH];
    var len := 0;
    ghost var n := 0;
    while len < reqlen
      invariant len == n * DIGEST_LENGTH < reqlen + DIGEST_LENGTH
      invariant Filled(value[..], hash, from, n)
    {
      var fed := from.secret + from.exchange;
      if len > 0 {
        fed := fed + value[..len];
      } else {
        fed := fed + [from.letter];
        fed := fed + from.sessionId;
      }
      Store(value, len, hash(fed), hash, from, n);
      len := len + DIGEST_LENGTH;
      n := n + 1;
    }
    assert n == Rounds(reqlen);
    assert value[..][..n * DIGEST_LENGTH][..reqlen] == value[..reqlen];
    PartsAre(value[..], hash, from, n);
    forall k | 0 < k && 20 * k < reqlen
      ensures value[20 * k..20 * k + 20] == hash(from.secret + from.exchange + value[..20 * k])
    {
      PartIs(value[..], hash, from, n, k);
      assert value[..][..20 * k] == value[..20 * k] && value[..][20 * k..20 * k + 20] == value[20 * k..20 * k + 20];
    }
    if reqlen > 0 { assert value[..][..20] == value[..20]; }
  }

  /** SHA1_Final into the buffer. */
  method Store(value: array<Byte>, at: nat, digest: Digest, ghost hash: Hash, ghost from: Inputs, ghost n: nat)
    requires at == n * DIGEST_LENGTH && at + DIGEST_LENGTH <= value.Length && Filled(value[..], hash, from, n)
    requires Parts(hash, from, n + 1) == Parts(hash, from, n) + digest
    modifies value
    ensures Filled(value[..], hash, from, n + 1)
  {
    forall i | 0 <= i < DIGEST_LENGTH {
      value[at + i] := digest[i];
    }
    assert value[..at] == old(value[..at]);
    assert value[..][..at + DIGEST_LENGTH] == value[..at] + digest;
  }

  /** The first part by itself, and each further one from those before it. */
  lemma {:induction false} PartsAre(buf: seq<Byte>, hash: Hash, from: Inputs, n: nat)
    requires Filled(buf, hash, from, n)
    ensures n > 0 ==>
              |buf| >= 20 && buf[..20] == hash(from.secret + from.exchange + [from.letter] + from.sessionId)
  {
    if n > 0 {
      PartsExtend(hash, from, 1, n);
      assert Parts(hash, from, 1) == hash(from.secret + from.exchange + [from.letter] + from.sessionId);
      assert Parts(hash, from, n)[..20] == Parts(hash, from, 1);
      assert buf[..n * DIGEST_LENGTH][..20] == buf[..20];
    }
  }

  lemma {:induction false} PartIs(buf: seq<Byte>, hash: Hash, from: Inputs, n: nat, k: nat)
    requires Filled(buf, hash, from, n) && 0 < k < n
    ensures 20 * k + 20 <= |buf| && buf[20 * k..20 * k + 20] == hash(from.secret + from.exchange + buf[..20 * k])
  {
    PartsExtend(hash, from, k, n);
    PartsExtend(hash, from, k + 1, n);
    assert (k + 1) * DIGEST_LENGTH <= n * DIGEST_LENGTH;
    var before, next := Parts(hash, from, k), Parts(hash, from, k + 1);
    assert buf[..20 * k] == buf[..n * DIGEST_LENGTH][..20 * k] == before;
    assert buf[..20 * k + 20] == buf[..n * DIGEST_LENGTH][..20 * k + 20] == next;
    assert next == before + hash(from.secret + from.exchange + before);
    assert buf[20 * k..20 * k + 20] == buf[..20 * k + 20][20 * k..];
  }
}
