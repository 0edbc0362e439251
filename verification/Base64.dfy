/** Decoding base64 (section 4 of RFC 4648) with a bit accumulator in the output buffer. */
module Base64 {
  import opened Options

  type Octet = bv8
  type Sextet = v: bv8 | v < 64

  datatype Result<+T> = Ok(value: T) | Invalid

  const PAD: Octet := 61

  /** The character for six bits. */
  function Char(v: Sextet): Octet {
    if v < 26 then v + 65 else if v < 52 then v + 71 else if v < 62 then v - 4 else if v == 62 then 43 else 47
  }

  /** The reverse table; what is no character of the alphabet has no value there. */
  function Value(c: Octet): Option<Sextet> {
    if 65 <= c <= 90 then Some(c - 65)
    else if 97 <= c <= 122 then Some(c - 71)
    else if 48 <= c <= 57 then Some(c + 4)
    else if c == 43 then Some(62)
    else if c == 47 then Some(63)
    else None
  }

  /** The two tables are inverse to each other. */
  lemma {:induction false} ValueOfChar(v: Sextet)
    ensures Value(Char(v)) == Some(v)
  {
  }

  lemma {:induction false} CharOfValue(c: Octet)
    ensures Value(c).Some? ==> Char(Value(c).value) == c
  {
  }

  /** The values of the characters of the alphabet in a text, in order; everything else is dropped. */
  function Values(text: seq<Octet>): (s: seq<Sextet>)
    ensures |s| <= |text|
  {
    if text == [] then []
    else
      var front := Values(text[..|text| - 1]);
      var v := Value(text[|text| - 1]);
      if v.Some? then front + [v.value] else front
  }

  // ---------- bits regrouped ----------

  /** The octets of a group of four sextets, each from two neighbours. */
  function Join1(v: Octet, w: Octet): Octet { (v << 2) | (w >> 4) }
  function Join2(v: Octet, w: Octet): Octet { (v << 4) | (w >> 2) }
  function Join3(v: Octet, w: Octet): Octet { (v << 6) | w }

  /** The sextets of a group of three octets. */
  function Cut1(x: Octet): Sextet { x >> 2 }
  function Cut2(x: Octet, y: Octet): Sextet { ((x & 3) << 4) | (y >> 4) }
  function Cut3(y: Octet, z: Octet): Sextet { ((y & 15) << 2) | (z >> 6) }
  function Cut4(z: Octet): Sextet { z & 63 }

  /** An octet or sextet, or the zero bits behind the last one. */
  function OrZero(b: seq<Octet>, i: nat): Octet {
    if i < |b| then b[i] else 0
  }

  /** Octet r of group q of the bits of these sextets. */
  function OctetOf(s: seq<Octet>, q: nat, r: nat): Octet {
    if r == 0 then Join1(OrZero(s, 4 * q), OrZero(s, 4 * q + 1))
    else if r == 1 then Join2(OrZero(s, 4 * q + 1), OrZero(s, 4 * q + 2))
    else Join3(OrZero(s, 4 * q + 2), OrZero(s, 4 * q + 3))
  }

  /** Sextet r of group q of the bits of these octets. */
  function SextetOf(b: seq<Octet>, q: nat, r: nat): Sextet {
    if r == 0 then Cut1(OrZero(b, 3 * q))
    else if r == 1 then Cut2(OrZero(b, 3 * q), OrZero(b, 3 * q + 1))
    else if r == 2 then Cut3(OrZero(b, 3 * q + 1), OrZero(b, 3 * q + 2))
    else Cut4(OrZero(b, 3 * q + 2))
  }

  /** How many octets n sextets make up in full, and how many sextets n octets take. */
  function FullOctets(n: nat): nat { 3 * n / 4 }
  function SextetsFor(n: nat): nat { (4 * n + 2) / 3 }

  lemma {:induction false} CountsMatch(n: nat)
    ensures FullOctets(SextetsFor(n)) == n && SextetsFor(n) % 4 != 1
    ensures n % 4 != 1 ==> SextetsFor(FullOctets(n)) == n
  {
    var q, r := n / 3, n % 3;
    assert SextetsFor(n) == 4 * q + (4 * r + 2) / 3;
    var t, u := n / 4, n % 4;
    assert FullOctets(n) == 3 * t + 3 * u / 4;
  }

  function Octets(s: seq<Octet>): (b: seq<Octet>)
    ensures |b| == FullOctets(|s|)
  {
    seq(FullOctets(|s|), k requires 0 <= k => OctetOf(s, k / 3, k % 3))
  }

  function Sextets(b: seq<Octet>): (s: seq<Sextet>)
    ensures |s| == SextetsFor(|b|)
  {
    seq(SextetsFor(|b|), j requires 0 <= j => SextetOf(b, j / 4, j % 4))
  }

  lemma {:induction false} OctetsAt(s: seq<Octet>, q: nat, r: nat)
    requires r < 3
    ensures 3 * q + r < FullOctets(|s|) ==> Octets(s)[3 * q + r] == OctetOf(s, q, r)
    ensures 3 * q + r >= FullOctets(|s|) ==> OrZero(Octets(s), 3 * q + r) == 0
  {
  }

  lemma {:induction false} SextetsAt(b: seq<Octet>, q: nat, r: nat)
    requires r < 4
    ensures OrZero(Sextets(b), 4 * q + r) == if 4 * q + r < SextetsFor(|b|) then SextetOf(b, q, r) else 0
  {
  }

  lemma {:induction false} BitsAreBack(x: Octet, y: Octet, z: Octet)
    ensures Join1(Cut1(x), Cut2(x, y)) == x && Join2(Cut2(x, y), Cut3(y, z)) == y && Join3(Cut3(y, z), Cut4(z)) == z
  {
  }

  lemma {:induction false} OctetIsBack(b: seq<Octet>, q: nat, r: nat)
    requires r < 3 && 3 * q + r < |b|
    ensures OctetOf(Sextets(b), q, r) == b[3 * q + r]
  {
    SextetsAt(b, q, r);
    SextetsAt(b, q, r + 1);
    InGroup(|b|, q, r);
    BitsAreBack(OrZero(b, 3 * q), OrZero(b, 3 * q + 1), OrZero(b, 3 * q + 2));
  }

  /** The two sextets that make up an octet are there. */
  lemma {:induction false} InGroup(n: nat, q: nat, r: nat)
    requires r < 3 && 3 * q + r < n
    ensures 4 * q + r + 1 < SextetsFor(n)
  {
  }

  /** Octets regrouped as sextets and back. */
  lemma {:induction false} OctetsOfSextets(b: seq<Octet>)
    ensures Octets(Sextets(b)) == b
  {
    CountsMatch(|b|);
    forall k | 0 <= k < |b| ensures Octets(Sextets(b))[k] == b[k] { OctetIsBack(b, k / 3, k % 3); }
  }

  // ---------- encoding ----------

  function Chars(s: seq<Sextet>): (text: seq<Octet>)
    ensures |text| == |s|
  {
    if s == [] then [] else Chars(s[..|s| - 1]) + [Char(s[|s| - 1])]
  }

  /** Section 4 of RFC 4648: the characters, padded to a multiple of four. */
  function Encode(b: seq<Octet>): (text: seq<Octet>)
    ensures |text| % 4 == 0
  {
    var text := Chars(Sextets(b));
    text + Pads((-|text|) % 4)
  }

  function Pads(n: nat): (text: seq<Octet>)
    ensures |text| == n
  {
    if n == 0 then [] else Pads(n - 1) + [PAD]
  }

  lemma {:induction false} ValuesOfChars(s: seq<Sextet>)
    ensures Values(Chars(s)) == s
  {
    if s != [] {
      var front := s[..|s| - 1];
      ValuesOfChars(front);
      ValueOfChar(s[|s| - 1]);
      assert Chars(s)[..|s| - 1] == Chars(front);
    }
  }

  predicate Noise(text: seq<Octet>) {
    forall i :: 0 <= i < |text| ==> Value(text[i]) == None
  }

  /** Characters outside the alphabet can stand anywhere. */
  lemma {:induction false} NoiseIsDropped(front: seq<Octet>, noise: seq<Octet>, back: seq<Octet>)
    requires Noise(noise)
    ensures Values(front + noise + back) == Values(front + back)
    decreases |back|, |noise|
  {
    if back != [] {
      var n := |back| - 1;
      assert (front + noise + back)[..|front + noise + back| - 1] == front + noise + back[..n];
      assert (front + back)[..|front + back| - 1] == front + back[..n];
      NoiseIsDropped(front, noise, back[..n]);
    } else if noise != [] {
      var n := |noise| - 1;
      assert (front + noise + back)[..|front + noise + back| - 1] == front + noise[..n] + back;
      NoiseIsDropped(front, noise[..n], back);
    } else {
      assert front + noise + back == front + back;
    }
  }

  lemma {:induction false} PadsAreNoise(n: nat)
    ensures Noise(Pads(n))
  {
    if n > 0 { PadsAreNoise(n - 1); }
  }

  lemma {:induction false} ValuesOfEncode(b: seq<Octet>)
    ensures Values(Encode(b)) == Sextets(b)
  {
    var text := Chars(Sextets(b));
    var n := (-|text|) % 4;
    PadsAreNoise(n);
    NoiseIsDropped(text, Pads(n), []);
    assert text + Pads(n) + [] == text + Pads(n) && text + [] == text;
    ValuesOfChars(Sextets(b));
  }

  // ---------- decoding ----------

  /** A single character beyond a multiple of four is refused; otherwise the octets that are complete. */
  function Decoded(text: seq<Octet>): Result<seq<Octet>> {
    var s := Values(text);
    if |s| % 4 == 1 then Invalid else Ok(Octets(s))
  }

  /** What decodes to a string of octets: its encoding, with whatever is outside the alphabet inserted. */
  lemma {:induction false} DecodeOfEncode(text: seq<Octet>, b: seq<Octet>)
    requires Values(text) == Values(Encode(b))
    ensures Decoded(text) == Ok(b)
  {
    ValuesOfEncode(b);
    OctetsOfSextets(b);
    CountsMatch(|b|);
  }

  /** The bits of the last sextet that belong to no octet are zero. */
  predicate NoBitsLeft(s: seq<Sextet>) {
    && (|s| % 4 == 2 ==> s[|s| - 1] & 15 == 0)
    && (|s| % 4 == 3 ==> s[|s| - 1] & 3 == 0)
  }

  /** Conversely, text that decodes is the encoding of what it decodes to exactly when no bits are left over;
      text with such bits is accepted too. */
  lemma {:induction false} EncodeOfDecodeIff(text: seq<Octet>, b: seq<Octet>)
    requires Decoded(text) == Ok(b)
    ensures Values(text) == Values(Encode(b)) <==> NoBitsLeft(Values(text))
  {
    var s := Values(text);
    ValuesOfEncode(b);
    CountsMatch(|s|);
    forall j | 0 <= j < |s| ensures Sextets(b)[j] == s[j] <==> j < |s| - 1 || NoBitsLeft(s) { SextetMatches(s, j); }
    if s != [] && !NoBitsLeft(s) { assert Sextets(b)[|s| - 1] != s[|s| - 1]; }
  }

  lemma {:induction false} SextetMatches(s: seq<Sextet>, j: nat)
    requires j < |s| && |s| % 4 != 1
    ensures |Sextets(Octets(s))| == |s|
    ensures Sextets(Octets(s))[j] == s[j] <==> j < |s| - 1 || NoBitsLeft(s)
  {
    CountsMatch(|s|);
    SextetIsBack(s, j / 4, j % 4);
    SextetsAt(Octets(s), j / 4, j % 4);
  }

  lemma {:induction false} SextetBits(v: Sextet, w: Sextet, x: Sextet, y: Sextet)
    ensures Cut1(Join1(v, w)) == v && Cut2(Join1(v, w), Join2(w, x)) == w
    ensures Cut3(Join2(w, x), Join3(x, y)) == x && Cut4(Join3(x, y)) == y
  {
  }

  lemma {:induction false} SextetBitsAtEnd(v: Sextet, w: Sextet, x: Sextet)
    ensures Cut2(Join1(v, w), 0) == w <==> w & 15 == 0
    ensures Cut3(Join2(w, x), 0) == x <==> x & 3 == 0
  {
  }

  lemma {:induction false} SextetIsBack(s: seq<Sextet>, q: nat, r: nat)
    requires r < 4 && 4 * q + r < |s| && |s| % 4 != 1
    ensures SextetOf(Octets(s), q, r) == s[4 * q + r] <==> 4 * q + r < |s| - 1 || NoBitsLeft(s)
  {
    var b := Octets(s);
    var v, w, x, y := SixOrZero(s, 4 * q), SixOrZero(s, 4 * q + 1), SixOrZero(s, 4 * q + 2), SixOrZero(s, 4 * q + 3);
    GroupOfOctets(s, q, v, w, x, y);
    SextetBits(v, w, x, y);
    SextetBitsAtEnd(v, w, x);
    GroupIsFull(|s|, q, r);
  }

  /** The octets of a group, zero where they are not complete. */
  lemma {:induction false} GroupOfOctets(s: seq<Sextet>, q: nat, v: Octet, w: Octet, x: Octet, y: Octet)
    requires v == OrZero(s, 4 * q) && w == OrZero(s, 4 * q + 1) && x == OrZero(s, 4 * q + 2)
             && y == OrZero(s, 4 * q + 3)
    ensures OrZero(Octets(s), 3 * q) == if 3 * q < FullOctets(|s|) then Join1(v, w) else 0
    ensures OrZero(Octets(s), 3 * q + 1) == if 3 * q + 1 < FullOctets(|s|) then Join2(w, x) else 0
    ensures OrZero(Octets(s), 3 * q + 2) == if 3 * q + 2 < FullOctets(|s|) then Join3(x, y) else 0
  {
    OctetsAt(s, q, 0);
    OctetsAt(s, q, 1);
    OctetsAt(s, q, 2);
  }

  function SixOrZero(s: seq<Sextet>, i: nat): (v: Sextet)
    ensures v == OrZero(s, i)
  {
    if i < |s| then s[i] else 0
  }

  lemma {:induction false} FullOctetsIs(n: nat)
    ensures FullOctets(n) == 3 * (n / 4) + if n % 4 == 0 then 0 else n % 4 - 1
  {
  }

  /** Which octets of a group are complete. */
  lemma {:induction false} GroupIsFull(n: nat, q: nat, r: nat)
    requires r < 4 && 4 * q + r < n && n % 4 != 1
    ensures 3 * q < FullOctets(n)
    ensures 3 * q + 1 < FullOctets(n) <==> 4 * q + 2 < n
    ensures 3 * q + 2 < FullOctets(n) <==> 4 * q + 3 < n
    ensures 4 * q + r == n - 1 ==> n % 4 == (r + 1) % 4 && r > 0
  {
    FullOctetsIs(n);
  }

  /** With r sextets of a group there already: what the next one adds to the octet under construction, and
      what it starts another one with. */
  function High(r: nat, v: Octet): Octet {
    if r == 1 then v >> 4 else if r == 2 then v >> 2 else v
  }

  function Low(r: nat, v: Octet): Octet {
    if r == 0 then v << 2 else if r == 1 then v << 4 else v << 6
  }

  /** The buffer after these sextets: the complete octets, and the one under construction. */
  ghost predicate Holds(d: seq<Octet>, len: nat, s: seq<Octet>) {
    && len == FullOctets(|s|) && len < |d|
    && d[..len] == Octets(s)
    && (|s| % 4 != 0 ==> d[len] == Low(|s| % 4 - 1, s[|s| - 1]))
  }

  lemma {:induction false} GrowsBehind(s: seq<Octet>, v: Sextet)
    ensures FullOctets(|s|) <= FullOctets(|s| + 1) && Octets(s + [v])[..FullOctets(|s|)] == Octets(s)
  {
    CountGrows(|s|);
    forall k | 0 <= k < FullOctets(|s|) ensures Octets(s + [v])[k] == Octets(s)[k] {
      Untouched(s, v, k / 3, k % 3);
    }
  }

  lemma {:induction false} LastOctet(s: seq<Octet>, v: Sextet, q: nat, r: nat)
    requires |s| == 4 * q + r && 0 < r < 4
    ensures OctetOf(s + [v], q, r - 1) == Low(r - 1, s[|s| - 1]) | High(r, v)
  {
    assert OrZero(s + [v], |s| - 1) == s[|s| - 1] && OrZero(s + [v], |s|) == v;
  }

  /** One more sextet completes an octet, except at the start of a group. */
  lemma {:induction false} Grows(s: seq<Octet>, v: Sextet)
    ensures |s| % 4 == 0 ==> Octets(s + [v]) == Octets(s)
    ensures |s| % 4 > 0 ==> Octets(s + [v]) == Octets(s) + [Low(|s| % 4 - 1, s[|s| - 1]) | High(|s| % 4, v)]
  {
    var q, r := |s| / 4, |s| % 4;
    CountGrows(|s|);
    GrowsBehind(s, v);
    if r > 0 {
      OctetsAt(s + [v], q, r - 1);
      LastOctet(s, v, q, r);
    }
  }

  lemma {:induction false} HoldsStart(d: seq<Octet>, next: seq<Octet>, len: nat, v: Sextet, s: seq<Octet>)
    requires Holds(d, len, s) && |s| % 4 == 0 && next == d[len := Low(0, v)]
    ensures Holds(next, len, s + [v])
  {
    Grows(s, v);
    CountGrows(|s|);
    assert next[..len] == d[..len];
  }

  /** An octet is complete, and if `more` the next one begun. */
  function Updated(d: seq<Octet>, len: nat, full: Octet, more: bool, part: Octet): (next: seq<Octet>)
    requires len + 1 < |d|
  {
    if more then d[len := full][len + 1 := part] else d[len := full]
  }

  lemma {:induction false} UpdatedAt(d: seq<Octet>, len: nat, full: Octet, more: bool, part: Octet)
    requires len + 1 < |d|
    ensures var next := Updated(d, len, full, more, part);
            |next| == |d| && next[..len + 1] == d[..len] + [full] && (more ==> next[len + 1] == part)
  {
  }

  lemma {:induction false} HoldsMore(d: seq<Octet>, len: nat, v: Sextet, s: seq<Octet>, r: nat)
    requires Holds(d, len, s) && r == |s| % 4 > 0 && len + 1 < |d|
    ensures Holds(Updated(d, len, d[len] | High(r, v), r < 3, Low(r, v)), len + 1, s + [v])
  {
    Grows(s, v);
    CountGrows(|s|);
    NextInGroup(|s|);
    UpdatedAt(d, len, d[len] | High(r, v), r < 3, Low(r, v));
  }

  lemma {:induction false} NextInGroup(n: nat)
    ensures (n + 1) % 4 == if n % 4 == 3 then 0 else n % 4 + 1
  {
  }

  lemma {:induction false} CountGrows(n: nat)
    ensures FullOctets(n + 1) == if n % 4 == 0 then FullOctets(n) else FullOctets(n) + 1
    ensures n % 4 > 0 ==> FullOctets(n) == 3 * (n / 4) + n % 4 - 1
  {
  }

  lemma {:induction false} Untouched(s: seq<Octet>, v: Octet, q: nat, r: nat)
    requires r < 3 && 3 * q + r < FullOctets(|s|)
    ensures OctetOf(s + [v], q, r) == OctetOf(s, q, r)
  {
    assert 4 * q + r + 1 < |s|;
  }

  /** The switch on i % 4. */
  method Accumulate(d: array<Octet>, i: nat, len: nat, v: Sextet, ghost s: seq<Octet>) returns (next: nat)
    requires Holds(d[..], len, s) && i == |s| && FullOctets(i + 1) < d.Length
    modifies d
    ensures Holds(d[..], next, s + [v])
  {
    CountGrows(i);
    ghost var before := d[..];
    next := len;
    if i % 4 == 0 {
      d[next] := (v as Octet) << 2;
      HoldsStart(before, d[..], len, v, s);
    } else {
      HoldsMore(before, len, v, s, i % 4);
      next := Complete(d, i % 4, next, v);
    }
  }

  /** The other cases of the switch: the octet is completed, and in two of them another one begun. */
  method Complete(d: array<Octet>, r: nat, len: nat, v: Sextet) returns (next: nat)
    requires 0 < r < 4 && len + 1 < d.Length
    modifies d
    ensures next == len + 1
    ensures d[..] == Updated(old(d[..]), len, old(d[len]) | High(r, v), r < 3, Low(r, v))
  {
    next := len;
    if r == 1 {
      d[next] := d[next] | (v >> 4);
      next := next + 1;
      d[next] := (v as Octet) << 4;
    } else if r == 2 {
      d[next] := d[next] | (v >> 2);
      next := next + 1;
      d[next] := (v as Octet) << 6;
    } else {
      d[next] := d[next] | v;
      next := next + 1;
    }
  }

  /** `libssh2_base64_decode`: no write goes beyond the 3 * |src| / 4 + 1 bytes of the buffer. */
  method Decode(src: seq<Octet>) returns (r: Result<seq<Octet>>)
    ensures r == Decoded(src)
  {
    var d := new Octet[FullOctets(|src|) + 1];
    var i: nat, len: nat := 0, 0;
    for p := 0 to |src|
      invariant i == |Values(src[..p])| <= p && Holds(d[..], len, Values(src[..p]))
    {
      assert src[..p + 1][..p] == src[..p];
      var v := Value(src[p]);
      if v.Some? {
        len := Accumulate(d, i, len, v.value, Values(src[..p]));
        i := i + 1;
      }
    }
    assert src[..|src|] == src;
    if i % 4 == 1 { return Invalid; }
    r := Ok(d[..len]);
  }

  // ---------- in the numbers of RFC 4648 ----------

  /** The alphabet: capital letters, small letters, digits, plus and slash. */
  lemma {:induction false} AlphabetIs(v: Sextet)
    ensures v < 26 ==> Char(v) == 65 + v
    ensures 26 <= v < 52 ==> Char(v) == 97 + (v - 26)
    ensures 52 <= v < 62 ==> Char(v) == 48 + (v - 52)
    ensures (v == 62 ==> Char(v) == 43) && (v == 63 ==> Char(v) == 47)
  {
  }

  /** A group of three octets and the four sextets it becomes are the same 24 bits, high-order bit first, where
      missing octets are zero. */
  lemma {:induction false} GroupIs(b: seq<Octet>, q: nat)
    ensures var x, y, z := OrZero(b, 3 * q), OrZero(b, 3 * q + 1), OrZero(b, 3 * q + 2);
            ((x as bv32) << 16) | ((y as bv32) << 8) | (z as bv32)
            == ((SextetOf(b, q, 0) as bv32) << 18) | ((SextetOf(b, q, 1) as bv32) << 12)
               | ((SextetOf(b, q, 2) as bv32) << 6) | (SextetOf(b, q, 3) as bv32)
  {
    var x, y, z := OrZero(b, 3 * q), OrZero(b, 3 * q + 1), OrZero(b, 3 * q + 2);
    SameBits(x, y, z);
  }

  lemma {:induction false} SameBits(x: Octet, y: Octet, z: Octet)
    ensures ((x as bv32) << 16) | ((y as bv32) << 8) | (z as bv32)
         == ((Cut1(x) as bv32) << 18) | ((Cut2(x, y) as bv32) << 12) | ((Cut3(y, z) as bv32) << 6) | (Cut4(z) as bv32)
  {
  }

  lemma {:induction false} CharsAre(s: seq<Sextet>, j: nat)
    requires j < |s|
    ensures Chars(s)[j] == Char(s[j])
  {
    if j < |s| - 1 { CharsAre(s[..|s| - 1], j); }
  }

  lemma {:induction false} PadsAre(n: nat, j: nat)
    requires j < n
    ensures Pads(n)[j] == 61
  {
    if j < n - 1 { PadsAre(n - 1, j); }
  }

  /** The encoding has four characters for every three octets begun: those of the sextets in order, and then equals
      signs. */
  lemma {:induction false} EncodeIs(b: seq<Octet>, j: nat)
    requires j < |Encode(b)|
    ensures |Encode(b)| == (|b| + 2) / 3 * 4
    ensures Encode(b)[j] == if j < (4 * |b| + 2) / 3 then Char(SextetOf(b, j / 4, j % 4)) else 61
  {
    var s := Sextets(b);
    var text := Chars(s);
    EncodedSize(|b|);
    if j < |text| {
      CharsAre(s, j);
      SextetsAt(b, j / 4, j % 4);
    } else {
      PadsAre((-|text|) % 4, j - |text|);
    }
  }

  lemma {:induction false} EncodedSize(n: nat)
    ensures SextetsFor(n) + (-(SextetsFor(n) as int)) % 4 == (n + 2) / 3 * 4
  {
    var q, r := n / 3, n % 3;
    assert SextetsFor(n) == 4 * q + (4 * r + 2) / 3;
  }

  /** The four sextets of a group and the three octets they become are the same 24 bits. */
  lemma {:induction false} OctetGroupIs(s: seq<Sextet>, q: nat)
    ensures var v, w, x, y := SixOrZero(s, 4 * q), SixOrZero(s, 4 * q + 1), SixOrZero(s, 4 * q + 2),
            SixOrZero(s, 4 * q + 3);
            ((OctetOf(s, q, 0) as bv32) << 16) | ((OctetOf(s, q, 1) as bv32) << 8) | (OctetOf(s, q, 2) as bv32)
            == ((v as bv32) << 18) | ((w as bv32) << 12) | ((x as bv32) << 6) | (y as bv32)
  {
    SameOctets(SixOrZero(s, 4 * q), SixOrZero(s, 4 * q + 1), SixOrZero(s, 4 * q + 2), SixOrZero(s, 4 * q + 3));
  }

  lemma {:induction false} SameOctets(v: Sextet, w: Sextet, x: Sextet, y: Sextet)
    ensures ((Join1(v, w) as bv32) << 16) | ((Join2(w, x) as bv32) << 8) | (Join3(x, y) as bv32)
         == ((v as bv32) << 18) | ((w as bv32) << 12) | ((x as bv32) << 6) | (y as bv32)
  {
  }

  /** Decoding fails exactly on one alphabet character more than a multiple of four, and otherwise yields three
      octets for every four of them, and one less than is left over. */
  lemma {:induction false} DecodedIff(text: seq<Octet>)
    ensures var n := |Values(text)|;
            && (Decoded(text) == Invalid <==> n % 4 == 1)
            && (Decoded(text).Ok? ==>
                  && |Decoded(text).value| == n / 4 * 3 + (if n % 4 == 0 then 0 else n % 4 - 1)
                  && forall k :: 0 <= k < |Decoded(text).value| ==>
                       Decoded(text).value[k] == OctetOf(Values(text), k / 3, k % 3))
  {
    FullOctetsIs(|Values(text)|);
  }

  /** The values of a text are those of its characters, in order. */
  lemma {:induction false} ValuesConcat(a: seq<Octet>, b: seq<Octet>)
    ensures Values(a + b) == Values(a) + Values(b)
    decreases |b|
  {
    if b == [] {
      assert a + b == a;
    } else {
      var n := |b| - 1;
      ValuesConcat(a, b[..n]);
      assert (a + b)[..|a + b| - 1] == a + b[..n];
    }
  }

  lemma {:induction false} ValuesOfOne(c: Octet)
    ensures Values([c]) == if Value(c).Some? then [Value(c).value] else []
  {
    assert [c][..0] == [];
  }
}
