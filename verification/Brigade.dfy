/** Looking packets up in the brigade and taking them out. */
module Brigade {
  import opened Bytes
  import opened LinkedLists
  import opened Options

  type Payload = s: seq<Byte> | s != [] witness [0]

  /** A packet type, and bytes to be found at an offset; without bytes only the length is asked for. */
  datatype Query = Query(kind: Byte, ofs: nat, len: nat, bytes: Option<seq<Byte>>)

  predicate Matches(p: Payload, q: Query) {
    && p[0] == q.kind
    && |p| >= q.ofs + q.len
    && (q.bytes.None? || p[q.ofs..q.ofs + q.len] == q.bytes.value)
  }

  /** A packet matches when its type, its length and, where bytes are given, its bytes at the offset do. */
  lemma {:induction false} MatchesIff(p: Payload, q: Query)
    ensures Matches(p, q) <==>
            && p[0] == q.kind && |p| >= q.ofs + q.len
            && (q.bytes.Some? ==> p[q.ofs..q.ofs + q.len] == q.bytes.value)
  {
  }

  /** The position of the oldest packet that matches, or the number of packets when none does. */
  function FirstMatch(ps: seq<Payload>, q: Query): (k: nat)
    ensures k <= |ps|
    ensures k < |ps| ==> Matches(ps[k], q)
    ensures forall j :: 0 <= j < k ==> !Matches(ps[j], q)
  {
    if ps == [] || Matches(ps[0], q) then 0 else 1 + FirstMatch(ps[1..], q)
  }

  function Without(ps: seq<Payload>, k: nat): seq<Payload>
    requires k < |ps|
  {
    ps[..k] + ps[k + 1..]
  }

  /** What looking for the first match comes to: the answer, and the packets that are left. */
  function Ask(ps: seq<Payload>, q: Query): (Option<Payload>, seq<Payload>) {
    var k := FirstMatch(ps, q);
    if k == |ps| then (None, ps) else (Some(ps[k]), Without(ps, k))
  }

  /** An answer is the oldest packet with the type, the length and the bytes asked for, and it alone is gone;
      without an answer no packet has all three, and nothing is gone. */
  lemma {:induction false} AskFindsOldest(ps: seq<Payload>, q: Query)
    ensures var (r, left) := Ask(ps, q);
            var asked := (p: Payload) => p[0] == q.kind && |p| >= q.ofs + q.len
                                         && (q.bytes.Some? ==> p[q.ofs..q.ofs + q.len] == q.bytes.value);
            if r == None then left == ps && forall j :: 0 <= j < |ps| ==> !asked(ps[j])
            else exists k :: 0 <= k < |ps| && r == Some(ps[k]) && left == ps[..k] + ps[k + 1..] && asked(ps[k])
                             && forall j :: 0 <= j < k ==> !asked(ps[j])
  {
    var k := FirstMatch(ps, q);
    forall j | 0 <= j < |ps| ensures Matches(ps[j], q) <==>
      && ps[j][0] == q.kind && |ps[j]| >= q.ofs + q.len
      && (q.bytes.Some? ==> ps[j][q.ofs..q.ofs + q.len] == q.bytes.value)
    {
      MatchesIff(ps[j], q);
    }
    if k < |ps| { assert Ask(ps, q) == (Some(ps[k]), ps[..k] + ps[k + 1..]); }
  }

  /** Takes out the packet at position i, the first that matches. */
  method TakeOut(list: LinkedList<Payload>, packet: Node<Payload>, q: Query, ghost i: nat) returns (r: Option<Payload>)
    requires list.Valid() && i < |list.nodes| && list.nodes[i] == packet && Matches(packet.data, q)
    requires forall j :: 0 <= j < i ==> !Matches(list.Values()[j], q)
    modifies list, list.nodes
    ensures list.Valid() && r.Some? && (r, list.Values()) == Ask(old(list.Values()), q)
    ensures |list.nodes| < |old(list.nodes)|
    ensures forall j :: 0 <= j < |list.nodes| ==> list.nodes[j] in old(list.nodes)
  {
    OnlyFirst(list.Values(), q, i);
    r := Some(packet.data);
    list.Unlink(packet, i);
  }

  /** `libssh2_packet_ask_ex` without polling. */
  method AskEx(list: LinkedList<Payload>, q: Query) returns (r: Option<Payload>)
    requires list.Valid()
    modifies list, list.nodes
    ensures list.Valid() && (r, list.Values()) == Ask(old(list.Values()), q)
    ensures r.Some? ==> r.value[0] == q.kind && |r.value| >= q.ofs + q.len
    ensures r.Some? && q.bytes.Some? ==> r.value[q.ofs..q.ofs + q.len] == q.bytes.value
    ensures r == None ==> list.nodes == old(list.nodes)
    ensures r.Some? ==> |list.nodes| < |old(list.nodes)|
    ensures forall j :: 0 <= j < |list.nodes| ==> list.nodes[j] in old(list.nodes)
  {
    var packet := list.head;
    ghost var i := 0;
    while packet != null
      invariant list.Valid() && list.Values() == old(list.Values()) && list.nodes == old(list.nodes)
      invariant i <= |list.nodes| && packet == (if i == |list.nodes| then null else list.nodes[i])
      invariant forall j :: 0 <= j < i ==> !Matches(list.Values()[j], q)
      decreases |list.nodes| - i
    {
      if Matches(packet.data, q) {
        r := TakeOut(list, packet, q, i);
        return;
      }
      assert list.Linked(i);
      packet := packet.next;
      i := i + 1;
    }
    OnlyFirst(list.Values(), q, i);
    r := None;
  }

  /** The same with polling, where the poll may add a packet: the scan starts from what was the head before,
      and so from nowhere if the brigade was empty. */
  method AskPolling(list: LinkedList<Payload>, q: Query, polled: Option<Payload>) returns (r: Option<Payload>)
    requires list.Valid()
    modifies list, list.nodes
    ensures list.Valid() && (r, list.Values()) == AskPolled(old(list.Values()), q, polled)
  {
    var start := list.head;
    if polled.Some? { list.Append(polled.value); }
    r := None;
    if start != null { r := AskEx(list, q); }
  }

  function AskPolled(ps: seq<Payload>, q: Query, polled: Option<Payload>): (Option<Payload>, seq<Payload>) {
    var all := if polled.Some? then ps + [polled.value] else ps;
    if ps == [] then (None, all) else Ask(all, q)
  }

  /** A poll that brings a packet comes to asking for it among all, except when the brigade was empty and the
      packet is the one asked for: then it is missed, and stays.  A poll that brings none changes nothing. */
  lemma {:induction false} PolledIsMissedIff(ps: seq<Payload>, q: Query, p: Payload)
    ensures AskPolled(ps, q, Some(p)) == Ask(ps + [p], q) <==> ps != [] || !Matches(p, q)
    ensures AskPolled([], q, Some(p)) == (None, [p]) && AskPolled(ps, q, None) == Ask(ps, q)
  {
    assert [] + [p] == [p];
    if ps == [] {
      assert ps + [p] == [p];
      OnlyFirst([p], q, if Matches(p, q) then 0 else 1);
    }
  }

  /** The position is determined by what its contract says. */
  lemma OnlyFirst(ps: seq<Payload>, q: Query, k: nat)
    requires k <= |ps| && (k < |ps| ==> Matches(ps[k], q))
    requires forall j :: 0 <= j < k ==> !Matches(ps[j], q)
    ensures k == FirstMatch(ps, q)
  {
    var f := FirstMatch(ps, q);
    assert f < |ps| ==> Matches(ps[f], q) && !(f < k);
    assert k < |ps| ==> !(k < f);
  }

  /** What asking for a list of types comes to. */
  function AskAll(ps: seq<Payload>, kinds: seq<Byte>, q: Query): (Option<Payload>, seq<Payload>)
    decreases |kinds|
  {
    if kinds == [] then (None, ps)
    else
      var (r, left) := Ask(ps, q.(kind := kinds[0]));
      if r.Some? then (r, left) else AskAll(ps, kinds[1..], q)
  }

  /** `libssh2_packet_askv_ex`; `kinds` is the list up to its terminating zero. */
  method AskvEx(list: LinkedList<Payload>, kinds: seq<Byte>, q: Query) returns (r: Option<Payload>)
    requires list.Valid()
    modifies list, list.nodes
    ensures list.Valid()
    ensures (r, list.Values()) == AskAll(old(list.Values()), kinds, q)
  {
    var i := 0;
    while i < |kinds|
      invariant i <= |kinds| && list.Valid() && list.Values() == old(list.Values()) && list.nodes == old(list.nodes)
      invariant AskAll(old(list.Values()), kinds[i..], q) == AskAll(old(list.Values()), kinds, q)
    {
      assert kinds[i..][1..] == kinds[i + 1..];
      r := AskEx(list, q.(kind := kinds[i]));
      if r.Some? { return; }
      i := i + 1;
    }
    r := None;
  }

  ghost predicate Present(ps: seq<Payload>, q: Query) {
    exists j :: 0 <= j < |ps| && Matches(ps[j], q)
  }

  lemma FirstMatchIffPresent(ps: seq<Payload>, q: Query)
    ensures FirstMatch(ps, q) < |ps| <==> Present(ps, q)
  {
    var k := FirstMatch(ps, q);
    if k < |ps| { assert Matches(ps[k], q); }
  }

  /** Asking for a list of types fails exactly when no packet is of any of them, and then changes nothing;
      otherwise the answer is the oldest packet of the earliest listed type that has one, and it alone is gone. */
  lemma {:induction false} AskAllPrefersEarlierTypes(ps: seq<Payload>, kinds: seq<Byte>, q: Query)
    ensures var (r, left) := AskAll(ps, kinds, q);
            && (r == None <==> forall i :: 0 <= i < |kinds| ==> !Present(ps, q.(kind := kinds[i])))
            && (r == None ==> left == ps)
            && (r.Some? ==>
                 exists i, k :: 0 <= i < |kinds| && 0 <= k < |ps|
                   && (forall j :: 0 <= j < i ==> !Present(ps, q.(kind := kinds[j])))
                   && k == FirstMatch(ps, q.(kind := kinds[i])) && r == Some(ps[k]) && left == Without(ps, k))
    decreases |kinds|
  {
    if kinds != [] {
      FirstMatchIffPresent(ps, q.(kind := kinds[0]));
      var k := FirstMatch(ps, q.(kind := kinds[0]));
      if k == |ps| {
        var rest := kinds[1..];
        AskAllPrefersEarlierTypes(ps, rest, q);
        assert forall i :: 0 <= i < |rest| ==> rest[i] == kinds[i + 1];
        assert forall i :: 0 < i < |kinds| ==> kinds[i] == rest[i - 1];
        var (r, left) := AskAll(ps, kinds, q);
        if r.Some? {
          var i, m :| 0 <= i < |rest| && 0 <= m < |ps|
            && (forall j :: 0 <= j < i ==> !Present(ps, q.(kind := rest[j])))
            && m == FirstMatch(ps, q.(kind := rest[i])) && r == Some(ps[m]) && left == Without(ps, m);
          forall j | 0 <= j < i + 1 ensures !Present(ps, q.(kind := kinds[j])) {
            if j > 0 { assert !Present(ps, q.(kind := rest[j - 1])); }
          }
          assert m == FirstMatch(ps, q.(kind := kinds[i + 1]));
        } else {
          forall i | 0 <= i < |kinds| ensures !Present(ps, q.(kind := kinds[i])) {
            if i > 0 { assert !Present(ps, q.(kind := rest[i - 1])); }
          }
        }
      } else {
        assert k == FirstMatch(ps, q.(kind := kinds[0]));
      }
    }
  }

  // ---------- what freeing a channel drops ----------

  const DATA: Byte := 94
  const EXTENDED_DATA: Byte := 95

  /** Packets of a kind that carry this channel id behind their type. */
  function Carrying(kind: Byte, id: U32): Query {
    Query(kind, 1, 4, Some(Put32(id)))
  }

  predicate ForChannel(p: Payload, id: U32) {
    Matches(p, Carrying(DATA, id)) || Matches(p, Carrying(EXTENDED_DATA, id))
  }

  /** The packets that are not data of the channel, in order. */
  function Spared(ps: seq<Payload>, id: U32): seq<Payload> {
    if ps == [] then [] else (if ForChannel(ps[0], id) then [] else [ps[0]]) + Spared(ps[1..], id)
  }

  /** Of one packet: it goes when it is data of either kind and carries the channel's id behind its type. */
  lemma {:induction false} SparedOne(p: Payload, id: U32)
    ensures Spared([p], id) == if (p[0] == 94 || p[0] == 95) && |p| >= 5 && p[1..5] == Put32(id) then [] else [p]
  {
    MatchesIff(p, Carrying(DATA, id));
    MatchesIff(p, Carrying(EXTENDED_DATA, id));
    assert Spared([p][1..], id) == [];
  }

  /** Of many: packet by packet, in order. */
  lemma {:induction false} SparedInOrder(ps: seq<Payload>, rest: seq<Payload>, id: U32)
    ensures Spared(ps + rest, id) == Spared(ps, id) + Spared(rest, id)
  {
    if ps == [] {
      assert ps + rest == rest;
    } else {
      assert (ps + rest)[1..] == ps[1..] + rest;
      SparedInOrder(ps[1..], rest, id);
    }
  }

  lemma {:induction false} SparedWithout(ps: seq<Payload>, id: U32, k: nat)
    requires k < |ps| && ForChannel(ps[k], id)
    ensures Spared(Without(ps, k), id) == Spared(ps, id)
  {
    if k == 0 {
      assert Without(ps, 0) == ps[1..];
    } else {
      assert Without(ps, k) == [ps[0]] + Without(ps[1..], k - 1);
      assert Without(ps, k)[1..] == Without(ps[1..], k - 1);
      SparedWithout(ps[1..], id, k - 1);
    }
  }

  lemma {:induction false} SparedHas(ps: seq<Payload>, p: Payload, id: U32)
    ensures p in Spared(ps, id) <==>
            p in ps && !((p[0] == 94 || p[0] == 95) && |p| >= 5 && p[1..5] == Put32(id))
  {
    if ps != [] {
      SparedHas(ps[1..], p, id);
      SparedOne(ps[0], id);
      SparedInOrder([ps[0]], ps[1..], id);
      assert [ps[0]] + ps[1..] == ps;
    }
  }

  lemma {:induction false} SparedAll(ps: seq<Payload>, id: U32)
    requires forall i :: 0 <= i < |ps| ==> !ForChannel(ps[i], id)
    ensures Spared(ps, id) == ps
  {
    if ps != [] { SparedAll(ps[1..], id); }
  }

  /** The list has lost nodes, if any, but no packet that a channel spares. */
  ghost predicate Thinned(list: LinkedList<Payload>, was: seq<Node<Payload>>, before: seq<Payload>, id: U32)
    reads list, list.nodes
  {
    && list.Valid() && Spared(list.Values(), id) == Spared(before, id)
    && forall i :: 0 <= i < |list.nodes| ==> list.nodes[i] in was
  }

  /** Takes out the oldest data packet of one kind of the channel. */
  method TakeKind(list: LinkedList<Payload>, id: U32, kind: Byte) returns (found: bool)
    requires list.Valid() && (kind == DATA || kind == EXTENDED_DATA)
    modifies list, list.nodes
    ensures Thinned(list, old(list.nodes), old(list.Values()), id)
    ensures found ==> |list.nodes| < |old(list.nodes)|
    ensures !found ==> list.nodes == old(list.nodes) && list.Values() == old(list.Values())
    ensures !found ==> FirstMatch(list.Values(), Carrying(kind, id)) == |list.Values()|
  {
    ghost var before := list.Values();
    ghost var k := FirstMatch(before, Carrying(kind, id));
    var r := AskEx(list, Carrying(kind, id));
    if k < |before| { SparedWithout(before, id, k); }
    found := r.Some?;
  }

  /** Takes out one data packet of the channel, plain ones first. */
  method TakeOne(list: LinkedList<Payload>, id: U32) returns (found: bool)
    requires list.Valid()
    modifies list, list.nodes
    ensures Thinned(list, old(list.nodes), old(list.Values()), id)
    ensures found ==> |list.nodes| < |old(list.nodes)|
    ensures !found ==> list.Values() == Spared(list.Values(), id)
  {
    found := TakeKind(list, id, DATA);
    if !found {
      found := TakeKind(list, id, EXTENDED_DATA);
      if !found { SparedAll(list.Values(), id); }
    }
  }

  /** The loop of `libssh2_channel_free` that clears out the packets meant for the channel. */
  method DropChannel(list: LinkedList<Payload>, id: U32)
    requires list.Valid()
    modifies list, list.nodes
    ensures list.Valid() && list.Values() == Spared(old(list.Values()), id)
    ensures forall p :: p in list.Values() <==>
              p in old(list.Values()) && !((p[0] == 94 || p[0] == 95) && |p| >= 5 && p[1..5] == Put32(id))
  {
    forall p ensures p in Spared(list.Values(), id) <==>
      p in list.Values() && !((p[0] == 94 || p[0] == 95) && |p| >= 5 && p[1..5] == Put32(id))
    {
      SparedHas(list.Values(), p, id);
    }
    var found := TakeOne(list, id);
    while found
      invariant Thinned(list, old(list.nodes), old(list.Values()), id)
      invariant !found ==> list.Values() == Spared(list.Values(), id)
      decreases found, |list.nodes|
    {
      found := TakeOne(list, id);
    }
  }
}
