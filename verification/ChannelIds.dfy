/** How local channel ids are handed out. */
module ChannelIds {
  import opened Bytes

  /** The ids of a session: of its channel list, and of the channels that wait in each listener's queue. */
  datatype Table = Table(next: U32, listed: seq<U32>, queues: seq<seq<U32>>)

  function Largest(id: U32, listed: seq<U32>): (r: U32)
    ensures r >= id && forall i :: 0 <= i < |listed| ==> r >= listed[i]
    ensures r == id || r in listed
    decreases |listed|
  {
    if listed == [] then id else Largest(if listed[0] > id then listed[0] else id, listed[1..])
  }

  /** `libssh2_channel_nextid` */
  function NextId(t: Table): U32 {
    Largest(t.next, t.listed)
  }

  function Allocated(t: Table): Table {
    t.(next := Add32(NextId(t), 1))
  }

  datatype Act =
    | Open
    | Listen
    | Queue(l: nat)
    | Accept(l: nat)
    | Free(id: U32)

  /** Open and X11 open link the new channel at the end; a forwarded connection waits in its listener's
      queue until it is accepted, which links it at the front. */
  function Step(t: Table, a: Act): Table {
    match a
    case Open => Allocated(t).(listed := t.listed + [NextId(t)])
    case Listen => t.(queues := t.queues + [[]])
    case Queue(l) =>
      if l < |t.queues| then Allocated(t).(queues := t.queues[l := t.queues[l] + [NextId(t)]]) else t
    case Accept(l) =>
      if l < |t.queues| && t.queues[l] != [] then
        t.(queues := t.queues[l := t.queues[l][1..]], listed := [t.queues[l][0]] + t.listed)
      else t
    case Free(id) => t.(listed := Drop(t.listed, id))
  }

  /** The list without its first occurrence of an id. */
  function Drop(s: seq<U32>, id: U32): seq<U32> {
    if s == [] then [] else if s[0] == id then s[1..] else [s[0]] + Drop(s[1..], id)
  }

  function Run(t: Table, acts: seq<Act>): Table
    decreases |acts|
  {
    if acts == [] then t else Run(Step(t, acts[0]), acts[1..])
  }

  predicate Allocates(t: Table, a: Act) {
    a.Open? || (a.Queue? && a.l < |t.queues|)
  }

  /** How many ids a run hands out. */
  function Allocations(t: Table, acts: seq<Act>): nat
    decreases |acts|
  {
    if acts == [] then 0 else (if Allocates(t, acts[0]) then 1 else 0) + Allocations(Step(t, acts[0]), acts[1..])
  }

  // ---------- what is live ----------

  function Count(s: seq<U32>, x: U32): nat {
    if s == [] then 0 else (if s[0] == x then 1 else 0) + Count(s[1..], x)
  }

  function QueueCount(queues: seq<seq<U32>>, x: U32): nat {
    if queues == [] then 0 else Count(queues[0], x) + QueueCount(queues[1..], x)
  }

  /** How many channels, listed or queued, have id x. */
  function Live(t: Table, x: U32): nat {
    Count(t.listed, x) + QueueCount(t.queues, x)
  }

  /** Every live id belongs to one channel and was handed out before `next`. */
  ghost predicate Good(t: Table) {
    forall x: U32 :: Live(t, x) > 0 ==> Live(t, x) == 1 && x < t.next
  }

  lemma {:induction false} CountAppend(s: seq<U32>, id: U32, x: U32)
    ensures Count(s + [id], x) == Count(s, x) + if id == x then 1 else 0
  {
    if s != [] {
      assert (s + [id])[1..] == s[1..] + [id];
      CountAppend(s[1..], id, x);
    }
  }

  lemma {:induction false} CountPresent(s: seq<U32>, x: U32)
    ensures x in s <==> Count(s, x) > 0
  {
    if s != [] { CountPresent(s[1..], x); }
  }

  lemma {:induction false} QueueChanged(queues: seq<seq<U32>>, l: nat, q: seq<U32>, x: U32)
    requires l < |queues|
    ensures QueueCount(queues[l := q], x) + Count(queues[l], x) == QueueCount(queues, x) + Count(q, x)
  {
    if l == 0 {
      assert queues[0 := q][1..] == queues[1..];
    } else {
      QueueChanged(queues[1..], l - 1, q, x);
      assert queues[l := q][1..] == queues[1..][l - 1 := q];
    }
  }

  lemma {:induction false} QueueAdded(queues: seq<seq<U32>>, x: U32)
    ensures QueueCount(queues + [[]], x) == QueueCount(queues, x)
  {
    if queues != [] {
      QueueAdded(queues[1..], x);
      assert (queues + [[]])[1..] == queues[1..] + [[]];
    }
  }

  lemma {:induction false} DropTakesOne(s: seq<U32>, id: U32, x: U32)
    ensures Count(Drop(s, id), x) == Count(s, x) - if id == x && id in s then 1 else 0
  {
    if s != [] && s[0] != id {
      DropTakesOne(s[1..], id, x);
      assert ([s[0]] + Drop(s[1..], id))[1..] == Drop(s[1..], id);
    }
  }

  predicate AllBelow(t: Table) {
    forall i :: 0 <= i < |t.listed| ==> t.listed[i] < t.next
  }

  /** The id handed out is new exactly when all linked channels lie below `next` and no channel that waits in
      a listener's queue has it. */
  lemma {:induction false} NextIdFreshIff(t: Table)
    ensures NextId(t) !in t.listed <==> AllBelow(t)
    ensures Live(t, NextId(t)) == 0 <==> AllBelow(t) && QueueCount(t.queues, t.next) == 0
  {
    CountPresent(t.listed, NextId(t));
    if AllBelow(t) { assert NextId(t) >= t.next; }
  }

  lemma GoodNextId(t: Table)
    requires Good(t)
    ensures NextId(t) == t.next && Live(t, NextId(t)) == 0
  {
    forall i | 0 <= i < |t.listed| ensures t.listed[i] < t.next {
      CountPresent(t.listed, t.listed[i]);
      assert Live(t, t.listed[i]) > 0;
    }
    NextIdFreshIff(t);
  }

  /** What each step does to the live ids. */
  lemma StepLive(t: Table, a: Act, x: U32)
    ensures Live(Step(t, a), x) == Live(t, x)
              + (if Allocates(t, a) && x == NextId(t) then 1 else 0)
              - (if a == Free(x) && x in t.listed then 1 else 0)
  {
    match a
    case Open => CountAppend(t.listed, NextId(t), x);
    case Listen => QueueAdded(t.queues, x);
    case Queue(l) =>
      if l < |t.queues| {
        QueueChanged(t.queues, l, t.queues[l] + [NextId(t)], x);
        CountAppend(t.queues[l], NextId(t), x);
      }
    case Accept(l) =>
      if l < |t.queues| && t.queues[l] != [] {
        QueueChanged(t.queues, l, t.queues[l][1..], x);
        assert ([t.queues[l][0]] + t.listed)[1..] == t.listed;
      }
    case Free(id) => DropTakesOne(t.listed, id, x);
  }

  lemma StepKeepsGood(t: Table, a: Act)
    requires Good(t) && (Allocates(t, a) ==> t.next < WORD - 1)
    ensures Good(Step(t, a))
    ensures Step(t, a).next == t.next + if Allocates(t, a) then 1 else 0
  {
    GoodNextId(t);
    forall x: U32 | Live(Step(t, a), x) > 0 ensures Live(Step(t, a), x) == 1 && x < Step(t, a).next {
      StepLive(t, a, x);
    }
  }

  /** Over every run with fewer than 2^32 allocations all live ids are distinct and below `next`, and the
      next id is fresh: it is the number of ids handed out so far. */
  lemma {:induction false} IdsStayDistinct(t: Table, acts: seq<Act>)
    requires Good(t) && t.next + Allocations(t, acts) < WORD
    ensures var u := Run(t, acts);
            && Good(u)
            && u.next == t.next + Allocations(t, acts)
            && NextId(u) == u.next && Live(u, NextId(u)) == 0
    decreases |acts|
  {
    if acts == [] {
      GoodNextId(t);
    } else {
      StepKeepsGood(t, acts[0]);
      IdsStayDistinct(Step(t, acts[0]), acts[1..]);
    }
  }

  /** Past the wrap-around it fails: with next back at zero the id handed out is that of a live channel. */
  lemma {:induction false} WrappedIdIsTaken(listed: seq<U32>)
    requires listed != []
    ensures NextId(Table(0, listed, [])) in listed
  {
    NextIdFreshIff(Table(0, listed, []));
    assert !(listed[0] < 0);
  }

  lemma {:induction false} DropAt(s: seq<U32>, id: U32, at: nat)
    requires at <= |s| && id !in s[..at] && (at < |s| ==> s[at] == id)
    ensures Drop(s, id) == if at == |s| then s else s[..at] + s[at + 1..]
  {
    if s != [] && at > 0 {
      assert s[0] in s[..at];
      assert s[1..][..at - 1] == s[..at][1..];
      DropAt(s[1..], id, at - 1);
    }
  }

  /** While ids are distinct, locate finds the only channel with that id. */
  lemma LocatedIsUnique(t: Table, i: nat, j: nat)
    requires Good(t) && i < j < |t.listed|
    ensures t.listed[i] != t.listed[j]
  {
    assert Live(t, t.listed[i]) <= 1;
    if t.listed[j] == t.listed[i] { TwoPlaces(t.listed, i, j); }
  }

  lemma {:induction false} TwoPlaces(s: seq<U32>, i: nat, j: nat)
    requires i < j < |s| && s[i] == s[j]
    ensures Count(s, s[i]) >= 2
  {
    if i == 0 {
      assert s[1..][j - 1] in s[1..];
      CountPresent(s[1..], s[0]);
    } else {
      TwoPlaces(s[1..], i - 1, j - 1);
    }
  }

  // ---------- queues are served in order ----------

  /** What a run queues at a listener. */
  function Queued(t: Table, acts: seq<Act>, l: nat): seq<U32>
    decreases |acts|
  {
    if acts == [] then []
    else
      (if acts[0] == Queue(l) && l < |t.queues| then [Largest(t.next, t.listed)] else [])
      + Queued(Step(t, acts[0]), acts[1..], l)
  }

  /** What a run links at the front of the list when it accepts from a listener. */
  function Accepted(t: Table, acts: seq<Act>, l: nat): seq<U32>
    decreases |acts|
  {
    if acts == [] then []
    else
      var u := Step(t, acts[0]);
      (if acts[0] == Accept(l) && |u.listed| > |t.listed| then [u.listed[0]] else []) + Accepted(u, acts[1..], l)
  }

  function QueueOf(t: Table, l: nat): seq<U32> {
    if l < |t.queues| then t.queues[l] else []
  }

  lemma {:induction false} StepServes(t: Table, a: Act, l: nat)
    ensures var u := Step(t, a);
            var more := if a == Queue(l) && l < |t.queues| then [Largest(t.next, t.listed)] else [];
            var served := if a == Accept(l) && |u.listed| > |t.listed| then [u.listed[0]] else [];
            served + QueueOf(u, l) == QueueOf(t, l) + more
  {
    var u := Step(t, a);
    if a == Accept(l) && l < |t.queues| && t.queues[l] != [] {
      assert u.queues[l] == t.queues[l][1..] && [t.queues[l][0]] + t.queues[l][1..] == t.queues[l];
    }
    if a.Free? {
      assert u.queues == t.queues;
    } else if a.Listen? {
      assert QueueOf(u, l) == QueueOf(t, l);
    }
  }

  /** Connections are accepted in the order in which they were queued: those that waited and those queued in a run
      are, one behind the other, those accepted in it and those that wait in the end. */
  lemma {:induction false} ServedInOrder(t: Table, acts: seq<Act>, l: nat)
    ensures Accepted(t, acts, l) + QueueOf(Run(t, acts), l) == QueueOf(t, l) + Queued(t, acts, l)
    decreases |acts|
  {
    if acts != [] {
      var u := Step(t, acts[0]);
      var more := if acts[0] == Queue(l) && l < |t.queues| then [Largest(t.next, t.listed)] else [];
      var served := if acts[0] == Accept(l) && |u.listed| > |t.listed| then [u.listed[0]] else [];
      StepServes(t, acts[0], l);
      ServedInOrder(u, acts[1..], l);
      var accepted, waiting, queued := Accepted(u, acts[1..], l), QueueOf(Run(u, acts[1..]), l),
        Queued(u, acts[1..], l);
      Rearranged(served, accepted, waiting, QueueOf(u, l), queued, QueueOf(t, l), more);
    }
  }

  lemma {:induction false} Rearranged(served: seq<U32>, accepted: seq<U32>, waiting: seq<U32>, next: seq<U32>,
                                      queued: seq<U32>, now: seq<U32>, more: seq<U32>)
    requires accepted + waiting == next + queued && served + next == now + more
    ensures (served + accepted) + waiting == now + (more + queued)
  {
    assert (served + accepted) + waiting == served + (accepted + waiting);
    assert served + (next + queued) == (served + next) + queued;
    assert now + (more + queued) == (now + more) + queued;
  }

  /** A new channel is linked at the end, an accepted one at the front, and freeing one keeps the others in order. */
  lemma {:induction false} ListIs(t: Table, l: nat, id: U32, at: nat)
    ensures Step(t, Open).listed == t.listed + [NextId(t)]
    ensures l < |t.queues| && t.queues[l] != [] ==> Step(t, Accept(l)).listed == [t.queues[l][0]] + t.listed
    ensures at < |t.listed| && t.listed[at] == id && id !in t.listed[..at] ==>
              Step(t, Free(id)).listed == t.listed[..at] + t.listed[at + 1..]
    ensures id !in t.listed ==> Step(t, Free(id)).listed == t.listed
  {
    if at < |t.listed| && t.listed[at] == id && id !in t.listed[..at] { DropAt(t.listed, id, at); }
    if id !in t.listed {
      assert t.listed[..|t.listed|] == t.listed;
      DropAt(t.listed, id, |t.listed|);
    }
  }
}
