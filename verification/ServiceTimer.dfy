/** The loop that starts a service's run function at even intervals, on a 32-bit clock that wraps. */
module ServiceTimer {
  import opened Bytes
  import opened Options

  type I32 = x: int | -0x8000_0000 <= x < 0x8000_0000

  /** One turn of the loop as the world has it: the interval and, if it set them, the base ticks that the run
      function leaves behind; the clock after it; and whether the service is stopped during the wait. */
  datatype Turn = Turn(interval: I32, reset: Option<U32>, now: U32, stopped: bool)

  /** The new base, and how long to wait. */
  datatype Step = Step(base: U32, wait: nat)

  /** An unsigned word stored in a signed one. */
  function Signed(x: U32): I32 {
    if x < 0x8000_0000 then x else x - WORD
  }

  /** The interval less the time since the base: unsigned arithmetic, stored in an int. */
  function Remain(base: U32, interval: I32, now: U32): I32
    requires interval > 0
  {
    Signed(Sub32(interval, Sub32(now, base)))
  }

  function NextStep(base: U32, interval: I32, now: U32): Step
    requires interval > 0
  {
    var remain := Remain(base, interval, now);
    if 0 <= remain <= interval then Step(Add32(base, interval), remain) else Step(now, 0)
  }

  /** The test on the difference is a test on the time elapsed, whatever wraps. */
  lemma OnTimeIff(base: U32, interval: I32, now: U32)
    requires interval > 0
    ensures 0 <= Remain(base, interval, now) <= interval <==> Sub32(now, base) <= interval
  {
  }

  /** In either branch the wait ends at the new base. */
  lemma BaseIsWhenWaitEnds(base: U32, interval: I32, now: U32)
    requires interval > 0
    ensures var s := NextStep(base, interval, now); s.wait <= interval && s.base == (now + s.wait) % WORD
  {
    var e := Sub32(now, base);
    var over := if base <= now then 0 else 1;
    assert now == base + e - WORD * over;
    if e <= interval {
      assert Sub32(interval, e) == interval - e;
      assert now + (interval - e) == base + interval - WORD * over;
    }
  }

  // ---------- a run ----------

  /** The base after a run, the waits of it, and whether it has ended. */
  datatype Outcome = Outcome(base: U32, waits: seq<nat>, ended: bool)

  function Run(base: U32, turns: seq<Turn>): Outcome
    decreases |turns|
  {
    if turns == [] then Outcome(base, [], false)
    else
      var t := turns[0];
      var from := if t.reset.Some? then t.reset.value else base;
      if t.interval <= 0 then Outcome(from, [], true)
      else
        var s := NextStep(from, t.interval, t.now);
        if t.stopped then Outcome(s.base, [s.wait], true)
        else
          var rest := Run(s.base, turns[1..]);
          rest.(waits := [s.wait] + rest.waits)
  }

  class Service {
    var sleepTime: I32
    var baseTicks: U32
    const hasRunFunction: bool

    constructor (hasRunFunction: bool)
      ensures this.hasRunFunction == hasRunFunction && sleepTime == 0
    {
      this.hasRunFunction := hasRunFunction;
      sleepTime, baseTicks := 0, 0;
    }

    method SetIterationBaseTicks(ticks: U32)
      modifies `baseTicks
      ensures baseTicks == ticks
    {
      baseTicks := ticks;
    }

    /** One turn: the wait, if the loop comes to one, and whether the loop is over. */
    method Iterate(t: Turn) returns (waits: seq<nat>, ended: bool)
      modifies this
      ensures Outcome(baseTicks, waits, ended) == Run(old(baseTicks), [t])
    {
      sleepTime := t.interval;
      if t.reset.Some? { SetIterationBaseTicks(t.reset.value); }
      if sleepTime <= 0 { return [], true; }
      var remain := Remain(baseTicks, sleepTime, t.now);
      if 0 <= remain <= sleepTime {
        SetIterationBaseTicks(Add32(baseTicks, sleepTime));
      } else {
        remain := 0;
        SetIterationBaseTicks(t.now);
      }
      assert Run(baseTicks, []) == Outcome(baseTicks, [], false);
      return [remain], t.stopped;
    }

    /** `execRunFunction`, over as many turns as the world has for it. */
    method ExecRunFunction(start: U32, turns: seq<Turn>) returns (waits: seq<nat>, ended: bool)
      modifies this
      ensures hasRunFunction ==> Outcome(baseTicks, waits, ended) == Run(start, turns)
      ensures !hasRunFunction ==> waits == [] && ended && baseTicks == old(baseTicks) && sleepTime == old(sleepTime)
    {
      waits, ended := [], true;
      if !hasRunFunction { return; }
      SetIterationBaseTicks(start);
      ended := false;
      var i := 0;
      assert turns[0..] == turns;
      while i < |turns| && !ended
        invariant i <= |turns|
        invariant !ended ==> Run(start, turns) == Behind(waits, Run(baseTicks, turns[i..]))
        invariant ended ==> Run(start, turns) == Outcome(baseTicks, waits, true)
        decreases |turns| - i
      {
        RunStep(baseTicks, turns[i..]);
        assert turns[i..][1..] == turns[i + 1..];
        var more;
        more, ended := Iterate(turns[i]);
        BehindBehind(waits, more, Run(baseTicks, turns[i + 1..]));
        waits := waits + more;
        i := i + 1;
      }
    }
  }

  function Behind(waits: seq<nat>, o: Outcome): Outcome {
    o.(waits := waits + o.waits)
  }

  lemma BehindBehind(first: seq<nat>, second: seq<nat>, o: Outcome)
    ensures Behind(first, Behind(second, o)) == Behind(first + second, o)
  {
    assert first + (second + o.waits) == first + second + o.waits;
  }

  /** The first turn by itself, and then the others unless it was the last. */
  lemma RunStep(base: U32, turns: seq<Turn>)
    requires turns != []
    ensures var first := Run(base, [turns[0]]);
            Run(base, turns) == if first.ended then first else Behind(first.waits, Run(first.base, turns[1..]))
  {
    assert [turns[0]][1..] == [];
  }

  // ---------- against a clock that does not wrap ----------

  function Max(x: int, y: int): int {
    if x < y then y else x
  }

  /** How a run on time should go: turn by turn, some time passes between the moment its wait is over and the
      end of the run function, and the next turn is due an interval later or, if that is past, at once. */
  function Due(start: nat, interval: nat, delays: seq<nat>): nat
    decreases |delays|
  {
    if delays == [] then start else Due(start + Max(interval, delays[0]), interval, delays[1..])
  }

  /** The waits of such a run. */
  function Naps(interval: nat, delays: seq<nat>): seq<nat> {
    if delays == [] then [] else [Max(interval, delays[0]) - delays[0]] + Naps(interval, delays[1..])
  }

  /** The same run as the 32-bit clock shows it. */
  function Turns(start: nat, interval: I32, delays: seq<nat>): seq<Turn>
    requires interval > 0
    decreases |delays|
  {
    if delays == [] then []
    else [Turn(interval, None, (start + delays[0]) % WORD, false)]
         + Turns(start + Max(interval, delays[0]), interval, delays[1..])
  }

  lemma Elapsed(start: nat, delay: nat)
    ensures Sub32((start + delay) % WORD, start % WORD) == delay % WORD
  {
    var x, y := start % WORD, delay % WORD;
    Congruent(start + delay, x + y, start / WORD + delay / WORD);
  }

  lemma Congruent(a: nat, b: nat, k: int)
    requires a == b + WORD * k
    ensures a % WORD == b % WORD
  {
  }

  /** A turn waits for the moment at which the next one is due exactly when less than a whole turn of the
      clock has passed, or what is left of it after whole turns is at least the interval. */
  lemma WaitIsRightIff(start: nat, interval: I32, delay: nat)
    requires interval > 0
    ensures NextStep(start % WORD, interval, (start + delay) % WORD).wait == Max(interval, delay) - delay
            <==> delay < WORD || delay % WORD >= interval
  {
    Elapsed(start, delay);
    OnTimeIff(start % WORD, interval, (start + delay) % WORD);
  }

  lemma OneTurn(start: nat, interval: I32, delay: nat)
    requires interval > 0 && delay < WORD
    ensures NextStep(start % WORD, interval, (start + delay) % WORD)
            == Step((start + Max(interval, delay)) % WORD, Max(interval, delay) - delay)
  {
    WaitIsRightIff(start, interval, delay);
    BaseIsWhenWaitEnds(start % WORD, interval, (start + delay) % WORD);
    ModSum(start + delay, Max(interval, delay) - delay);
  }

  lemma ModSum(x: nat, y: nat)
    ensures (x % WORD + y) % WORD == (x + y) % WORD
  {
    Congruent(x + y, x % WORD + y, x / WORD);
  }

  lemma RunCons(base: U32, t: Turn, turns: seq<Turn>)
    requires t.interval > 0 && t.reset == None && !t.stopped
    ensures var s := NextStep(base, t.interval, t.now); Run(base, [t] + turns) == Behind([s.wait], Run(s.base, turns))
  {
    assert ([t] + turns)[1..] == turns;
  }

  /** The run from one turn on goes as it should when it does so from the next turn on. */
  lemma KeepsTimeStep(base: U32, start: nat, interval: I32, delays: seq<nat>, due: U32)
    requires interval > 0 && delays != [] && delays[0] < WORD && base == start % WORD
    requires var next := start + Max(interval, delays[0]);
             Run(next % WORD, Turns(next, interval, delays[1..])) == Outcome(due, Naps(interval, delays[1..]), false)
    ensures Run(base, Turns(start, interval, delays)) == Outcome(due, Naps(interval, delays), false)
  {
    var next := start + Max(interval, delays[0]);
    OneTurn(start, interval, delays[0]);
    RunCons(base, Turn(interval, None, (start + delays[0]) % WORD, false), Turns(next, interval, delays[1..]));
  }

  /** While no delay reaches a whole turn of the clock, the loop waits as it should, and its base is the
      moment at which the next turn is due. */
  lemma {:induction false} KeepsTime(start: nat, interval: I32, delays: seq<nat>)
    requires interval > 0 && forall i :: 0 <= i < |delays| ==> delays[i] < WORD
    ensures Run(start % WORD, Turns(start, interval, delays))
            == Outcome(Due(start, interval, delays) % WORD, Naps(interval, delays), false)
    decreases |delays|
  {
    if delays != [] {
      KeepsTime(start + Max(interval, delays[0]), interval, delays[1..]);
      KeepsTimeStep(start % WORD, start, interval, delays, Due(start, interval, delays) % WORD);
    }
  }

  lemma {:induction false} DueEvenly(start: nat, interval: nat, delays: seq<nat>)
    requires forall i :: 0 <= i < |delays| ==> delays[i] <= interval
    ensures Due(start, interval, delays) == start + |delays| * interval
    decreases |delays|
  {
    if delays != [] {
      DueEvenly(start + interval, interval, delays[1..]);
      OneMore(|delays[1..]|, interval);
    }
  }

  lemma OneMore(n: nat, interval: nat)
    ensures (n + 1) * interval == interval + n * interval
  {
  }

  /** While no turn takes longer than the interval, turn n is due exactly n intervals after the first: no
      delay is carried over, and the clock may wrap any number of times. */
  lemma NoDrift(start: nat, interval: I32, delays: seq<nat>)
    requires interval > 0 && forall i :: 0 <= i < |delays| ==> delays[i] <= interval
    ensures Due(start, interval, delays) == start + |delays| * interval
    ensures Run(start % WORD, Turns(start, interval, delays)).base == (start + |delays| * interval) % WORD
  {
    KeepsTime(start, interval, delays);
    DueEvenly(start, interval, delays);
  }

  // ---------- what a turn does to a run ----------

  /** Base ticks that the run function has set count from that turn on. */
  lemma {:induction false} ResetCounts(base: U32, t: Turn, turns: seq<Turn>)
    requires t.reset.Some?
    ensures Run(base, [t] + turns) == Run(t.reset.value, [t.(reset := None)] + turns)
  {
    assert ([t] + turns)[1..] == ([t.(reset := None)] + turns)[1..];
  }

  /** An interval of zero or less ends the run without a wait, and a stop ends it with the wait of its turn. */
  lemma {:induction false} TurnEnds(base: U32, t: Turn, turns: seq<Turn>)
    requires t.reset == None
    ensures t.interval <= 0 ==> Run(base, [t] + turns) == Outcome(base, [], true)
    ensures t.interval > 0 && t.stopped ==>
              var s := NextStep(base, t.interval, t.now);
              Run(base, [t] + turns) == Outcome(s.base, [s.wait], true)
  {
  }

  /** Any other turn waits, and the run goes on from the base that the wait has left. */
  lemma {:induction false} TurnGoesOn(base: U32, t: Turn, turns: seq<Turn>)
    requires t.reset == None && t.interval > 0 && !t.stopped
    ensures var s := NextStep(base, t.interval, t.now);
            var rest := Run(s.base, turns);
            Run(base, [t] + turns) == Outcome(rest.base, [s.wait] + rest.waits, rest.ended)
  {
    assert ([t] + turns)[1..] == turns;
  }

  /** A run ends exactly when some turn ends it, and has a wait for every turn before that one, and for that one
      too if it was stopped in its wait. */
  lemma {:induction false} EndsIff(base: U32, turns: seq<Turn>, n: nat)
    requires n <= |turns| && forall i :: 0 <= i < n ==> turns[i].interval > 0 && !turns[i].stopped
    requires n < |turns| ==> turns[n].interval <= 0 || turns[n].stopped
    ensures Run(base, turns).ended <==> n < |turns|
    ensures |Run(base, turns).waits| == if n < |turns| && turns[n].interval > 0 then n + 1 else n
    decreases n
  {
    if n > 0 {
      var t := turns[0];
      var from := if t.reset.Some? then t.reset.value else base;
      EndsIff(NextStep(from, t.interval, t.now).base, turns[1..], n - 1);
    }
  }
}
