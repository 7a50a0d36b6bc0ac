/** The per-session evidence machine of automation/jobs/agent-supervision.py. */
module Supervision {
  import opened Options

  const MAX_TRACKED_AGE_S := 21600.0
  const ACTIVE_S := 600.0
  const STALL_TOOLCALL_MIN := 20.0
  const STATE_CAP := 100

  // ---------------------------------------------------------------- what a tick sees

  /** One observation of a session; times are epoch seconds. */
  datatype Observation = Observation(
    bridge: bool, exited: bool, lastToolTs: Option<real>, lastEntryTs: real, loopSig: bool, errSig: bool)

  /** The event that drives the machine this tick, in the order the tick tests them. */
  datatype Kind = Evicted | Exited | Stuck | Missed | SlowValid | Live

  function Max0(x: real): real { if x > 0.0 then x else 0.0 }

  /** Minutes since the last tool call; None without one (a zero timestamp is falsy). */
  function ToolAgeMin(o: Observation, now: real): Option<real> {
    if o.lastToolTs.Some? && o.lastToolTs.value != 0.0 then Some(Max0((now - o.lastToolTs.value) / 60.0)) else None
  }

  function KindOf(o: Observation, now: real): Kind {
    var age := ToolAgeMin(o, now);
    if !o.bridge && age.Some? && age.value * 60.0 > MAX_TRACKED_AGE_S then Evicted
    else if o.exited then Exited
    else if o.loopSig || o.errSig then Stuck
    else if Max0(now - o.lastEntryTs) > ACTIVE_S then Missed
    else if age.Some? && age.value > STALL_TOOLCALL_MIN then SlowValid
    else Live
  }

  /** When a tick is of which kind: the first of these that applies. The age of the last tool call counts from 6 hours
      on, of 10 minutes' silence and of 20 minutes without a tool call. A loop or error signature goes before silence,
      however long. */
  lemma KindIff(o: Observation, now: real)
    ensures var tool := o.lastToolTs.Some? && o.lastToolTs.value != 0.0;
            var idle := if tool then now - o.lastToolTs.value else 0.0;
            var evicted := !o.bridge && tool && idle > 21600.0;
            var silent := now - o.lastEntryTs > 600.0;
            && (KindOf(o, now) == Evicted <==> evicted)
            && (KindOf(o, now) == Exited <==> !evicted && o.exited)
            && (KindOf(o, now) == Stuck <==> !evicted && !o.exited && (o.loopSig || o.errSig))
            && (KindOf(o, now) == Missed <==> !evicted && !o.exited && !o.loopSig && !o.errSig && silent)
            && (KindOf(o, now) == SlowValid <==>
                !evicted && !o.exited && !o.loopSig && !o.errSig && !silent && tool && idle > 1200.0)
            && (KindOf(o, now) == Live <==>
                !evicted && !o.exited && !o.loopSig && !o.errSig && !silent && !(tool && idle > 1200.0))
  {
  }

  /** A looping session silent for 700 seconds is stuck, not silent. */
  lemma StuckBeforeSilent()
    ensures KindOf(Observation(false, false, Some(9990.0), 9300.0, true, false), 10000.0) == Stuck
  {
  }

  // ---------------------------------------------------------------- one session

  datatype Cause = Silence | RepeatLoop
  datatype Row = EvictedRow | Steer(cause: Cause) | Requeue | Death(cause: Cause) | SlowValidRow | RecoveredRow

  /** What the state file remembers of a session; `last` is None before its first tick. The memory of an
      evicted or exited session has no stuck_misses, which reads as 0. */
  datatype Memory = Memory(misses: nat, stuckMisses: nat, last: Option<Kind>)

  const FRESH := Memory(0, 0, None)

  function Step(m: Memory, k: Kind): Memory {
    Memory(if k.Missed? then m.misses + 1 else 0, if k.Stuck? then m.stuckMisses + 1 else 0, Some(k))
  }

  /** The rows one tick files for a session. */
  function RowsOf(m: Memory, k: Kind): seq<Row> {
    match k
    case Evicted => if m.last == Some(Evicted) then [] else [EvictedRow]
    case Exited => []
    case Stuck => if m.stuckMisses + 1 == 1 then [Steer(RepeatLoop), Requeue] else [Death(RepeatLoop)]
    case Missed => if m.misses + 1 == 1 then [Steer(Silence)] else [Death(Silence)]
    case SlowValid => if m.last == Some(SlowValid) then [] else [SlowValidRow]
    case Live => if m.last in {Some(Missed), Some(SlowValid), Some(Stuck)} then [RecoveredRow] else []
  }

  /** A session's history: its ticks, and the times the state cap forgot it. */
  datatype Event = Saw(kind: Kind) | Forgotten

  function After(h: seq<Event>): Memory {
    if h == [] then FRESH
    else if h[|h| - 1].Forgotten? then FRESH
    else Step(After(h[..|h| - 1]), h[|h| - 1].kind)
  }

  /** The rows filed at position `i` of a history. */
  function RowsAt(h: seq<Event>, i: nat): seq<Row>
    requires i < |h|
  {
    if h[i].Forgotten? then [] else RowsOf(After(h[..i]), h[i].kind)
  }

  // ---------------------------------------------------------------- steer once, then die

  /** The length of the run of ticks of kind `k` that ends the history. */
  function Trailing(h: seq<Event>, k: Kind): nat {
    if h == [] || h[|h| - 1] != Saw(k) then 0 else Trailing(h[..|h| - 1], k) + 1
  }

  /** In every run: the two counters are the lengths of the current silent and stuck blocks, never both positive. */
  lemma {:induction false} CountersAreBlocks(h: seq<Event>)
    ensures After(h).misses == Trailing(h, Missed) && After(h).stuckMisses == Trailing(h, Stuck)
    ensures After(h).misses == 0 || After(h).stuckMisses == 0
    ensures After(h).last == if h != [] && h[|h| - 1].Saw? then Some(h[|h| - 1].kind) else None
  {
    if h != [] && h[|h| - 1].Saw? {
      CountersAreBlocks(h[..|h| - 1]);
    }
  }

  /** A tick of kind `k` that the tick before it does not continue. */
  predicate Starts(h: seq<Event>, i: nat, k: Kind)
    requires i < |h|
  {
    h[i] == Saw(k) && (i == 0 || h[i - 1] != Saw(k))
  }

  /** What a tick files depends only on its kind and on the event just before it. */
  lemma RowsAreLocal(h: seq<Event>, i: nat)
    requires i < |h| && h[i].Saw?
    ensures RowsAt(h, i) ==
            match h[i].kind
            case Missed => if Starts(h, i, Missed) then [Steer(Silence)] else [Death(Silence)]
            case Stuck => if Starts(h, i, Stuck) then [Steer(RepeatLoop), Requeue] else [Death(RepeatLoop)]
            case Evicted => if Starts(h, i, Evicted) then [EvictedRow] else []
            case SlowValid => if Starts(h, i, SlowValid) then [SlowValidRow] else []
            case Exited => []
            case Live => if i > 0 && h[i - 1] in {Saw(Missed), Saw(SlowValid), Saw(Stuck)} then [RecoveredRow] else []
  {
    CountersAreBlocks(h[..i]);
  }

  /** A maximal block of missed or stuck ticks files exactly one steer, at its start, followed by deaths. */
  lemma BlockSteersOnceThenDies(h: seq<Event>, i: nat, j: nat, k: Kind)
    requires i < j <= |h| && (k.Missed? || k.Stuck?)
    requires Starts(h, i, k) && forall n :: i <= n < j ==> h[n] == Saw(k)
    ensures var cause := if k.Missed? then Silence else RepeatLoop;
            && RowsAt(h, i)[0] == Steer(cause) && (forall r :: r in RowsAt(h, i) ==> r == Steer(cause) || r == Requeue)
            && forall n :: i < n < j ==> RowsAt(h, n) == [Death(cause)]
  {
    RowsAreLocal(h, i);
    forall n | i < n < j ensures RowsAt(h, n) == [Death(if k.Missed? then Silence else RepeatLoop)] {
      RowsAreLocal(h, n);
    }
  }

  /** A death only ever follows a tick of its own kind. */
  lemma DeathFollowsItsKind(h: seq<Event>, i: nat, cause: Cause)
    requires i < |h| && Death(cause) in RowsAt(h, i)
    ensures i > 0 && h[i - 1] == h[i] == Saw(if cause.Silence? then Missed else Stuck)
  {
    RowsAreLocal(h, i);
  }

  // ---------------------------------------------------------------- counting rows over a run

  function Log(h: seq<Event>): seq<Row> {
    if h == [] then [] else Log(h[..|h| - 1]) + RowsAt(h, |h| - 1)
  }

  function Count(rows: seq<Row>, r: Row): nat {
    if rows == [] then 0 else Count(rows[..|rows| - 1], r) + (if rows[|rows| - 1] == r then 1 else 0)
  }

  lemma CountAdd(rows: seq<Row>, more: seq<Row>, r: Row)
    requires |more| <= 2
    ensures Count(rows + more, r) ==
            Count(rows, r) + (if |more| > 0 && more[0] == r then 1 else 0) +
                (if |more| > 1 && more[1] == r then 1 else 0)
  {
    if |more| == 0 {
      assert rows + more == rows;
    } else if |more| == 1 {
      assert (rows + more)[..|rows|] == rows;
    } else {
      assert (rows + more)[..|rows| + 1] == rows + [more[0]];
      assert (rows + [more[0]])[..|rows|] == rows;
    }
  }

  /** The maximal blocks of kind `k`, by their first ticks. */
  function Blocks(h: seq<Event>, k: Kind): set<nat> {
    set i: nat | i < |h| && Starts(h, i, k)
  }

  lemma StartsStay(h: seq<Event>, e: Event, k: Kind)
    ensures forall i: nat :: i < |h| ==> (Starts(h + [e], i, k) <==> Starts(h, i, k))
  {
  }

  lemma BlocksSnoc(h: seq<Event>, e: Event, k: Kind)
    ensures |Blocks(h + [e], k)| == |Blocks(h, k)| + if Starts(h + [e], |h|, k) then 1 else 0
  {
    StartsStay(h, e, k);
    hide Starts;
    assert Blocks(h + [e], k) == Blocks(h, k) + (if Starts(h + [e], |h|, k) then {|h|} else {});
  }

  lemma LogSnoc(h: seq<Event>, e: Event)
    ensures Log(h + [e]) == Log(h) + RowsAt(h + [e], |h|)
  {
    assert (h + [e])[..|h|] == h;
  }

  /** The rows that open a block of each kind. */
  function Opener(k: Kind): Row
    requires k in {Evicted, SlowValid, Missed, Stuck}
  {
    if k.Evicted? then EvictedRow
    else if k.SlowValid? then SlowValidRow
    else Steer(if k.Missed? then Silence else RepeatLoop)
  }

  /** In every run the eviction, slow-valid and steer rows count the maximal blocks of their kind. */
  lemma {:induction false} RowsCountBlocks(h: seq<Event>, k: Kind)
    requires k in {Evicted, SlowValid, Missed, Stuck}
    ensures Count(Log(h), Opener(k)) == |Blocks(h, k)|
  {
    if h == [] {
      assert Blocks(h, k) == {};
    } else {
      var f, e := h[..|h| - 1], h[|h| - 1];
      assert h == f + [e];
      RowsCountBlocks(f, k);
      hide Log;
      hide Count;
      hide Blocks;
      LogSnoc(f, e);
      if e.Saw? {
        RowsAreLocal(h, |f|);
      }
      CountAdd(Log(f), RowsAt(h, |f|), Opener(k));
      BlocksSnoc(f, e, k);
    }
  }

  /** Recovered rows never outnumber the steer and slow-valid rows before them. */
  lemma {:induction false} RecoveriesAreEarned(h: seq<Event>)
    ensures Count(Log(h), RecoveredRow)
            + (if After(h).last in {Some(Missed), Some(SlowValid), Some(Stuck)} then 1 else 0)
            <= Count(Log(h), Steer(Silence)) + Count(Log(h), Steer(RepeatLoop)) + Count(Log(h), SlowValidRow)
  {
    if h != [] {
      var f, e := h[..|h| - 1], h[|h| - 1];
      assert h == f + [e];
      RecoveriesAreEarned(f);
      CountersAreBlocks(f);
      CountersAreBlocks(h);
      LogSnoc(f, e);
      if e.Saw? {
        RowsAreLocal(h, |f|);
      }
      CountAdd(Log(f), RowsAt(h, |f|), RecoveredRow);
      CountAdd(Log(f), RowsAt(h, |f|), Steer(Silence));
      CountAdd(Log(f), RowsAt(h, |f|), Steer(RepeatLoop));
      CountAdd(Log(f), RowsAt(h, |f|), SlowValidRow);
    }
  }

  /** The cap matters: a session forgotten inside a silent block is steered a second time. */
  lemma ForgettingSteersAgain()
    ensures Log([Saw(Missed), Forgotten, Saw(Missed)]) == [Steer(Silence), Steer(Silence)]
  {
    var h := [Saw(Missed), Forgotten, Saw(Missed)];
    assert Log([]) == [];
    hide Log;
    LogSnoc([], h[0]);
    LogSnoc([h[0]], h[1]);
    LogSnoc([h[0], h[1]], h[2]);
    assert [] + [h[0]] == [h[0]] && [h[0]] + [h[1]] == [h[0], h[1]] && [h[0], h[1]] + [h[2]] == h;
    RowsAreLocal(h, 2);
    RowsAreLocal([h[0]], 0);
  }
}
