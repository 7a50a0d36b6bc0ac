/** tick and save_state of automation/jobs/agent-supervision.py over all sessions: the state file holds,
  for every session, the memory its own history determines. */
module SupervisionTick {
  import opened Options
  import opened Supervision

  type Id = string

  /** A state-file entry. */
  datatype Entry = Entry(memory: Memory, firstSeen: int)

  /** What happened to which session: one tick of it, or the cap dropping it. */
  datatype Happening = Happening(id: Id, event: Event)

  /** The history of one session within the history of all. */
  function Of(hs: seq<Happening>, id: Id): seq<Event> {
    if hs == [] then []
    else Of(hs[..|hs| - 1], id) + (if hs[|hs| - 1].id == id then [hs[|hs| - 1].event] else [])
  }

  /** The rows filed for one session. */
  function RowsFor(rows: seq<(Id, Row)>, id: Id): seq<Row> {
    if rows == [] then []
    else RowsFor(rows[..|rows| - 1], id) + (if rows[|rows| - 1].0 == id then [rows[|rows| - 1].1] else [])
  }

  lemma {:induction false} RowsForAppend(a: seq<(Id, Row)>, b: seq<(Id, Row)>, id: Id)
    ensures RowsFor(a + b, id) == RowsFor(a, id) + RowsFor(b, id)
    decreases |b|
  {
    if b == [] {
      assert a + b == a;
    } else {
      assert (a + b)[..|a + b| - 1] == a + b[..|b| - 1];
      RowsForAppend(a, b[..|b| - 1], id);
    }
  }

  /** The rows of one tick, filed under the session's id. */
  function Tagged(id: Id, rows: seq<Row>): (r: seq<(Id, Row)>)
    ensures |r| == |rows| && forall k :: 0 <= k < |r| ==> r[k] == (id, rows[k])
  {
    seq(|rows|, k requires 0 <= k < |rows| => (id, rows[k]))
  }

  lemma {:induction false} RowsForTagged(id: Id, rows: seq<Row>, other: Id)
    ensures RowsFor(Tagged(id, rows), other) == if id == other then rows else []
  {
    if rows != [] {
      assert Tagged(id, rows)[..|rows| - 1] == Tagged(id, rows[..|rows| - 1]);
      RowsForTagged(id, rows[..|rows| - 1], other);
    }
  }

  lemma StuckRows(id: Id, m: Memory)
    ensures Tagged(id, RowsOf(m, Stuck)) ==
            if m.stuckMisses > 0 then [(id, Death(RepeatLoop))] else [(id, Steer(RepeatLoop)), (id, Requeue)]
  {
  }

  lemma OfSnoc(hs: seq<Happening>, h: Happening, id: Id)
    ensures Of(hs + [h], id) == Of(hs, id) + (if h.id == id then [h.event] else [])
  {
    assert (hs + [h])[..|hs|] == hs;
  }

  /** The file and the report queue are what the sessions' own histories determine. */
  ghost predicate Matches(state: map<Id, Entry>, reported: seq<(Id, Row)>, hs: seq<Happening>) {
    && (forall id {:trigger Of(hs, id)} :: After(Of(hs, id)) == if id in state then state[id].memory else FRESH)
    && (forall id {:trigger Of(hs, id)} :: RowsFor(reported, id) == Log(Of(hs, id)))
  }

  lemma ObserveKeeps(state: map<Id, Entry>, reported: seq<(Id, Row)>, hs: seq<Happening>, id: Id, k: Kind,
                     entry: Entry, rows: seq<Row>)
    requires Matches(state, reported, hs)
    requires var m := if id in state then state[id].memory else FRESH;
             entry.memory == Step(m, k) && rows == RowsOf(m, k)
    ensures Matches(state[id := entry], reported + Tagged(id, rows), hs + [Happening(id, Saw(k))])
  {
    hide Of;
    hide RowsFor;
    hide Tagged;
    hide Log;
    var hs' := hs + [Happening(id, Saw(k))];
    forall x
      ensures After(Of(hs', x)) == (if x in state[id := entry] then state[id := entry][x].memory else FRESH)
      ensures RowsFor(reported + Tagged(id, rows), x) == Log(Of(hs', x))
    {
      OfSnoc(hs, Happening(id, Saw(k)), x);
      RowsForAppend(reported, Tagged(id, rows), x);
      RowsForTagged(id, rows, x);
      if x == id {
        LogSnoc(Of(hs, x), Saw(k));
        assert (Of(hs, x) + [Saw(k)])[..|Of(hs, x)|] == Of(hs, x);
      } else {
        assert Of(hs, x) + [] == Of(hs, x) && RowsFor(reported, x) + [] == RowsFor(reported, x);
      }
    }
  }

  lemma ForgetKeeps(state: map<Id, Entry>, reported: seq<(Id, Row)>, hs: seq<Happening>, id: Id)
    requires Matches(state, reported, hs)
    ensures Matches(state - {id}, reported, hs + [Happening(id, Forgotten)])
  {
    var hs' := hs + [Happening(id, Forgotten)];
    forall x
      ensures After(Of(hs', x)) == (if x in state - {id} then (state - {id})[x].memory else FRESH)
      ensures RowsFor(reported, x) == Log(Of(hs', x))
    {
      OfSnoc(hs, Happening(id, Forgotten), x);
      if x == id {
        LogSnoc(Of(hs, x), Forgotten);
        assert Log(Of(hs, x)) + [] == Log(Of(hs, x));
      } else {
        assert Of(hs, x) + [] == Of(hs, x);
      }
    }
  }

  /** `state` is part of `before`, and whatever is missing was first seen no later than anything kept. */
  ghost predicate OldestGone(before: map<Id, Entry>, state: map<Id, Entry>) {
    && (forall k :: k in state ==> k in before && state[k] == before[k])
    && (forall k, d :: k in state && d in before && d !in state ==> before[d].firstSeen <= state[k].firstSeen)
  }

  function Forgets(ids: seq<Id>): (r: seq<Happening>)
    ensures |r| == |ids| && forall k :: 0 <= k < |r| ==> r[k] == Happening(ids[k], Forgotten)
  {
    seq(|ids|, k requires 0 <= k < |ids| => Happening(ids[k], Forgotten))
  }

  function IdsIn(sessions: seq<(Id, Observation)>): set<Id> { set s | s in sessions :: s.0 }

  lemma OneMoreSeen(sessions: seq<(Id, Observation)>, i: nat, now: real)
    requires i < |sessions|
    ensures IdsIn(sessions[..i + 1]) == IdsIn(sessions[..i]) + {sessions[i].0}
    ensures SeenAt(sessions[..i + 1], now) ==
            SeenAt(sessions[..i], now) + [Happening(sessions[i].0, Saw(KindOf(sessions[i].1, now)))]
  {
    hide KindOf;
    assert sessions[..i + 1] == sessions[..i] + [sessions[i]];
  }

  /** The same rows are appended to both. */
  ghost predicate BothGrow(a: seq<(Id, Row)>, a': seq<(Id, Row)>, b: seq<(Id, Row)>, b': seq<(Id, Row)>) {
    a <= a' && b <= b' && a'[|a|..] == b'[|b|..]
  }

  lemma BothGrowTogether(a: seq<(Id, Row)>, a': seq<(Id, Row)>, b: seq<(Id, Row)>, b': seq<(Id, Row)>,
                         a'': seq<(Id, Row)>, b'': seq<(Id, Row)>)
    requires (a == a' && b == b') || BothGrow(a, a', b, b')
    requires (a' == a'' && b' == b'') || BothGrow(a', a'', b', b'')
    ensures BothGrow(a, a'', b, b'')
  {
    if BothGrow(a, a', b, b') && BothGrow(a', a'', b', b'') {
      assert a''[|a|..] == a'[|a|..] + a''[|a'|..];
      assert b''[|b|..] == b'[|b|..] + b''[|b'|..];
    }
  }

  lemma SameRows(a: seq<(Id, Row)>, a': seq<(Id, Row)>, b: seq<(Id, Row)>, b': seq<(Id, Row)>)
    requires BothGrow(a, a', b, b')
    ensures a' == a + a'[|a|..] && b' == b + a'[|a|..]
  {
  }

  /** The branches of the loop body, in its order. */
  method Judge(m: Memory, o: Observation, now: real) returns (memory: Memory, rows: seq<Row>)
    ensures memory == Step(m, KindOf(o, now)) && rows == RowsOf(m, KindOf(o, now))
    ensures !o.exited && (o.loopSig || o.errSig) && (o.bridge || o.lastToolTs == None) ==>
              && memory == Memory(0, m.stuckMisses + 1, Some(Stuck))
              && rows == if m.stuckMisses > 0 then [Death(RepeatLoop)] else [Steer(RepeatLoop), Requeue]
  {
    var age := ToolAgeMin(o, now);
    rows := [];
    if !o.bridge && age.Some? && age.value * 60.0 > MAX_TRACKED_AGE_S {
      if m.last != Some(Evicted) {
        rows := [EvictedRow];
      }
      memory := Memory(0, 0, Some(Evicted));
    } else if o.exited {
      memory := Memory(0, 0, Some(Exited));
    } else {
      var stuck := o.loopSig || o.errSig;
      var miss := Max0(now - o.lastEntryTs) > ACTIVE_S && !stuck;
      var toolFlat := o.lastToolTs.Some? && age.Some? && age.value > STALL_TOOLCALL_MIN;
      if stuck {
        var stuckMisses := m.stuckMisses + 1;
        if stuckMisses == 1 {
          rows := [Steer(RepeatLoop), Requeue];
        } else {
          rows := [Death(RepeatLoop)];
        }
        memory := Memory(0, stuckMisses, Some(Stuck));
      } else if miss {
        var misses := m.misses + 1;
        if misses == 1 {
          rows := [Steer(Silence)];
        } else {
          rows := [Death(Silence)];
        }
        memory := Memory(misses, 0, Some(Missed));
      } else if toolFlat {
        if m.last != Some(SlowValid) {
          rows := [SlowValidRow];
        }
        memory := Memory(0, 0, Some(SlowValid));
      } else {
        if m.last in {Some(Missed), Some(SlowValid), Some(Stuck)} {
          rows := [RecoveredRow];
        }
        memory := Memory(0, 0, Some(Live));
      }
    }
  }

  /** `state` is the state file between ticks and the dict during one; `reported` are the rows filed, and `saved` those
      of them whose tick could save its state. `history` holds what the state remembers, tick by tick. */
  class Supervisor {
    var state: map<Id, Entry>
    var reported: seq<(Id, Row)>
    ghost var saved: seq<(Id, Row)>
    ghost var history: seq<Happening>

    ghost predicate Valid()
      reads this
    {
      Matches(state, saved, history)
    }

    constructor ()
      ensures Valid() && state == map[] && history == [] && reported == saved == []
    {
      state, reported, saved, history := map[], [], [], [];
    }

    /** One session of one tick. */
    method Observe(id: Id, o: Observation, now: real)
      requires Valid()
      modifies this
      ensures Valid() && history == old(history) + [Happening(id, Saw(KindOf(o, now)))]
      ensures state.Keys == old(state.Keys) + {id}
      ensures forall k :: k in old(state) && k != id ==> state[k] == old(state[k])
      ensures state[id].firstSeen == if id in old(state) then old(state[id]).firstSeen else now.Floor
      ensures BothGrow(old(reported), reported, old(saved), saved)
      ensures var m := if id in old(state) then old(state[id]).memory else FRESH;
              && reported == old(reported) + Tagged(id, RowsOf(m, KindOf(o, now)))
              && state[id].memory == Step(m, KindOf(o, now))
      ensures !o.exited && (o.loopSig || o.errSig) && (o.bridge || o.lastToolTs == None) ==>
                reported == old(reported) +
                            if id in old(state) && old(state[id]).memory.stuckMisses > 0 then [(id, Death(RepeatLoop))]
                            else [(id, Steer(RepeatLoop)), (id, Requeue)]
    {
      var prev := if id in state then state[id] else Entry(FRESH, now.Floor);
      var memory, rows := Judge(prev.memory, o, now);
      ghost var k := KindOf(o, now);
      KindIff(o, now);
      StuckRows(id, prev.memory);
      hide KindOf;
      hide RowsOf;
      hide Step;
      hide Tagged;
      hide Matches;
      ObserveKeeps(state, saved, history, id, k, Entry(memory, prev.firstSeen), rows);
      reported, saved := reported + Tagged(id, rows), saved + Tagged(id, rows);
      state := state[id := Entry(memory, prev.firstSeen)];
      history := history + [Happening(id, Saw(k))];
    }

    /** The id first seen longest ago. */
    method Oldest() returns (id: Id)
      requires state != map[]
      ensures id in state && forall k :: k in state ==> state[id].firstSeen <= state[k].firstSeen
    {
      var todo := state.Keys;
      id :| id in todo;
      todo := todo - {id};
      while todo != {}
        invariant id in state && todo <= state.Keys
        invariant forall k :: k in state && k !in todo ==> state[id].firstSeen <= state[k].firstSeen
        decreases todo
      {
        var k :| k in todo;
        todo := todo - {k};
        if state[k].firstSeen < state[id].firstSeen {
          id := k;
        }
      }
    }

    /** Forget the entry first seen longest ago. */
    method ForgetOldest() returns (id: Id)
      requires Valid() && state != map[]
      modifies `state, `history
      ensures Valid() && history == old(history) + [Happening(id, Forgotten)]
      ensures id in old(state) && state == old(state) - {id} && |state| == |old(state)| - 1
      ensures forall k :: k in old(state) ==> old(state)[id].firstSeen <= old(state)[k].firstSeen
    {
      id := Oldest();
      ForgetKeeps(state, saved, history, id);
      assert (state - {id}).Keys == state.Keys - {id};
      state := state - {id};
      history := history + [Happening(id, Forgotten)];
    }

    /** save_state before it writes: entries beyond the cap are forgotten, those first seen longest ago first. */
    method Prune()
      requires Valid()
      modifies `state, `history
      ensures Valid()
      ensures |state| == if |old(state)| > 100 then 100 else |old(state)|
      ensures forall k :: k in state ==> k in old(state) && state[k] == old(state)[k]
      ensures forall k, d :: k in state && d in old(state) && d !in state ==>
                old(state)[d].firstSeen <= old(state)[k].firstSeen
      ensures |old(state)| <= 100 ==> state == old(state) && history == old(history)
      ensures exists gone :: history == old(history) + Forgets(gone)
                && (forall id :: id in gone ==> id in old(state) && id !in state)
    {
      ghost var before, gone: seq<Id> := state, [];
      assert history + Forgets([]) == history;
      while |state| > STATE_CAP
        invariant Valid()
        invariant |state| == |before| || STATE_CAP <= |state| < |before|
        invariant |state| == |before| ==> state == before && history == old(history)
        invariant OldestGone(before, state)
        invariant history == old(history) + Forgets(gone)
        invariant forall id :: id in gone ==> id in before && id !in state
        decreases |state|
      {
        ghost var was := state;
        var id := ForgetOldest();
        assert old(history) + Forgets(gone) + [Happening(id, Forgotten)] == old(history) + Forgets(gone + [id]);
        gone := gone + [id];
      }
    }

    /** save_state, with `file` what the file holds: a failed write leaves it there, and what the tick learned is
        gone. */
    method SaveState(file: map<Id, Entry>, saveOk: bool, ghost rows: seq<(Id, Row)>, ghost past: seq<Happening>)
      requires Valid() && Matches(file, rows, past)
      modifies `state, `history, `saved
      ensures Valid()
      ensures !saveOk ==> state == file && saved == rows && history == past
      ensures saveOk ==> saved == old(saved)
      ensures saveOk ==> |state| == if |old(state)| > 100 then 100 else |old(state)|
      ensures saveOk ==>
                && (forall k :: k in state ==> k in old(state) && state[k] == old(state)[k])
                && (forall k, d :: k in state && d in old(state) && d !in state ==>
                      old(state)[d].firstSeen <= old(state)[k].firstSeen)
      ensures saveOk && |old(state)| <= 100 ==> state == old(state) && history == old(history)
      ensures saveOk ==> exists gone :: history == old(history) + Forgets(gone)
                           && (forall id :: id in gone ==> id in old(state) && id !in state)
    {
      Prune();
      if !saveOk {
        state := file;
        saved, history := rows, past;
      }
    }

    /** The loop of tick(): every listed session in turn. */
    method ObserveAll(sessions: seq<(Id, Observation)>, now: real)
      requires Valid()
      modifies this
      ensures Valid() && history == old(history) + SeenAt(sessions, now)
      ensures state.Keys == old(state.Keys) + IdsIn(sessions)
      ensures BothGrow(old(reported), reported, old(saved), saved)
    {
      hide Matches;
      hide KindOf;
      hide BothGrow;
      BothGrowTogether(reported, reported, saved, saved, reported, saved);
      for i := 0 to |sessions|
        invariant Valid() && history == old(history) + SeenAt(sessions[..i], now)
        invariant state.Keys == old(state.Keys) + IdsIn(sessions[..i])
        invariant BothGrow(old(reported), reported, old(saved), saved)
      {
        ghost var was, kept := reported, saved;
        Observe(sessions[i].0, sessions[i].1, now);
        BothGrowTogether(old(reported), was, old(saved), kept, reported, saved);
        OneMoreSeen(sessions, i, now);
      }
      assert sessions[..|sessions|] == sessions;
    }

    /** tick: every listed session in turn, then the save. Saved or not, the rows filed are those of the history the
        tick extends. A failed save leaves the entries and the history of the tick before; otherwise, while at most 100
        sessions are known, nothing is forgotten, and the history grows by exactly the sessions seen. */
    method Tick(sessions: seq<(Id, Observation)>, now: real, saveOk: bool)
      requires Valid()
      modifies this
      ensures Valid() && (saveOk ==> |state| <= 100)
      ensures exists rows, seen ::
                && reported == old(reported) + rows && saved == (if saveOk then old(saved) + rows else old(saved))
                && Matches(seen, old(saved) + rows, old(history) + SeenAt(sessions, now))
      ensures !saveOk ==> state == old(state) && history == old(history)
      ensures saveOk ==> exists gone :: history == old(history) + SeenAt(sessions, now) + Forgets(gone)
      ensures saveOk && |old(state.Keys) + IdsIn(sessions)| <= 100 ==>
                history == old(history) + SeenAt(sessions, now)
    {
      hide Matches;
      hide KindOf;
      var file := state;
      ghost var was, past := saved, history;
      ObserveAll(sessions, now);
      ghost var seen, rows := state, reported[|old(reported)|..];
      SameRows(old(reported), reported, was, saved);
      hide BothGrow;
      assert Matches(seen, was + rows, past + SeenAt(sessions, now));
      SaveState(file, saveOk, was, past);
    }
  }

  /** What one tick of the listed sessions adds to the history. */
  function SeenAt(sessions: seq<(Id, Observation)>, now: real): (r: seq<Happening>)
    ensures |r| == |sessions|
    ensures forall k :: 0 <= k < |r| ==> r[k] == Happening(sessions[k].0, Saw(KindOf(sessions[k].1, now)))
  {
    seq(|sessions|, k requires 0 <= k < |sessions| => Happening(sessions[k].0, Saw(KindOf(sessions[k].1, now))))
  }
}
