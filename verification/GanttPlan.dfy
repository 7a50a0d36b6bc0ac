/** computePlan of automation/dashboard/gantt.js: cascading start times by memoised recursion over
  dependency links that may contain cycles. Times are milliseconds, estimates seconds. */
module GanttPlan {
  import opened Options
  import opened FunctionalGraph

  /** (est[id] && est[id].s) || 0, in milliseconds. */
  function EstimateMs(est: map<Id, real>, id: Id): real {
    if id in est then est[id] * 1000.0 else 0.0
  }

  /** The estimates of the next `n` lanes along the chain from `a`, added up. */
  function ChainSum(dep: Links, est: map<Id, real>, a: Id, n: nat): real
    decreases n
  {
    if n == 0 || a !in dep then 0.0 else ChainSum(dep, est, dep[a], n - 1) + EstimateMs(est, dep[a])
  }

  /** Every placed lane outside `open` starts when its dependency ends, except that the links of the
      lanes in `cut` count as if their dependency started now. */
  ghost predicate Cascade(dep: Links, est: map<Id, real>, start: map<Id, real>, cut: set<Id>, open: set<Id>) {
    forall a :: a in start && a !in open ==>
      if a in dep then
        && dep[a] in start
        && (a !in cut ==> dep[a] !in open)
        && start[a] == (if a in cut then 0.0 else start[dep[a]]) + EstimateMs(est, dep[a])
      else start[a] == 0.0
  }

  /** The lane whose link a visit cuts: the last one added before running into the current path. */
  function Cut(t: Trail): set<Id> {
    if t.hit.Some? && t.added != [] then {t.added[|t.added| - 1]} else {}
  }

  function Flagged(t: Trail): set<Id> { if t.hit.Some? then {t.hit.value} else {} }

  /** The sets a planner keeps: placed lanes, flagged lanes and lanes with a cut link. */
  datatype Sets = Sets(placed: set<Id>, flagged: set<Id>, cut: set<Id>)

  /** A visit adds exactly what its walk meets, flags the lane it runs into and cuts its last link. */
  ghost predicate Visited(dep: Links, path: set<Id>, id: Id, before: Sets, after: Sets) {
    var t := Walk(dep, before.placed, path, id);
    after == Sets(Met(dep, before.placed, path, id), before.flagged + Flagged(t), before.cut + Cut(t))
  }

  lemma VisitStops(dep: Links, path: set<Id>, id: Id, before: Sets)
    requires id in before.placed || id in path || id !in dep
    ensures Visited(dep, path, id, before, Sets(before.placed + {id},
              before.flagged + (if id !in before.placed && id in path then {id} else {}), before.cut))
  {
    assert before.flagged + {} == before.flagged && before.cut + {} == before.cut;
  }

  /** One recursive step: what the visit of `id` adds to that of its dependency. */
  lemma VisitGoesOn(dep: Links, path: set<Id>, id: Id, before: Sets, inner: Sets)
    requires id !in before.placed && id !in path && id in dep && path !! before.placed
    requires before.cut <= before.placed && Visited(dep, path + {id}, dep[id], before, inner)
    ensures Visited(dep, path, id, before, Sets(inner.placed + {id}, inner.flagged,
              inner.cut + (if dep[id] in path + {id} then {id} else {})))
    ensures id !in inner.cut && dep[id] in inner.placed
  {
    var u := Walk(dep, before.placed, path + {id}, dep[id]);
    WalkIsGood(dep, before.placed, path + {id}, dep[id]);
    MetIsWalked(dep, before.placed, path + {id}, dep[id], dep[id]);
    assert inner.cut + {} == inner.cut;
  }

  /** Placing `id` once its dependency is placed. */
  lemma PlaceKeeps(dep: Links, est: map<Id, real>, start: map<Id, real>, cut: set<Id>, path: set<Id>, id: Id)
    requires id !in path && id !in cut && id in dep && dep[id] in start
    requires Cascade(dep, est, start, cut, path + {id})
    ensures var cuts := dep[id] in path + {id};
            var s := (if cuts then 0.0 else start[dep[id]]) + EstimateMs(est, dep[id]);
            Cascade(dep, est, start[id := s], cut + (if cuts then {id} else {}), path)
  {
  }

  datatype Schedule = Schedule(start: map<Id, real>, cycle: set<Id>)
  datatype Placing = Placing(after: Schedule, s: real)

  /** place(id, visiting) on values. */
  function Placed(dep: Links, est: map<Id, real>, st: Schedule, visiting: set<Id>, id: Id): Placing
    decreases dep.Keys - visiting
  {
    if id in st.start then Placing(st, st.start[id])
    else if id in visiting then Placing(Schedule(st.start[id := 0.0], st.cycle + {id}), 0.0)
    else if id !in dep then Placing(Schedule(st.start[id := 0.0], st.cycle), 0.0)
    else
      var next := Placed(dep, est, st, visiting + {id}, dep[id]);
      var s := next.s + EstimateMs(est, dep[id]);
      Placing(Schedule(next.after.start[id := s], next.after.cycle), s)
  }

  /** A placing adds exactly the lanes the walk meets, flags the one it runs into, and leaves every
      placed lane cascading from its dependency. */
  lemma {:induction false} PlacingKeeps(dep: Links, est: map<Id, real>, st: Schedule, cut: set<Id>, visiting: set<Id>,
                                        id: Id)
    returns (cut': set<Id>)
    requires visiting !! st.start.Keys && cut <= st.start.Keys && Cascade(dep, est, st.start, cut, visiting)
    ensures var p := Placed(dep, est, st, visiting, id);
            && Visited(dep, visiting, id, Sets(st.start.Keys, st.cycle, cut),
               Sets(p.after.start.Keys, p.after.cycle, cut'))
            && Cascade(dep, est, p.after.start, cut', visiting)
            && id in p.after.start && p.s == p.after.start[id]
            && (id in visiting ==> p.s == 0.0)
    decreases dep.Keys - visiting
  {
    var before := Sets(st.start.Keys, st.cycle, cut);
    var p := Placed(dep, est, st, visiting, id);
    if id in st.start || id in visiting || id !in dep {
      VisitStops(dep, visiting, id, before);
      cut' := cut;
      assert p.after.start.Keys == st.start.Keys + {id};
      assert st.cycle + {} == st.cycle;
    } else {
      var inner := Placed(dep, est, st, visiting + {id}, dep[id]);
      var cut1 := PlacingKeeps(dep, est, st, cut, visiting + {id}, dep[id]);
      VisitGoesOn(dep, visiting, id, before, Sets(inner.after.start.Keys, inner.after.cycle, cut1));
      PlaceKeeps(dep, est, inner.after.start, cut1, visiting, id);
      cut' := cut1 + (if dep[id] in visiting + {id} then {id} else {});
      assert p.after.start.Keys == inner.after.start.Keys + {id};
    }
  }

  class Planner {
    const dep: Links
    const est: map<Id, real>
    var start: map<Id, real>
    var cycle: set<Id>

    constructor (dep: Links, est: map<Id, real>)
      ensures this.dep == dep && this.est == est
      ensures start == map[] && cycle == {}
    {
      this.dep, this.est, start, cycle := dep, est, map[], {};
    }

    /** place(id, visiting): the callee's additions to `visiting` are undone when it returns. */
    method Place(id: Id, visiting: set<Id>) returns (s: real)
      modifies this
      ensures Placing(Schedule(start, cycle), s) == Placed(dep, est, Schedule(old(start), old(cycle)), visiting, id)
      decreases dep.Keys - visiting
    {
      if id in start {
        return start[id];
      }
      if id in visiting {
        cycle := cycle + {id};
        start := start[id := 0.0];
        return 0.0;
      }
      s := 0.0;
      if id in dep {
        var next := Place(dep[id], visiting + {id});
        s := next + EstimateMs(est, dep[id]);
      }
      start := start[id := s];
    }
  }

  /** Nothing is placed that no lane leads to. */
  ghost predicate ReachedFrom(dep: Links, lanes: seq<Id>, placed: set<Id>) {
    forall a :: a in placed ==> exists l :: l in lanes && Reaches(dep, l, a)
  }

  lemma VisitIsClosed(dep: Links, placed: set<Id>, id: Id)
    requires Closed(dep, placed)
    ensures var met := Met(dep, placed, {}, id);
            Closed(dep, met) && id in met && placed <= met
            && forall a :: a in met ==> a in placed || Reaches(dep, id, a)
  {
    var t, met := Walk(dep, placed, {}, id), Met(dep, placed, {}, id);
    WalkIsGood(dep, placed, {}, id);
    WalkCloses(dep, placed, id);
    forall a | a in met && a !in placed ensures Reaches(dep, id, a) {
      MetIsWalked(dep, placed, {}, id, a);
      var k :| 0 <= k < |t.added| && t.added[k] == a;
      IterAlong(dep, t.added, 0, k);
    }
  }

  lemma VisitFlags(dep: Links, placed: set<Id>, flagged: set<Id>, id: Id)
    requires Closed(dep, placed) && OnePerCycle(dep, placed, flagged)
    ensures OnePerCycle(dep, Met(dep, placed, {}, id), flagged + Flagged(Walk(dep, placed, {}, id)))
  {
    var t := Walk(dep, placed, {}, id);
    WalkIsGood(dep, placed, {}, id);
    if t.hit.Some? {
      AddedLeads(dep, placed, id, t.hit.value);
      assert Iter(dep, t.hit.value, 0) == t.hit;
    }
    MarkStep(dep, placed, flagged, id, Flagged(t));
  }

  lemma VisitCuts(dep: Links, placed: set<Id>, cut: set<Id>, id: Id)
    requires Closed(dep, placed) && OnePerCycle(dep, placed, cut)
    ensures OnePerCycle(dep, Met(dep, placed, {}, id), cut + Cut(Walk(dep, placed, {}, id)))
  {
    var t := Walk(dep, placed, {}, id);
    WalkIsGood(dep, placed, {}, id);
    if t.hit.Some? {
      AddedLeads(dep, placed, id, t.hit.value);
    }
    MarkStep(dep, placed, cut, id, Cut(t));
  }

  /** A top-level visit flags the lane the cut link leads to. */
  lemma FlaggedIsTarget(dep: Links, placed: set<Id>, cut: set<Id>, id: Id)
    ensures Targets(dep, cut) + Flagged(Walk(dep, placed, {}, id)) == Targets(dep, cut + Cut(Walk(dep, placed, {}, id)))
  {
    WalkIsGood(dep, placed, {}, id);
  }

  /** The lanes the given ones wait for. */
  function Targets(dep: Links, cut: set<Id>): set<Id> { set c | c in cut && c in dep :: dep[c] }

  /** dep[l.id] = depOfLane(l), for every lane. */
  function LinksOf(lanes: seq<Id>, depOfLane: map<Id, Id>): Links {
    map l | l in lanes && l in depOfLane :: depOfLane[l]
  }

  /** A schedule as computePlan leaves it: every placed lane starts when its dependency ends, or now
      when it has none; on each cycle exactly one link is cut, whose owner starts as if the lane it
      waits for, the flagged one, started now. */
  ghost predicate Cascades(dep: Links, est: map<Id, real>, start: map<Id, real>, cycle: set<Id>, cut: set<Id>) {
    && Cascade(dep, est, start, cut, {})
    && OnePerCycle(dep, start.Keys, cut)
    && cycle == Targets(dep, cut)
  }

  /** What holds between two top-level placings. */
  ghost predicate Planned(dep: Links, est: map<Id, real>, lanes: seq<Id>, st: Schedule, cut: set<Id>) {
    && Closed(dep, st.start.Keys) && ReachedFrom(dep, lanes, st.start.Keys)
    && OnePerCycle(dep, st.start.Keys, st.cycle) && Cascades(dep, est, st.start, st.cycle, cut)
  }

  lemma PlanStep(dep: Links, est: map<Id, real>, lanes: seq<Id>, st: Schedule, cut: set<Id>, id: Id)
    returns (cut': set<Id>)
    requires Planned(dep, est, lanes, st, cut) && id in lanes
    ensures var after := Placed(dep, est, st, {}, id).after;
            Planned(dep, est, lanes, after, cut') && id in after.start && st.start.Keys <= after.start.Keys
  {
    var after := Placed(dep, est, st, {}, id).after;
    cut' := PlacingKeeps(dep, est, st, cut, {}, id);
    VisitIsClosed(dep, st.start.Keys, id);
    VisitFlags(dep, st.start.Keys, st.cycle, id);
    VisitCuts(dep, st.start.Keys, cut, id);
    FlaggedIsTarget(dep, st.start.Keys, cut, id);
  }

  /** dep[l.id] = depOfLane(l), lane by lane. */
  method LinkLanes(lanes: seq<Id>, depOfLane: map<Id, Id>) returns (dep: Links)
    ensures dep == LinksOf(lanes, depOfLane)
  {
    dep := map[];
    for i := 0 to |lanes|
      invariant dep == LinksOf(lanes[..i], depOfLane)
    {
      assert lanes[..i + 1] == lanes[..i] + [lanes[i]];
      if lanes[i] in depOfLane {
        dep := dep[lanes[i] := depOfLane[lanes[i]]];
      }
    }
    assert lanes[..|lanes|] == lanes;
  }

  lemma NothingPlanned(dep: Links, est: map<Id, real>, lanes: seq<Id>)
    ensures Planned(dep, est, lanes, Schedule(map[], {}), {})
  {
  }

  lemma PlannedMeans(dep: Links, est: map<Id, real>, lanes: seq<Id>, st: Schedule, cut: set<Id>)
    requires Planned(dep, est, lanes, st, cut)
    ensures ReachedFrom(dep, lanes, st.start.Keys) && OnePerCycle(dep, st.start.Keys, st.cycle)
    ensures Cascades(dep, est, st.start, st.cycle, cut)
  {
  }

  /** computePlan, for any lane order and any links: it terminates, places the lanes and what they wait
      for, flags exactly one lane of each cycle and none off a cycle, and cascades. */
  method ComputePlan(lanes: seq<Id>, est: map<Id, real>, depOfLane: map<Id, Id>)
    returns (start: map<Id, real>, cycle: set<Id>)
    ensures forall l :: l in lanes ==> l in start
    ensures ReachedFrom(LinksOf(lanes, depOfLane), lanes, start.Keys)
    ensures OnePerCycle(LinksOf(lanes, depOfLane), start.Keys, cycle)
    ensures exists cut :: Cascades(LinksOf(lanes, depOfLane), est, start, cycle, cut)
  {
    var dep := LinkLanes(lanes, depOfLane);
    ghost var links := dep;
    var planner := new Planner(dep, est);
    ghost var cut := {};
    NothingPlanned(links, est, lanes);
    hide LinksOf;
    hide Placed;
    hide Planned;
    for i := 0 to |lanes|
      invariant planner.dep == links && planner.est == est && fresh(planner)
      invariant forall k :: 0 <= k < i ==> lanes[k] in planner.start
      invariant Planned(links, est, lanes, Schedule(planner.start, planner.cycle), cut)
    {
      cut := PlanStep(links, est, lanes, Schedule(planner.start, planner.cycle), cut, lanes[i]);
      var _ := planner.Place(lanes[i], {});
    }
    start, cycle := planner.start, planner.cycle;
    PlannedMeans(links, est, lanes, Schedule(start, cycle), cut);
  }

  /** A lane that waits for none starts now; one that waits starts when that lane ends, a thousand milliseconds to a
      second of its estimate, none counting as zero. The lane with the cut link alone starts as if that lane started
      now, and it is on a cycle. */
  lemma PlanMeans(lanes: seq<Id>, est: map<Id, real>, depOfLane: map<Id, Id>, start: map<Id, real>, cycle: set<Id>,
                  cut: set<Id>, l: Id)
    requires Cascades(LinksOf(lanes, depOfLane), est, start, cycle, cut) && l in lanes && l in start
    ensures l !in depOfLane ==> start[l] == 0.0
    ensures l in depOfLane ==>
              var d := depOfLane[l];
              && d in start
              && start[l] == (if l in cut then 0.0 else start[d]) + (if d in est then est[d] * 1000.0 else 0.0)
    ensures l in cut ==> l in depOfLane && depOfLane[l] in cycle && OnCycle(LinksOf(lanes, depOfLane), l)
  {
    if l in cut {
      CycleReturns(LinksOf(lanes, depOfLane), l, 1);
    }
  }

  /** A lane whose chain ends starts exactly at the sum of the estimates along it. */
  lemma {:induction false} AcyclicLaneIsExact(dep: Links, est: map<Id, real>, start: map<Id, real>, cycle: set<Id>,
                                              cut: set<Id>, a: Id, n: nat)
    requires Cascades(dep, est, start, cycle, cut) && a in start && Iter(dep, a, n) == None
    ensures start[a] == ChainSum(dep, est, a, n)
    decreases n
  {
    if a in dep {
      AcyclicLaneIsExact(dep, est, start, cycle, cut, dep[a], n - 1);
      if a in cut {
        CycleNeverEnds(dep, a);
      }
    }
  }

  /** From a lane of a cycle to the lane with the cut link, as many links on. */
  lemma {:induction false} ToTheCut(dep: Links, est: map<Id, real>, start: map<Id, real>, cycle: set<Id>, cut: set<Id>,
                                    x: Id, c: Id, n: nat)
    requires Cascades(dep, est, start, cycle, cut) && x in start && OnCycle(dep, x)
    requires c in cut && Iter(dep, x, n) == Some(c) && forall k: nat :: k < n ==> Iter(dep, x, k) != Some(c)
    ensures start[x] == ChainSum(dep, est, x, n + 1)
    decreases n
  {
    CycleReturns(dep, x, 1);
    assert x in dep && Iter(dep, dep[x], 0).Some?;
    if n == 0 {
      assert ChainSum(dep, est, dep[x], 0) == 0.0;
    } else {
      assert Reaches(dep, x, c);
      assert Iter(dep, x, 0) == Some(x);
      assert Iter(dep, x, 1) == Some(dep[x]);
      CycleMembers(dep, x, dep[x]);
      forall k: nat | k < n - 1 ensures Iter(dep, dep[x], k) != Some(c) {
        assert Iter(dep, x, k + 1) == Iter(dep, dep[x], k);
      }
      ToTheCut(dep, est, start, cycle, cut, dep[x], c, n - 1);
    }
  }

  /** The flagged lane of a cycle is not pinned to now: it starts after one full turn of its cycle. */
  lemma FlaggedLaneStartsAfterOneTurn(dep: Links, est: map<Id, real>, start: map<Id, real>, cycle: set<Id>,
                                      cut: set<Id>, b: Id)
    returns (p: nat)
    requires Cascades(dep, est, start, cycle, cut) && b in cycle
    ensures p > 0 && Iter(dep, b, p) == Some(b) && forall q: nat :: 0 < q < p ==> Iter(dep, b, q) != Some(b)
    ensures b in start && start[b] == ChainSum(dep, est, b, p)
  {
    var c :| c in cut && c in dep && dep[c] == b;
    assert Iter(dep, c, 1) == Iter(dep, b, 0);
    CycleMembers(dep, c, b);
    var n: nat :| Iter(dep, b, n) == Some(c);
    n := FirstHit(dep, b, c, n);
    ToTheCut(dep, est, start, cycle, cut, b, c, n);
    p := n + 1;
    IterAdd(dep, b, n, 1);
    forall q: nat | 0 < q < p ensures Iter(dep, b, q) != Some(b) {
      if Iter(dep, b, q) == Some(b) {
        IterAdd(dep, b, q, n - q);
        assert false;
      }
    }
  }

  lemma FirstHit(dep: Links, a: Id, c: Id, n: nat) returns (m: nat)
    requires Iter(dep, a, n) == Some(c)
    ensures m <= n && Iter(dep, a, m) == Some(c) && forall k: nat :: k < m ==> Iter(dep, a, k) != Some(c)
    decreases n
  {
    if k: nat :| k < n && Iter(dep, a, k) == Some(c) {
      m := FirstHit(dep, a, c, k);
    } else {
      m := n;
    }
  }
}
