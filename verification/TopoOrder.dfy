/** topoOneoff of automation/dashboard/schedule-view.js: dependencies-first row order by a depth-first
  visit that tolerates cycles. */
module TopoOrder {
  import opened Options
  import opened FunctionalGraph
  import opened Sequences

  datatype Lane = Lane(id: Id, dep: Option<Id>)

  function Ids(lanes: seq<Lane>): (ids: seq<Id>)
    ensures |ids| == |lanes| && forall i :: 0 <= i < |ids| ==> ids[i] == lanes[i].id
  {
    seq(|lanes|, i requires 0 <= i < |lanes| => lanes[i].id)
  }

  /** The links the visit follows: `l.dep && byId[l.dep]`; with distinct ids the lanes are their ids. */
  function LinksOf(lanes: seq<Lane>): Links {
    if lanes == [] then map[]
    else
      var last := lanes[|lanes| - 1];
      var links := LinksOf(lanes[..|lanes| - 1]);
      if last.dep.Some? then links[last.id := last.dep.value] else links - {last.id}
  }

  function Within(links: Links, ids: set<Id>): Links {
    map id | id in links && id in ids && links[id] in ids :: links[id]
  }

  datatype Order = Order(placed: set<Id>, out: seq<Id>)

  /** visit(l, stack) on values. */
  function Visited(dep: Links, st: Order, stack: set<Id>, id: Id): Order
    decreases dep.Keys - stack
  {
    if id in st.placed then st
    else if id in stack then Order(st.placed + {id}, st.out)
    else
      var after := if id in dep then Visited(dep, st, stack + {id}, dep[id]) else st;
      Order(after.placed + {id}, after.out + [id])
  }

  class Topo {
    const dep: Links
    var placed: set<Id>
    var out: seq<Id>

    constructor (dep: Links)
      ensures this.dep == dep && placed == {} && out == []
    {
      this.dep, placed, out := dep, {}, [];
    }

    method Visit(id: Id, stack: set<Id>)
      modifies this
      ensures Order(placed, out) == Visited(dep, Order(old(placed), old(out)), stack, id)
      decreases dep.Keys - stack
    {
      if id in placed {
        return;
      }
      if id in stack {
        placed := placed + {id};
        return;
      }
      if id in dep {
        Visit(dep[id], stack + {id});
      }
      placed, out := placed + {id}, out + [id];
    }
  }

  // ---------------------------------------------------------------- what a visit adds

  function Reverse(xs: seq<Id>): (r: seq<Id>)
    ensures |r| == |xs| && forall i :: 0 <= i < |r| ==> r[i] == xs[|xs| - 1 - i]
  {
    seq(|xs|, i requires 0 <= i < |xs| => xs[|xs| - 1 - i])
  }

  /** A visit places what the walk meets and appends its trail backwards. */
  lemma {:induction false} VisitIsWalk(dep: Links, st: Order, stack: set<Id>, id: Id)
    ensures Visited(dep, st, stack, id) ==
            Order(Met(dep, st.placed, stack, id), st.out + Reverse(Walk(dep, st.placed, stack, id).added))
    decreases dep.Keys - stack
  {
    var t := Walk(dep, st.placed, stack, id);
    if id in st.placed || id in stack {
      assert Reverse(t.added) == [] && st.out + [] == st.out;
      assert id in st.placed ==> st.placed + {id} == st.placed;
    } else if id !in dep {
      assert Reverse(t.added) == [id];
    } else {
      VisitIsWalk(dep, st, stack + {id}, dep[id]);
      var u := Walk(dep, st.placed, stack + {id}, dep[id]);
      assert Reverse(t.added) == Reverse(u.added) + [id];
      assert st.out + Reverse(u.added) + [id] == st.out + Reverse(t.added);
    }
  }

  ghost predicate Before(out: seq<Id>, a: Id, b: Id) {
    exists i, j :: 0 <= i < j < |out| && out[i] == a && out[j] == b
  }

  /** `out` lists `placed` without repetition, and every placed lane comes after its dependency except
      the lanes of `early`, one on each cycle. */
  ghost predicate Ordered(dep: Links, st: Order, early: set<Id>) {
    && Distinct(st.out)
    && (forall a :: a in st.out <==> a in st.placed)
    && Closed(dep, st.placed)
    && OnePerCycle(dep, st.placed, early)
    && (forall a :: a in st.placed && a in dep ==> (a in early <==> !Before(st.out, dep[a], a)))
  }

  lemma BeforeGrows(out: seq<Id>, more: seq<Id>, a: Id, b: Id)
    requires Distinct(out + more) && b in out
    ensures Before(out + more, a, b) <==> Before(out, a, b)
  {
    if Before(out + more, a, b) {
      var i, j :| 0 <= i < j < |out + more| && (out + more)[i] == a && (out + more)[j] == b;
      var k :| 0 <= k < |out| && out[k] == b;
      assert (out + more)[k] == b;
      assert out[i] == a && out[j] == b;
    }
    if Before(out, a, b) {
      var i, j :| 0 <= i < j < |out| && out[i] == a && out[j] == b;
      assert (out + more)[i] == a && (out + more)[j] == b;
    }
  }

  /** The lane of a visit that comes before its dependency: the last one added, when the walk runs
      into its own path. */
  function Early(t: Trail): set<Id> {
    if t.hit.Some? && t.added != [] then {t.added[|t.added| - 1]} else {}
  }

  lemma EarlyMarks(dep: Links, placed: set<Id>, early: set<Id>, id: Id)
    requires Closed(dep, placed) && OnePerCycle(dep, placed, early)
    ensures OnePerCycle(dep, Met(dep, placed, {}, id), early + Early(Walk(dep, placed, {}, id)))
  {
    var t := Walk(dep, placed, {}, id);
    WalkIsGood(dep, placed, {}, id);
    if t.hit.Some? {
      AddedLeads(dep, placed, id, t.hit.value);
    }
    MarkStep(dep, placed, early, id, Early(t));
  }

  /** Where an added lane and its dependency land in the output. */
  lemma AddedPosition(dep: Links, st: Order, id: Id, a: Id)
    requires Closed(dep, st.placed) && forall x :: x in st.out <==> x in st.placed
    requires var t := Walk(dep, st.placed, {}, id); a in t.added && a in dep
    requires Distinct(st.out + Reverse(Walk(dep, st.placed, {}, id).added))
    ensures var t := Walk(dep, st.placed, {}, id);
            a in Early(t) <==> !Before(st.out + Reverse(t.added), dep[a], a)
  {
    var t := Walk(dep, st.placed, {}, id);
    var out, n := st.out + Reverse(t.added), |t.added|;
    WalkIsGood(dep, st.placed, {}, id);
    var k :| 0 <= k < n && t.added[k] == a;
    var p := |st.out| + n - 1 - k;
    assert out[p] == a;
    if k < n - 1 {
      assert out[p - 1] == dep[a];
      assert Before(out, dep[a], a);
    } else if t.hit == None {
      var i :| 0 <= i < |st.out| && st.out[i] == dep[a];
      assert out[i] == dep[a];
      assert Before(out, dep[a], a);
    } else {
      var m :| 0 <= m < n && t.added[m] == dep[a];
      assert out[|st.out| + n - 1 - m] == dep[a];
    }
  }

  lemma OutAfter(dep: Links, st: Order, id: Id)
    requires Closed(dep, st.placed) && Distinct(st.out) && forall x :: x in st.out <==> x in st.placed
    ensures var out := st.out + Reverse(Walk(dep, st.placed, {}, id).added);
            Distinct(out) && forall x :: x in out <==> x in Met(dep, st.placed, {}, id)
  {
    var t := Walk(dep, st.placed, {}, id);
    var out := st.out + Reverse(t.added);
    WalkIsGood(dep, st.placed, {}, id);
    forall x ensures x in out <==> x in Met(dep, st.placed, {}, id) {
      MetIsWalked(dep, st.placed, {}, id, x);
      if x in t.added {
        var k :| 0 <= k < |t.added| && t.added[k] == x;
        assert Reverse(t.added)[|t.added| - 1 - k] == x;
      }
    }
  }

  lemma Positions(dep: Links, st: Order, early: set<Id>, id: Id, a: Id)
    requires Ordered(dep, st, early) && a in Met(dep, st.placed, {}, id) && a in dep
    ensures var t := Walk(dep, st.placed, {}, id);
            a in early + Early(t) <==> !Before(st.out + Reverse(t.added), dep[a], a)
  {
    var t := Walk(dep, st.placed, {}, id);
    OutAfter(dep, st, id);
    WalkIsGood(dep, st.placed, {}, id);
    MetIsWalked(dep, st.placed, {}, id, a);
    if a in st.placed {
      BeforeGrows(st.out, Reverse(t.added), dep[a], a);
    } else {
      AddedPosition(dep, st, id, a);
    }
  }

  /** A top-level visit keeps the order invariant. */
  lemma VisitKeeps(dep: Links, st: Order, early: set<Id>, id: Id) returns (early': set<Id>)
    requires Ordered(dep, st, early)
    ensures Ordered(dep, Visited(dep, st, {}, id), early')
    ensures id in Visited(dep, st, {}, id).placed && st.placed <= Visited(dep, st, {}, id).placed
  {
    early' := early + Early(Walk(dep, st.placed, {}, id));
    var after := Visited(dep, st, {}, id);
    VisitIsWalk(dep, st, {}, id);
    OutAfter(dep, st, id);
    EarlyMarks(dep, st.placed, early, id);
    WalkCloses(dep, st.placed, id);
    forall a | a in after.placed && a in dep ensures a in early' <==> !Before(after.out, dep[a], a) {
      Positions(dep, st, early, id, a);
    }
  }

  /** A top-level visit of a listed lane places listed lanes only. */
  lemma VisitStaysListed(dep: Links, ids: set<Id>, st: Order, id: Id)
    requires id in ids && Closed(dep, ids) && st.placed <= ids
    ensures Visited(dep, st, {}, id).placed <= ids
  {
    VisitIsWalk(dep, st, {}, id);
    WalkIsGood(dep, st.placed, {}, id);
    var t := Walk(dep, st.placed, {}, id);
    forall x | x in Met(dep, st.placed, {}, id) ensures x in ids {
      MetIsWalked(dep, st.placed, {}, id, x);
      if x in t.added {
        var k :| 0 <= k < |t.added| && t.added[k] == x;
        IterAlong(dep, t.added, 0, k);
        StaysClosed(dep, ids, id, k);
      }
    }
  }

  /** The lanes that do not come after their dependency. */
  ghost function OutOfOrder(dep: Links, out: seq<Id>): set<Id> {
    set a | a in out && a in dep && !Before(out, dep[a], a)
  }

  lemma OrderedMeans(dep: Links, st: Order, early: set<Id>, ids: seq<Id>)
    requires Ordered(dep, st, early) && Distinct(ids)
    requires (forall a :: a in ids ==> a in st.placed) && (forall a :: a in st.placed ==> a in ids)
    ensures multiset(st.out) == multiset(ids) && OutOfOrder(dep, st.out) == early
    ensures forall a :: a in ids && a in dep && !OnCycle(dep, a) ==> Before(st.out, dep[a], a)
  {
    SameElements(st.out, ids);
    forall a | a in early ensures a in dep {
      CycleReturns(dep, a, 1);
    }
  }

  /** The lanes visited one after the other. */
  function OrderOf(dep: Links, ids: seq<Id>): Order {
    if ids == [] then Order({}, [])
    else Visited(dep, OrderOf(dep, ids[..|ids| - 1]), {}, ids[|ids| - 1])
  }

  lemma OneMoreVisit(dep: Links, ids: seq<Id>, i: nat)
    requires i < |ids|
    ensures OrderOf(dep, ids[..i + 1]) == Visited(dep, OrderOf(dep, ids[..i]), {}, ids[i])
  {
    assert ids[..i + 1][..i] == ids[..i];
  }

  lemma DirectVisit(dep: Links, st: Order, id: Id)
    requires id !in st.placed && (id in dep ==> dep[id] in st.placed)
    ensures Visited(dep, st, {}, id) == Order(st.placed + {id}, st.out + [id])
  {
  }

  /** Every lane is listed after the lane it waits for. */
  ghost predicate Fed(dep: Links, ids: seq<Id>) {
    forall i :: 0 <= i < |ids| && ids[i] in dep ==> dep[ids[i]] in ids[..i]
  }

  lemma NextFed(dep: Links, ids: seq<Id>, n: nat)
    requires n < |ids| && Distinct(ids) && Fed(dep, ids)
    ensures ids[n] !in ids[..n] && (ids[n] in dep ==> dep[ids[n]] in ids[..n])
    ensures ids[..n + 1] == ids[..n] + [ids[n]]
  {
  }

  /** A feed that already lists every lane after its dependency keeps its order. */
  lemma {:induction false} FeedOrderIsKept(dep: Links, ids: seq<Id>, n: nat)
    requires n <= |ids| && Distinct(ids) && Fed(dep, ids)
    ensures OrderOf(dep, ids[..n]).out == ids[..n] && forall a :: a in OrderOf(dep, ids[..n]).placed <==> a in ids[..n]
  {
    hide Visited;
    if n > 0 {
      hide Fed;
      hide Distinct;
      FeedOrderIsKept(dep, ids, n - 1);
      OneMoreVisit(dep, ids, n - 1);
      NextFed(dep, ids, n - 1);
      hide OrderOf;
      DirectVisit(dep, OrderOf(dep, ids[..n - 1]), ids[n - 1]);
    }
  }

  /** The links and the ids of the lanes. */
  method LinksById(lanes: seq<Lane>) returns (links: Links, byId: set<Id>)
    ensures links == LinksOf(lanes) && byId == set a | a in Ids(lanes)
  {
    links, byId := map[], {};
    for i := 0 to |lanes|
      invariant links == LinksOf(lanes[..i]) && byId == set a | a in Ids(lanes[..i])
    {
      assert lanes[..i + 1][..i] == lanes[..i];
      assert Ids(lanes[..i + 1]) == Ids(lanes[..i]) + [lanes[i].id];
      links := if lanes[i].dep.Some? then links[lanes[i].id := lanes[i].dep.value] else links - {lanes[i].id};
      byId := byId + {lanes[i].id};
    }
    assert lanes[..|lanes|] == lanes;
  }

  /** The visits one after the other keep the order invariant and place listed lanes only. */
  lemma {:induction false} OrderKeeps(dep: Links, listed: set<Id>, ids: seq<Id>, n: nat) returns (early: set<Id>)
    requires n <= |ids| && Closed(dep, listed) && forall a <- ids :: a in listed
    ensures Ordered(dep, OrderOf(dep, ids[..n]), early) && OrderOf(dep, ids[..n]).placed <= listed
    ensures forall k :: 0 <= k < n ==> ids[k] in OrderOf(dep, ids[..n]).placed
  {
    if n == 0 {
      early := {};
    } else {
      early := OrderKeeps(dep, listed, ids, n - 1);
      var st := OrderOf(dep, ids[..n - 1]);
      OneMoreVisit(dep, ids, n - 1);
      hide OrderOf;
      hide Visited;
      VisitStaysListed(dep, listed, st, ids[n - 1]);
      early := VisitKeeps(dep, st, early, ids[n - 1]);
    }
  }

  lemma OrderedMarks(dep: Links, st: Order, early: set<Id>, listed: set<Id>)
    requires Ordered(dep, st, early) && st.placed == listed
    ensures OnePerCycle(dep, listed, early)
  {
  }

  /** Every lane visited in turn, on a fresh board. */
  method VisitAll(dep: Links, ids: seq<Id>) returns (out: seq<Id>)
    ensures out == OrderOf(dep, ids).out
  {
    hide Visited;
    var topo := new Topo(dep);
    for i := 0 to |ids|
      invariant topo.dep == dep && fresh(topo) && Order(topo.placed, topo.out) == OrderOf(dep, ids[..i])
    {
      OneMoreVisit(dep, ids, i);
      topo.Visit(ids[i], {});
    }
    assert ids[..|ids|] == ids;
    out := topo.out;
  }

  /** A lane has a link exactly when it waits for a listed lane, and then to that lane. */
  lemma {:induction false} LinksIff(lanes: seq<Lane>, i: nat)
    requires Distinct(Ids(lanes)) && i < |lanes|
    ensures lanes[i].id in LinksOf(lanes) <==> lanes[i].dep.Some?
    ensures lanes[i].dep.Some? ==> LinksOf(lanes)[lanes[i].id] == lanes[i].dep.value
    ensures LinksOf(lanes).Keys <= set a | a in Ids(lanes)
  {
    var n := |lanes| - 1;
    var front := lanes[..n];
    assert forall j :: 0 <= j < n ==> Ids(front)[j] == Ids(lanes)[j];
    assert Ids(lanes) == Ids(front) + [lanes[n].id];
    if n > 0 {
      LinksIff(front, if i < n then i else 0);
      assert i < n ==> front[i] == lanes[i] && Ids(lanes)[i] != Ids(lanes)[n];
    } else {
      assert LinksOf(front) == map[];
    }
  }

  lemma WithinIff(lanes: seq<Lane>, i: nat)
    requires Distinct(Ids(lanes)) && i < |lanes|
    ensures var ids := set a | a in Ids(lanes); var dep := Within(LinksOf(lanes), ids);
            && (lanes[i].id in dep <==> lanes[i].dep.Some? && lanes[i].dep.value in ids)
            && (lanes[i].id in dep ==> dep[lanes[i].id] == lanes[i].dep.value)
  {
    LinksIff(lanes, i);
    assert Ids(lanes)[i] in Ids(lanes);
  }

  /** topoOneoff: a permutation of the lanes in which every lane off a cycle comes after its
      dependency, and on each cycle exactly one lane does not. */
  method TopoOneoff(lanes: seq<Lane>) returns (out: seq<Id>)
    requires Distinct(Ids(lanes))
    ensures multiset(out) == multiset(Ids(lanes))
    ensures var ids := set a | a in Ids(lanes);
            var dep := Within(LinksOf(lanes), ids);
            && OnePerCycle(dep, ids, OutOfOrder(dep, out))
            && (forall a :: a in ids && a in dep && !OnCycle(dep, a) ==> Before(out, dep[a], a))
            && out == OrderOf(dep, Ids(lanes)).out
            && dep.Keys <= ids
            && (forall l <- lanes ::
                  && (l.id in dep <==> l.dep.Some? && l.dep.value in ids)
                  && (l.id in dep ==> dep[l.id] == l.dep.value)
                  && (l.id in dep && !OnCycle(dep, l.id) ==> Before(out, l.dep.value, l.id)))
  {
    var links, byId := LinksById(lanes);
    forall l <- lanes
      ensures l.id in Within(links, byId) <==> l.dep.Some? && l.dep.value in byId
      ensures l.id in Within(links, byId) ==> Within(links, byId)[l.id] == l.dep.value
    {
      var i :| 0 <= i < |lanes| && lanes[i] == l;
      WithinIff(lanes, i);
    }
    hide LinksOf;
    hide OrderOf;
    hide OnePerCycle;
    hide OutOfOrder;
    ghost var ids, dep := Ids(lanes), Within(links, byId);
    out := VisitAll(Within(links, byId), Ids(lanes));
    ghost var early := OrderKeeps(dep, byId, ids, |ids|);
    assert ids[..|ids|] == ids;
    OrderedMeans(dep, OrderOf(dep, ids), early, ids);
    OrderedMarks(dep, OrderOf(dep, ids), early, byId);
  }
}
