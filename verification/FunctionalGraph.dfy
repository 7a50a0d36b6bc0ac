/** Graphs in which every node has at most one successor: the "after <lane>" links of the
  schedule tab. A chain either ends or runs into a cycle. */
module FunctionalGraph {
  import opened Options

  type Id = string
  type Links = map<Id, Id>

  /** The node `n` links further along, or None when the chain is shorter. */
  function Iter(dep: Links, a: Id, n: nat): Option<Id>
    decreases n
  {
    if n == 0 then Some(a) else if a in dep then Iter(dep, dep[a], n - 1) else None
  }

  ghost predicate Reaches(dep: Links, a: Id, b: Id) { exists n: nat :: Iter(dep, a, n) == Some(b) }

  ghost predicate OnCycle(dep: Links, a: Id) { exists n: nat :: n > 0 && Iter(dep, a, n) == Some(a) }

  /** The chain from `a` is acyclic: it comes to a node without a link. */
  ghost predicate Ends(dep: Links, a: Id) { exists n: nat :: Iter(dep, a, n) == None }

  predicate Closed(dep: Links, done: set<Id>) {
    forall a :: a in done && a in dep ==> dep[a] in done
  }

  lemma {:induction false} IterAdd(dep: Links, a: Id, m: nat, n: nat)
    requires Iter(dep, a, m).Some?
    ensures Iter(dep, a, m + n) == Iter(dep, Iter(dep, a, m).value, n)
    decreases m
  {
    if m > 0 {
      IterAdd(dep, dep[a], m - 1, n);
    }
  }

  lemma {:induction false} StaysClosed(dep: Links, done: set<Id>, a: Id, n: nat)
    requires Closed(dep, done) && a in done
    ensures Iter(dep, a, n).Some? ==> Iter(dep, a, n).value in done
    decreases n
  {
    if n > 0 && a in dep {
      StaysClosed(dep, done, dep[a], n - 1);
    }
  }

  /** A node on a cycle never runs out of links, and every node it reaches reaches it back. */
  lemma {:induction false} CycleReturns(dep: Links, a: Id, n: nat)
    requires OnCycle(dep, a)
    ensures Iter(dep, a, n).Some? && Reaches(dep, Iter(dep, a, n).value, a)
  {
    if n == 0 {
      assert Iter(dep, a, 0) == Some(a);
    } else {
      CycleReturns(dep, a, n - 1);
      var b := Iter(dep, a, n - 1).value;
      var m: nat :| Iter(dep, b, m) == Some(a);
      var p: nat :| p > 0 && Iter(dep, a, p) == Some(a);
      var back := if m > 0 then m else p;
      assert Iter(dep, b, back) == Some(a) && b in dep;
      IterAdd(dep, a, n - 1, 1);
      assert Iter(dep, b, 1) == Iter(dep, dep[b], 0);
      assert Iter(dep, a, n) == Some(dep[b]);
      assert Iter(dep, dep[b], back - 1) == Some(a);
    }
  }

  lemma ReachesTrans(dep: Links, a: Id, b: Id, c: Id)
    requires Reaches(dep, a, b) && Reaches(dep, b, c)
    ensures Reaches(dep, a, c)
  {
    var m: nat :| Iter(dep, a, m) == Some(b);
    var n: nat :| Iter(dep, b, n) == Some(c);
    IterAdd(dep, a, m, n);
  }

  /** A node reached from a cycle lies on that cycle. */
  lemma CycleMembers(dep: Links, a: Id, b: Id)
    requires OnCycle(dep, a) && Reaches(dep, a, b)
    ensures OnCycle(dep, b) && Reaches(dep, b, a)
  {
    var n: nat :| Iter(dep, a, n) == Some(b);
    CycleReturns(dep, a, n);
    var m: nat :| Iter(dep, b, m) == Some(a);
    if m + n > 0 {
      IterAdd(dep, b, m, n);
    }
  }

  lemma CycleNeverEnds(dep: Links, a: Id)
    requires OnCycle(dep, a)
    ensures !Ends(dep, a)
  {
    forall n: nat ensures Iter(dep, a, n).Some? {
      CycleReturns(dep, a, n);
    }
  }

  // ---------------------------------------------------------------- the depth-first walk

  datatype Trail = Trail(added: seq<Id>, hit: Option<Id>)

  /** The nodes a depth-first visit of `id` meets for the first time, in order, and the node on the
      current path it runs into, if it does. */
  function Walk(dep: Links, done: set<Id>, path: set<Id>, id: Id): Trail
    decreases dep.Keys - path
  {
    if id in done then Trail([], None)
    else if id in path then Trail([], Some(id))
    else if id !in dep then Trail([id], None)
    else
      var t := Walk(dep, done, path + {id}, dep[id]);
      Trail([id] + t.added, t.hit)
  }

  /** The added nodes are new and distinct, each links to the next, and the last one has no link,
      or links into `done`, or links to the hit. */
  ghost predicate GoodTrail(dep: Links, done: set<Id>, path: set<Id>, id: Id, t: Trail) {
    && (forall i :: 0 <= i < |t.added| ==> t.added[i] !in done && t.added[i] !in path)
    && (forall i, j :: 0 <= i < j < |t.added| ==> t.added[i] != t.added[j])
    && (forall i :: 0 <= i < |t.added| - 1 ==> t.added[i] in dep && dep[t.added[i]] == t.added[i + 1])
    && (t.added != [] ==> t.added[0] == id)
    && (t.added == [] && t.hit == None ==> id in done)
    && (t.added == [] && t.hit.Some? ==> t.hit.value == id && id in path && id !in done)
    && (t.added != [] ==>
          var last := t.added[|t.added| - 1];
          if t.hit.Some? then
            last in dep && dep[last] == t.hit.value && t.hit.value !in done
            && (t.hit.value in path || t.hit.value in t.added)
          else last in dep ==> dep[last] in done)
  }

  lemma {:induction false} WalkIsGood(dep: Links, done: set<Id>, path: set<Id>, id: Id)
    ensures GoodTrail(dep, done, path, id, Walk(dep, done, path, id))
    decreases dep.Keys - path
  {
    if id !in done && id !in path && id in dep {
      WalkIsGood(dep, done, path + {id}, dep[id]);
    }
  }

  /** Everything met once the visit of `id` is over. */
  function Met(dep: Links, done: set<Id>, path: set<Id>, id: Id): set<Id>
    decreases dep.Keys - path
  {
    if id in done || id in path || id !in dep then done + {id}
    else Met(dep, done, path + {id}, dep[id]) + {id}
  }

  lemma {:induction false} MetIsWalked(dep: Links, done: set<Id>, path: set<Id>, id: Id, x: Id)
    ensures var t := Walk(dep, done, path, id);
            x in Met(dep, done, path, id) <==> x in done || x in t.added || t.hit == Some(x)
    decreases dep.Keys - path
  {
    if id !in done && id !in path && id in dep {
      MetIsWalked(dep, done, path + {id}, dep[id], x);
    }
  }

  lemma WalkCloses(dep: Links, done: set<Id>, id: Id)
    requires Closed(dep, done)
    ensures Closed(dep, Met(dep, done, {}, id)) && id in Met(dep, done, {}, id)
    ensures done <= Met(dep, done, {}, id)
  {
    var met, t := Met(dep, done, {}, id), Walk(dep, done, {}, id);
    WalkIsGood(dep, done, {}, id);
    forall a | a in met && a in dep ensures dep[a] in met {
      MetIsWalked(dep, done, {}, id, a);
      MetIsWalked(dep, done, {}, id, dep[a]);
      if a in t.added {
        var i :| 0 <= i < |t.added| && t.added[i] == a;
        if i < |t.added| - 1 {
          assert t.added[i + 1] in t.added;
        }
      }
    }
    forall a | a in done ensures a in met {
      MetIsWalked(dep, done, {}, id, a);
    }
  }

  lemma {:induction false} IterAlong(dep: Links, xs: seq<Id>, i: nat, k: nat)
    requires forall j :: 0 <= j < |xs| - 1 ==> xs[j] in dep && dep[xs[j]] == xs[j + 1]
    requires i + k < |xs|
    ensures Iter(dep, xs[i], k) == Some(xs[i + k])
    decreases k
  {
    if k > 0 {
      IterAlong(dep, xs, i + 1, k - 1);
    }
  }

  /** A path whose last node links back to `h` on it: from every node of it `h` is reached, and
      `h` and the last node lie on one cycle. */
  lemma BackLink(dep: Links, xs: seq<Id>, i: nat, h: Id)
    requires forall j :: 0 <= j < |xs| - 1 ==> xs[j] in dep && dep[xs[j]] == xs[j + 1]
    requires i < |xs| && h in xs && xs[|xs| - 1] in dep && dep[xs[|xs| - 1]] == h
    ensures Reaches(dep, xs[i], h) && OnCycle(dep, h)
    ensures Reaches(dep, h, xs[|xs| - 1]) && OnCycle(dep, xs[|xs| - 1])
  {
    var n := |xs|;
    var last := xs[n - 1];
    assert Iter(dep, last, 1) == Some(h) by {
      assert Iter(dep, h, 0) == Some(h);
    }
    IterAlong(dep, xs, i, n - 1 - i);
    IterAdd(dep, xs[i], n - 1 - i, 1);
    assert Iter(dep, xs[i], n - i) == Some(h);
    var j :| 0 <= j < n && xs[j] == h;
    IterAlong(dep, xs, j, n - 1 - j);
    IterAdd(dep, h, n - 1 - j, 1);
    assert Iter(dep, h, n - j) == Some(h);
    CycleMembers(dep, h, last);
  }

  /** Every added node leads to the last one; with a hit, on to the hit, which lies on a cycle
      together with the last node. */
  lemma AddedLeads(dep: Links, done: set<Id>, id: Id, x: Id)
    requires Closed(dep, done)
    requires x in Walk(dep, done, {}, id).added
    ensures var t := Walk(dep, done, {}, id);
            var last := t.added[|t.added| - 1];
            && Reaches(dep, x, last)
            && (t.hit.Some? ==> Reaches(dep, x, t.hit.value) && OnCycle(dep, t.hit.value)
                                && OnCycle(dep, last) && Reaches(dep, t.hit.value, last))
  {
    WalkIsGood(dep, done, {}, id);
    var t := Walk(dep, done, {}, id);
    var i :| 0 <= i < |t.added| && t.added[i] == x;
    IterAlong(dep, t.added, i, |t.added| - 1 - i);
    if t.hit.Some? {
      BackLink(dep, t.added, i, t.hit.value);
    }
  }

  /** Without a hit no added node lies on a cycle. */
  lemma NoHitNoCycle(dep: Links, done: set<Id>, id: Id, x: Id)
    requires Closed(dep, done)
    requires var t := Walk(dep, done, {}, id); t.hit == None && x in t.added
    ensures !OnCycle(dep, x)
  {
    WalkIsGood(dep, done, {}, id);
    if OnCycle(dep, x) {
      AddedLeads(dep, done, id, x);
      var t := Walk(dep, done, {}, id);
      var last := t.added[|t.added| - 1];
      CycleMembers(dep, x, last);
      var p: nat :| p > 0 && Iter(dep, last, p) == Some(last);
      if last in dep {
        StaysClosed(dep, done, dep[last], p - 1);
      }
      assert false;
    }
  }

  // ---------------------------------------------------------------- one mark per cycle

  /** `marks` holds exactly one node of each cycle inside `done`, and nothing off a cycle. */
  ghost predicate OnePerCycle(dep: Links, done: set<Id>, marks: set<Id>) {
    && marks <= done
    && (forall b :: b in marks ==> OnCycle(dep, b))
    && (forall a :: a in done && OnCycle(dep, a) ==> exists b :: b in marks && Reaches(dep, a, b))
    && (forall b, c :: b in marks && c in marks && Reaches(dep, b, c) ==> b == c)
  }

  /** A visit marks one node of the cycle it closes; any node of that cycle will do. */
  lemma MarkStep(dep: Links, done: set<Id>, marks: set<Id>, id: Id, extra: set<Id>)
    requires Closed(dep, done) && OnePerCycle(dep, done, marks)
    requires var t := Walk(dep, done, {}, id);
             if t.hit.Some? then exists b ::
                 extra == {b} && b in t.added && Reaches(dep, t.hit.value, b) && OnCycle(dep, b)
             else extra == {}
    ensures OnePerCycle(dep, Met(dep, done, {}, id), marks + extra)
  {
    var t, met := Walk(dep, done, {}, id), Met(dep, done, {}, id);
    WalkIsGood(dep, done, {}, id);
    WalkCloses(dep, done, id);
    forall b | b in extra ensures b in met && b !in done {
      MetIsWalked(dep, done, {}, id, b);
    }
    forall a | a in met && OnCycle(dep, a) ensures exists c :: c in marks + extra && Reaches(dep, a, c) {
      MetIsWalked(dep, done, {}, id, a);
      if a in done {
        var c :| c in marks && Reaches(dep, a, c);
        assert c in marks + extra;
      } else if t.hit == None {
        NoHitNoCycle(dep, done, id, a);
      } else {
        var b :| b in extra;
        AddedLeads(dep, done, id, a);
        ReachesTrans(dep, a, t.hit.value, b);
      }
    }
    forall c, d | c in marks + extra && d in marks + extra && Reaches(dep, c, d) ensures c == d {
      if c != d {
        CycleMembers(dep, c, d);
        var inside, outside := if c in extra then d else c, if c in extra then c else d;
        var n: nat :| Iter(dep, inside, n) == Some(outside);
        StaysClosed(dep, done, inside, n);
      }
    }
  }
}
