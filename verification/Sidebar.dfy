/** renderSidebar of automation/dashboard/sessions-view.js: a child list reconciled in place with the sorted rows. */
module Sidebar {
  import opened Options
  import opened Sequences
  import opened StableSort

  /** A session row: its id, its sort key (live sessions first, then the most recently active) and its signature. */
  datatype Row = Row(id: string, key: real, sig: string)

  /** The handle of a DOM element. */
  type El = nat

  const BY_KEY: Row -> real := (r: Row) => r.key

  const BY_ID: Row -> string := (r: Row) => r.id

  ghost predicate DistinctIds(rows: seq<Row>) {
    forall i, j :: 0 <= i < j < |rows| ==> rows[i].id != rows[j].id
  }

  lemma SortedKeepsIds(rows: seq<Row>)
    requires DistinctIds(rows)
    ensures DistinctIds(Sort(rows, BY_KEY)) && forall r :: r in Sort(rows, BY_KEY) <==> r in rows
  {
    hide Sort;
    SortKeepsDistinct(rows, BY_KEY, BY_ID);
    var sorted := Sort(rows, BY_KEY);
    forall i, j | 0 <= i < j < |sorted| ensures sorted[i].id != sorted[j].id {
      assert BY_ID(sorted[i]) != BY_ID(sorted[j]);
    }
  }

  /** `rows` is `sessions` in order of the keys, those of one key as they came. */
  ghost predicate InKeyOrder(rows: seq<Row>, sessions: seq<Row>) {
    && multiset(rows) == multiset(sessions)
    && (forall i, j :: 0 <= i < j < |rows| ==> rows[i].key <= rows[j].key)
    && (forall a: Row, b: Row :: a.key == b.key ==> (InOrder(rows, a, b) <==> InOrder(sessions, a, b)))
  }

  lemma SortedInKeyOrder(sessions: seq<Row>)
    ensures InKeyOrder(Sort(sessions, BY_KEY), sessions)
  {
    hide Sort;
    SortOrders(sessions, BY_KEY);
    var sorted := Sort(sessions, BY_KEY);
    forall i, j | 0 <= i < j < |sorted| ensures sorted[i].key <= sorted[j].key {
      assert BY_KEY(sorted[i]) <= BY_KEY(sorted[j]);
    }
    forall a: Row, b: Row | a.key == b.key ensures InOrder(sorted, a, b) <==> InOrder(sessions, a, b) {
      assert BY_KEY(a) == BY_KEY(b);
      SortKeepsTies(sessions, BY_KEY, a, b);
    }
  }

  // ---------------------------------------------------------------- child lists

  function AsSet(els: seq<El>): set<El> { set el <- els }

  /** `s` without the elements of `gone`. */
  function Minus(s: seq<El>, gone: set<El>): (r: seq<El>)
    ensures forall c :: c in r <==> c in s && c !in gone
  {
    if s == [] then [] else (if s[0] in gone then [] else [s[0]]) + Minus(s[1..], gone)
  }

  function IndexOf(s: seq<El>, c: El): (i: nat)
    requires c in s
    ensures i < |s| && s[i] == c && c !in s[..i]
  {
    if s[0] == c then 0 else 1 + IndexOf(s[1..], c)
  }

  lemma {:induction false} FirstIndex(s: seq<El>, c: El, i: nat)
    requires i < |s| && s[i] == c && forall j :: 0 <= j < i ==> s[j] != c
    ensures IndexOf(s, c) == i
  {
    if i > 0 {
      FirstIndex(s[1..], c, i - 1);
    }
  }

  /** insertBefore: a node already in the list is taken out first (section 4.2.3 of the DOM Standard). */
  function InsertBefore(children: seq<El>, el: El, before: Option<El>): seq<El>
    requires before.Some? ==> before.value in children && before.value != el
  {
    var rest := Minus(children, {el});
    var at := if before.Some? then IndexOf(rest, before.value) else |rest|;
    rest[..at] + [el] + rest[at..]
  }

  lemma SumOfThree(a: seq<El>, b: seq<El>, c: seq<El>)
    ensures a + (b + c) == a + b + c
  {
  }

  lemma {:induction false} MinusOfSum(a: seq<El>, b: seq<El>, gone: set<El>)
    ensures Minus(a + b, gone) == Minus(a, gone) + Minus(b, gone)
  {
    if a == [] {
      assert a + b == b;
    } else {
      MinusOfSum(a[1..], b, gone);
      assert (a + b)[1..] == a[1..] + b && (a + b)[0] == a[0];
      var head := if a[0] in gone then [] else [a[0]];
      assert Minus(a + b, gone) == head + Minus(a[1..] + b, gone);
      SumOfThree(head, Minus(a[1..], gone), Minus(b, gone));
      hide Minus;
    }
  }

  lemma {:induction false} MinusTwice(s: seq<El>, a: set<El>, b: set<El>)
    ensures Minus(Minus(s, a), b) == Minus(s, a + b)
  {
    if s != [] {
      MinusTwice(s[1..], a, b);
      if s[0] in a {
        assert Minus(s, a) == Minus(s[1..], a);
        assert Minus(s, a + b) == Minus(s[1..], a + b);
      } else {
        assert ([s[0]] + Minus(s[1..], a))[1..] == Minus(s[1..], a);
      }
    }
  }

  lemma {:induction false} MinusAgrees(s: seq<El>, a: set<El>, b: set<El>)
    requires forall c <- s :: c in a <==> c in b
    ensures Minus(s, a) == Minus(s, b)
  {
    if s != [] {
      MinusAgrees(s[1..], a, b);
    }
  }

  lemma {:induction false} MinusNone(s: seq<El>, gone: set<El>)
    requires forall c <- s :: c !in gone
    ensures Minus(s, gone) == s
  {
    if s != [] {
      MinusNone(s[1..], gone);
    }
  }

  lemma NothingPlaced(s: seq<El>)
    ensures Minus(s, AsSet([])) == s
  {
    MinusNone(s, AsSet([]));
  }

  lemma {:induction false} MinusDistinct(s: seq<El>, gone: set<El>)
    requires Distinct(s)
    ensures Distinct(Minus(s, gone))
  {
    if s != [] {
      MinusDistinct(s[1..], gone);
      assert forall c <- Minus(s[1..], gone) :: c in s[1..];
    }
  }

  /** One step of the loop puts `el` next after the rows already placed, whatever stood there. */
  lemma InsertPlaces(placed: seq<El>, rest: seq<El>, el: El)
    requires Distinct(placed + rest) && el !in placed && (rest != [] ==> rest[0] != el)
    ensures InsertBefore(placed + rest, el, if rest == [] then None else Some(rest[0])) ==
            placed + [el] + Minus(rest, {el})
  {
    MinusOfSum(placed, rest, {el});
    MinusNone(placed, {el});
    var kept := placed + Minus(rest, {el});
    if rest != [] {
      assert rest[0] in placed + rest;
      assert Minus(rest, {el})[0] == rest[0];
      assert kept[|placed|] == rest[0];
      forall j | 0 <= j < |placed| ensures kept[j] != rest[0] {
        assert (placed + rest)[j] == placed[j] && (placed + rest)[|placed|] == rest[0];
      }
      FirstIndex(kept, rest[0], |placed|);
    }
  }

  /** An element that stands where it belongs stays there. */
  lemma AlreadyPlaced(placed: seq<El>, rest: seq<El>, el: El)
    requires Distinct(placed + rest) && rest != [] && rest[0] == el
    ensures placed + rest == placed + [el] + Minus(rest, {el})
  {
    hide Minus;
    RestIsOther(placed, rest);
    hide Distinct;
    MinusNone(rest[1..], {el});
    MinusFirst(rest);
    Regroup(placed, rest);
  }

  lemma MinusFirst(rest: seq<El>)
    requires rest != []
    ensures Minus(rest, {rest[0]}) == Minus(rest[1..], {rest[0]})
  {
  }

  lemma Regroup(placed: seq<El>, rest: seq<El>)
    requires rest != []
    ensures placed + rest == placed + [rest[0]] + rest[1..]
  {
  }

  lemma RestIsOther(placed: seq<El>, rest: seq<El>)
    requires Distinct(placed + rest) && rest != []
    ensures forall c <- rest[1..] :: c != rest[0]
  {
    forall j | 0 <= j < |rest[1..]| ensures rest[1..][j] != rest[0] {
      assert (placed + rest)[|placed|] == rest[0] && (placed + rest)[|placed| + 1 + j] == rest[1..][j];
    }
  }

  lemma PlacedDistinct(was: seq<El>, placed: seq<El>)
    requires Distinct(was) && Distinct(placed)
    ensures Distinct(placed + Minus(was, AsSet(placed)))
  {
    hide Minus;
    MinusDistinct(was, AsSet(placed));
    var rest := Minus(was, AsSet(placed));
    forall i, j | 0 <= i < |placed| && 0 <= j < |rest| ensures placed[i] != rest[j] {
      assert rest[j] in rest && placed[i] in AsSet(placed);
    }
  }

  /** What the loop makes of the child list at row `i`: `el` goes in front of whatever stands there. */
  function Next(children: seq<El>, i: nat, el: El): seq<El> {
    if i >= |children| then InsertBefore(children, el, None)
    else if children[i] != el then InsertBefore(children, el, Some(children[i]))
    else children
  }

  lemma NextMembers(children: seq<El>, i: nat, el: El)
    ensures forall c <- Next(children, i, el) :: c == el || c in children
  {
  }

  /** Whatever the list was, placing `el` after `placed` leaves them in front and the others behind, in order. */
  lemma NextPlace(was: seq<El>, placed: seq<El>, el: El)
    requires Distinct(was) && Distinct(placed) && el !in placed
    ensures Next(placed + Minus(was, AsSet(placed)), |placed|, el) == placed + [el] + Minus(was, AsSet(placed + [el]))
  {
    hide Minus;
    hide InsertBefore;
    var rest := Minus(was, AsSet(placed));
    PlacedDistinct(was, placed);
    MinusTwice(was, AsSet(placed), {el});
    assert AsSet(placed) + {el} == AsSet(placed + [el]);
    if rest != [] && rest[0] == el {
      AlreadyPlaced(placed, rest, el);
    } else {
      InsertPlaces(placed, rest, el);
    }
  }

  lemma Snoc(rows: seq<Row>, i: nat)
    requires i < |rows|
    ensures rows[..i + 1] == rows[..i] + [rows[i]]
  {
  }

  /** The elements of the rows, in order. */
  function ElsOf(rows: seq<Row>, rowEls: map<string, El>): (els: seq<El>)
    requires forall i :: 0 <= i < |rows| ==> rows[i].id in rowEls
    ensures |els| == |rows| && forall i :: 0 <= i < |rows| ==> els[i] == rowEls[rows[i].id]
  {
    seq(|rows|, i requires 0 <= i < |rows| => rowEls[rows[i].id])
  }

  ghost predicate Injective(rowEls: map<string, El>) {
    forall a, b :: a in rowEls && b in rowEls && rowEls[a] == rowEls[b] ==> a == b
  }

  lemma ElsDistinct(rows: seq<Row>, rowEls: map<string, El>)
    requires (forall i :: 0 <= i < |rows| ==> rows[i].id in rowEls) && DistinctIds(rows) && Injective(rowEls)
    ensures Distinct(ElsOf(rows, rowEls))
  {
    var els := ElsOf(rows, rowEls);
    forall i, j | 0 <= i < j < |els| ensures els[i] != els[j] {
      assert rows[i].id != rows[j].id;
    }
  }

  /** `more` keeps every element of `rowEls`. */
  predicate Extends(rowEls: map<string, El>, more: map<string, El>) {
    forall id <- rowEls :: id in more && more[id] == rowEls[id]
  }

  /** The elements of all of `rows` stand in front, in order, and then what else was in the list `was`. */
  ghost predicate InPlace(rows: seq<Row>, was: seq<El>, children: seq<El>, rowEls: map<string, El>) {
    && (forall i :: 0 <= i < |rows| ==> rows[i].id in rowEls)
    && children == ElsOf(rows, rowEls) + Minus(was, AsSet(ElsOf(rows, rowEls)))
  }

  lemma OneMoreInPlace(rows: seq<Row>, r: Row, was: seq<El>, children: seq<El>, rowEls: map<string, El>,
                       more: map<string, El>)
    requires InPlace(rows, was, children, rowEls) && DistinctIds(rows + [r]) && Distinct(was)
    requires Injective(more) && Extends(rowEls, more) && r.id in more
    ensures InPlace(rows + [r], was, Next(children, |rows|, more[r.id]), more)
    ensures Distinct(Next(children, |rows|, more[r.id]))
  {
    hide Minus;
    hide Next;
    var placed, el := ElsOf(rows, rowEls), more[r.id];
    assert ElsOf(rows + [r], more) == placed + [el];
    ElsDistinct(rows + [r], more);
    assert placed == ElsOf(rows + [r], more)[..|rows|];
    assert el !in placed by {
      assert ElsOf(rows + [r], more)[|rows|] == el;
    }
    NextPlace(was, placed, el);
    PlacedDistinct(was, placed + [el]);
  }

  // ---------------------------------------------------------------- the sidebar

  /** Elements are children at most once, belong to one row each, and were all created before; a row's
      recorded signature is that of the row its text was last rendered from. */
  ghost predicate Sound(children: seq<El>, rowEls: map<string, El>, rowSig: map<string, string>,
                        rendered: map<El, Row>, created: nat) {
    && Distinct(children) && (forall c <- children :: c < created)
    && (forall id <- rowEls :: rowEls[id] < created && rowEls[id] in rendered && id in rowSig)
    && (forall id <- rowSig :: id in rowEls)
    && (forall id <- rowEls :: rendered[rowEls[id]].sig == rowSig[id])
    && Injective(rowEls)
  }

  lemma SoundWithNew(children: seq<El>, rowEls: map<string, El>, rowSig: map<string, string>,
                     rendered: map<El, Row>, created: nat, r: Row)
    requires Sound(children, rowEls, rowSig, rendered, created) && r.id !in rowEls
    ensures Sound(children, rowEls[r.id := created], rowSig[r.id := r.sig], rendered[created := r], created + 1)
  {
  }

  lemma SoundWithText(children: seq<El>, rowEls: map<string, El>, rowSig: map<string, string>,
                      rendered: map<El, Row>, created: nat, r: Row)
    requires Sound(children, rowEls, rowSig, rendered, created) && r.id in rowEls
    ensures Sound(children, rowEls, rowSig[r.id := r.sig], rendered[rowEls[r.id] := r], created)
  {
  }

  lemma SoundWithNext(children: seq<El>, rowEls: map<string, El>, rowSig: map<string, string>,
                      rendered: map<El, Row>, created: nat, i: nat, id: string)
    requires Sound(children, rowEls, rowSig, rendered, created) && id in rowEls
             && Distinct(Next(children, i, rowEls[id]))
    ensures Sound(Next(children, i, rowEls[id]), rowEls, rowSig, rendered, created)
  {
    NextMembers(children, i, rowEls[id]);
  }

  lemma SoundWithout(children: seq<El>, rowEls: map<string, El>, rowSig: map<string, string>,
                     rendered: map<El, Row>, created: nat, id: string)
    requires Sound(children, rowEls, rowSig, rendered, created) && id in rowEls
    ensures Sound(Minus(children, {rowEls[id]}), rowEls - {id}, rowSig - {id}, rendered, created)
  {
    MinusDistinct(children, {rowEls[id]});
  }

  /** The elements of the sessions not among `ids`. */
  function StaleEls(rowEls: map<string, El>, ids: set<string>): set<El> {
    set id <- rowEls | id !in ids :: rowEls[id]
  }

  lemma NothingStale(children: seq<El>, rowEls: map<string, El>)
    ensures Minus(children, StaleEls(rowEls, rowEls.Keys)) == children
  {
    MinusNone(children, StaleEls(rowEls, rowEls.Keys));
  }

  lemma StaleGrows(was: seq<El>, rowEls: map<string, El>, kept: set<string>, id: string)
    requires id in kept && id in rowEls
    ensures Minus(Minus(was, StaleEls(rowEls, kept)), {rowEls[id]}) == Minus(was, StaleEls(rowEls, kept - {id}))
  {
    MinusTwice(was, StaleEls(rowEls, kept), {rowEls[id]});
    assert StaleEls(rowEls, kept) + {rowEls[id]} == StaleEls(rowEls, kept - {id});
  }

  /** Placing the rows and dropping the stale leaves the rows' elements and the nodes that were no session's. */
  lemma ListSettles(rows: seq<Row>, was: seq<El>, els0: map<string, El>, els: map<string, El>, sig: map<string, string>,
                    mid: seq<El>, els1: map<string, El>, sig1: map<string, string>, ids: set<string>, created: nat)
    requires InPlace(rows, was, mid, els) && Injective(els) && ids == set r <- rows :: r.id
    requires GivenTo(rows, els0, created, els, sig) && LeftOf(els, sig, els1, sig1, ids) && els1.Keys <= ids
    requires forall c <- was :: c < created
    ensures forall i :: 0 <= i < |rows| ==> rows[i].id in els1
    ensures Minus(mid, StaleEls(els, ids)) == ElsOf(rows, els1) + Minus(was, els0.Values)
  {
    hide Minus;
    var placed, stale := ElsOf(rows, els), StaleEls(els, ids);
    forall i | 0 <= i < |rows| ensures rows[i].id in els1 && placed[i] !in stale {
      assert rows[i] in rows;
    }
    assert placed == ElsOf(rows, els1);
    MinusOfSum(placed, Minus(was, AsSet(placed)), stale);
    MinusNone(placed, stale);
    MinusTwice(was, AsSet(placed), stale);
    forall c <- was ensures c in AsSet(placed) + stale <==> c in els0.Values {
      if c in els0.Values {
        OwnedAfter(rows, els0, els, ids, c);
      }
      if c in AsSet(placed) + stale {
        OwnedBefore(rows, els0, els, ids, created, c);
      }
    }
    MinusAgrees(was, AsSet(placed) + stale, els0.Values);
  }

  lemma OwnedAfter(rows: seq<Row>, els0: map<string, El>, els: map<string, El>, ids: set<string>, c: El)
    requires (forall i :: 0 <= i < |rows| ==> rows[i].id in els) && Extends(els0, els) && ids == set r <- rows :: r.id
    requires c in els0.Values
    ensures c in AsSet(ElsOf(rows, els)) + StaleEls(els, ids)
  {
    var placed := ElsOf(rows, els);
    var id :| id in els0 && els0[id] == c;
    assert id in els && els[id] == c;
    if id in ids {
      var r :| r in rows && r.id == id;
      var i :| 0 <= i < |rows| && rows[i] == r;
      assert placed[i] == c;
    }
  }

  lemma OwnedBefore(rows: seq<Row>, els0: map<string, El>, els: map<string, El>, ids: set<string>, created: nat, c: El)
    requires (forall i :: 0 <= i < |rows| ==> rows[i].id in els) && Extends(els0, els)
    requires (forall id <- els :: id in els0 || (els[id] >= created && id in ids)) && c < created
    requires c in AsSet(ElsOf(rows, els)) + StaleEls(els, ids)
    ensures c in els0.Values
  {
    var placed := ElsOf(rows, els);
    if c in AsSet(placed) {
      var i :| 0 <= i < |placed| && placed[i] == c;
      assert rows[i].id in els0;
    } else {
      var id :| id in els && id !in ids && els[id] == c;
      assert id in els0;
    }
  }

  /** What is left of the maps: no more than there was, and all that belongs to `ids`. */
  ghost predicate LeftOf(els0: map<string, El>, sig0: map<string, string>, rowEls: map<string, El>,
                         rowSig: map<string, string>, ids: set<string>) {
    && Extends(rowEls, els0) && (forall id <- els0 :: id in ids ==> id in rowEls)
    && rowSig.Keys == rowEls.Keys && forall id <- rowSig :: id in sig0 && rowSig[id] == sig0[id]
  }

  lemma LeftWithout(els0: map<string, El>, sig0: map<string, string>, rowEls: map<string, El>,
                    rowSig: map<string, string>, ids: set<string>, id: string)
    requires LeftOf(els0, sig0, rowEls, rowSig, ids) && id !in ids && id in rowEls
    ensures id in els0 && els0[id] == rowEls[id] && (rowEls - {id}).Keys == rowEls.Keys - {id}
    ensures LeftOf(els0, sig0, rowEls - {id}, rowSig - {id}, ids)
  {
  }

  lemma KeysWithout(rowEls: map<string, El>, ids: set<string>, id: string)
    requires id in rowEls.Keys - ids
    ensures (rowEls - {id}).Keys == rowEls.Keys - {id} && (rowEls - {id}).Keys - ids == rowEls.Keys - ids - {id}
    ensures |rowEls.Keys - ids - {id}| < |rowEls.Keys - ids|
  {
  }

  lemma LeftIsAll(els0: map<string, El>, sig0: map<string, string>, rowEls: map<string, El>,
                  rowSig: map<string, string>, ids: set<string>)
    requires LeftOf(els0, sig0, rowEls, rowSig, ids) && rowEls.Keys - ids == {}
    ensures rowEls.Keys <= ids && StaleEls(els0, rowEls.Keys) == StaleEls(els0, ids)
  {
    forall id <- rowEls.Keys ensures id in ids {
      assert id !in rowEls.Keys - ids;
    }
  }

  /** After both loops exactly the rows have elements, and the rows' signatures are on record. */
  lemma MapsSettle(rows: seq<Row>, was: seq<El>, mid: seq<El>, els0: map<string, El>, created0: nat,
                   els: map<string, El>, sig: map<string, string>,
                   els1: map<string, El>, sig1: map<string, string>, ids: set<string>)
    requires GivenTo(rows, els0, created0, els, sig) && LeftOf(els, sig, els1, sig1, ids) && els1.Keys <= ids
    requires InPlace(rows, was, mid, els) && ids == set r <- rows :: r.id
    ensures els1.Keys == ids
    ensures forall id <- els1 :: if id in els0 then els1[id] == els0[id] else els1[id] >= created0
    ensures forall i :: 0 <= i < |rows| ==> rows[i].id in els1 && rows[i].id in sig1 && sig1[rows[i].id] == rows[i].sig
  {
    forall i | 0 <= i < |rows|
      ensures rows[i].id in els1 && rows[i].id in sig1 && sig1[rows[i].id] == rows[i].sig
    {
      assert rows[i] in rows;
    }
    forall id <- ids ensures id in els1 {
      var r :| r in rows && r.id == id;
      var i :| 0 <= i < |rows| && rows[i] == r;
    }
  }

  /** Beyond the elements there were, exactly the rows have elements, all new ones; and the rows' signatures
      are on record. */
  ghost predicate GivenTo(rows: seq<Row>, els0: map<string, El>, created0: nat, rowEls: map<string, El>,
                          rowSig: map<string, string>) {
    && Extends(els0, rowEls)
    && (forall id <- rowEls ::
       id in els0 || (rowEls[id] >= created0 && exists i :: 0 <= i < |rows| && rows[i].id == id))
    && (forall i :: 0 <= i < |rows| ==> rows[i].id in rowSig && rowSig[rows[i].id] == rows[i].sig)
  }

  lemma NothingYet(children: seq<El>, rowEls: map<string, El>, rowSig: map<string, string>, created: nat)
    ensures InPlace([], children, children, rowEls) && GivenTo([], rowEls, created, rowEls, rowSig)
  {
    NothingPlaced(children);
    assert ElsOf([], rowEls) == [];
  }

  lemma GivenToMore(rows: seq<Row>, r: Row, els0: map<string, El>, created0: nat, rowEls: map<string, El>,
                    rowSig: map<string, string>, more: map<string, El>, moreSig: map<string, string>)
    requires GivenTo(rows, els0, created0, rowEls, rowSig) && Extends(rowEls, more) && DistinctIds(rows + [r])
    requires more.Keys == rowEls.Keys + {r.id} && (r.id in rowEls || more[r.id] >= created0)
    requires moreSig == rowSig[r.id := r.sig]
    ensures GivenTo(rows + [r], els0, created0, more, moreSig)
  {
    forall id <- more | id !in els0
      ensures more[id] >= created0 && exists i :: 0 <= i < |rows + [r]| && (rows + [r])[i].id == id
    {
      if id in rowEls {
        var i :| 0 <= i < |rows| && rows[i].id == id;
        assert (rows + [r])[i].id == id;
      } else {
        assert (rows + [r])[|rows|].id == id;
      }
    }
    forall i | 0 <= i < |rows| ensures rows[i].id != r.id {
      assert (rows + [r])[i].id != (rows + [r])[|rows|].id;
    }
  }

  class SidebarView {
    var rows: seq<Row>
    var children: seq<El>
    var rowEls: map<string, El>
    var rowSig: map<string, string>
    var rendered: map<El, Row>
    var selected: Option<string>
    var created: nat

    ghost predicate Valid()
      reads this
    {
      Sound(children, rowEls, rowSig, rendered, created)
    }

    constructor ()
      ensures Valid() && children == [] && rowEls == map[] && rows == []
    {
      rows, children, rowEls, rowSig, rendered, selected, created := [], [], map[], map[], map[], None, 0;
    }

    /** The element of a row: the one it has, or a new one; its text rendered when the signature says so. */
    method ElementOf(r: Row) returns (el: El)
      requires Valid()
      modifies this`rowEls, this`rowSig, this`rendered, this`created
      ensures Valid()
      ensures r.id in old(rowEls) ==> el == old(rowEls)[r.id] && rowEls == old(rowEls) && created == old(created)
      ensures r.id !in old(rowEls) ==>
              el == old(created) && rowEls == old(rowEls)[r.id := el] && created == old(created) + 1
      ensures rowEls[r.id] == el && rowSig == old(rowSig)[r.id := r.sig]
    {
      assert r.id in rowEls <==> r.id in rowSig;
      if r.id !in rowEls {
        SoundWithNew(children, rowEls, rowSig, rendered, created, r);
        hide Sound;
        el := created;
        created := created + 1;
        rowEls, rowSig, rendered := rowEls[r.id := el], rowSig[r.id := r.sig], rendered[el := r];
      } else {
        SoundWithText(children, rowEls, rowSig, rendered, created, r);
        hide Sound;
        el := rowEls[r.id];
        if rowSig[r.id] != r.sig {
          rowSig, rendered := rowSig[r.id := r.sig], rendered[el := r];
        }
      }
    }

    /** The first loop: every row gets its element, in its place. */
    method PlaceRows()
      requires Valid() && DistinctIds(rows)
      modifies this`children, this`rowEls, this`rowSig, this`rendered, this`created
      ensures Valid() && InPlace(rows, old(children), children, rowEls)
      ensures GivenTo(rows, old(rowEls), old(created), rowEls, rowSig)
    {
      NothingYet(children, rowEls, rowSig, created);
      assert Distinct(children);
      assert rows[..0] == [];
      hide Sound;
      hide InPlace;
      hide GivenTo;
      for i := 0 to |rows|
        invariant Valid() && created >= old(created) && InPlace(rows[..i], old(children), children, rowEls)
        invariant GivenTo(rows[..i], old(rowEls), old(created), rowEls, rowSig)
      {
        Snoc(rows, i);
        PlaceRow(i, old(children), old(rowEls), old(created));
      }
      assert rows[..|rows|] == rows;
    }

    /** One turn of the loop. */
    method PlaceRow(i: nat, ghost was: seq<El>, ghost els0: map<string, El>, ghost created0: nat)
      requires Valid() && DistinctIds(rows) && i < |rows| && Distinct(was) && InPlace(rows[..i], was, children, rowEls)
      requires GivenTo(rows[..i], els0, created0, rowEls, rowSig) && created0 <= created
      modifies this`children, this`rowEls, this`rowSig, this`rendered, this`created
      ensures Valid() && created >= created0 && InPlace(rows[..i] + [rows[i]], was, children, rowEls)
      ensures GivenTo(rows[..i] + [rows[i]], els0, created0, rowEls, rowSig)
    {
      hide Minus;
      hide InsertBefore;
      hide GivenTo;
      Snoc(rows, i);
      var el := ElementOf(rows[i]);
      GivenToMore(rows[..i], rows[i], els0, created0, old(rowEls), old(rowSig), rowEls, rowSig);
      OneMoreInPlace(rows[..i], rows[i], was, children, old(rowEls), rowEls);
      SoundWithNext(children, rowEls, rowSig, rendered, created, i, rows[i].id);
      hide InPlace;
      hide Sound;
      if i >= |children| {
        children := InsertBefore(children, el, None);
      } else if children[i] != el {
        children := InsertBefore(children, el, Some(children[i]));
      }
    }

    /** remove() and the two deletes. */
    method DropRow(id: string)
      requires Valid() && id in rowEls
      modifies this`children, this`rowEls, this`rowSig
      ensures Valid() && children == Minus(old(children), {old(rowEls)[id]})
      ensures rowEls == old(rowEls) - {id} && rowSig == old(rowSig) - {id}
    {
      SoundWithout(children, rowEls, rowSig, rendered, created, id);
      hide Sound;
      children := Minus(children, {rowEls[id]});
      rowEls := rowEls - {id};
      rowSig := rowSig - {id};
    }

    /** The second loop: the elements of sessions that are gone leave the list and the maps. */
    method DropStale(ids: set<string>)
      requires Valid()
      modifies this`children, this`rowEls, this`rowSig
      ensures Valid()
      ensures LeftOf(old(rowEls), old(rowSig), rowEls, rowSig, ids) && rowEls.Keys <= ids
      ensures children == Minus(old(children), StaleEls(old(rowEls), ids))
    {
      var stale := rowEls.Keys - ids;
      NothingStale(children, rowEls);
      assert LeftOf(rowEls, rowSig, rowEls, rowSig, ids);
      hide Minus;
      hide Distinct;
      hide Injective;
      hide Extends;
      hide LeftOf;
      hide StaleEls;
      hide Sound;
      while stale != {}
        invariant stale == rowEls.Keys - ids && Valid() && LeftOf(old(rowEls), old(rowSig), rowEls, rowSig, ids)
        invariant children == Minus(old(children), StaleEls(old(rowEls), rowEls.Keys))
        decreases |stale|
      {
        var id :| id in stale;
        LeftWithout(old(rowEls), old(rowSig), rowEls, rowSig, ids, id);
        StaleGrows(old(children), old(rowEls), rowEls.Keys, id);
        KeysWithout(rowEls, ids, id);
        DropRow(id);
        stale := stale - {id};
      }
      LeftIsAll(old(rowEls), old(rowSig), rowEls, rowSig, ids);
    }

    /** renderSidebar: whatever the list was, it comes out as the sorted rows' elements in order, each the one its
        session had before if it had one, and then, in their order, the nodes that were no session's. */
    method RenderSidebar(sessions: seq<Row>)
      requires Valid() && DistinctIds(sessions)
      modifies this
      ensures Valid() && rows == Sort(sessions, BY_KEY)
      ensures InKeyOrder(rows, sessions)
      ensures rowEls.Keys == set r <- rows :: r.id
      ensures forall id <- rowEls ::
              if id in old(rowEls) then rowEls[id] == old(rowEls)[id] else rowEls[id] >= old(created)
      ensures forall i :: 0 <= i < |rows| ==>
              rows[i].id in rowEls && rows[i].id in rowSig && rowSig[rows[i].id] == rows[i].sig
      ensures children == ElsOf(rows, rowEls) + Minus(old(children), old(rowEls).Values)
      ensures selected == if old(selected).Some? && old(selected).value in rowEls then old(selected)
                          else if rows == [] then None else Some(rows[0].id)
    {
      hide Sort;
      hide InKeyOrder;
      hide InPlace;
      hide GivenTo;
      hide LeftOf;
      hide Minus;
      assert Distinct(children) && forall c <- children :: c < created;
      SortedKeepsIds(sessions);
      SortedInKeyOrder(sessions);
      rows := Sort(sessions, BY_KEY);
      PlaceRows();
      ghost var mid, els, sig := children, rowEls, rowSig;
      assert Injective(rowEls);
      hide Sound;
      hide Injective;
      hide DistinctIds;
      var ids := set r <- rows :: r.id;
      DropStale(ids);
      MapsSettle(rows, old(children), mid, old(rowEls), old(created), els, sig, rowEls, rowSig, ids);
      ListSettles(rows, old(children), old(rowEls), els, sig, mid, rowEls, rowSig, ids, old(created));
      if selected == None || selected.value !in ids {
        selected := if rows == [] then None else Some(rows[0].id);
      }
    }
  }
}
