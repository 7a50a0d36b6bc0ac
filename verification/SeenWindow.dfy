/** automation/jobs/gdelt-news.py: one best item per URL, ranked; a day's window against repeats; a few picks per
  lane. */
module SeenWindow {
  import opened Options
  import opened StableSort

  datatype Lane = World | Good

  datatype Item = Item(url: string, lane: Lane, score: real)

  const URL: Item -> string := (i: Item) => i.url

  const DOWN: Item -> real := (i: Item) => -i.score

  // ---------------------------------------------------------------- ranking

  /** The best items so far, in the order their URLs first came up; only a higher score takes a place. */
  function Better(best: seq<Item>, x: Item): seq<Item> {
    if best == [] then [x]
    else if best[0].url == x.url then [if x.score > best[0].score then x else best[0]] + best[1..]
    else [best[0]] + Better(best[1..], x)
  }

  /** The best item of every URL among the well-formed rows. */
  function Best(rows: seq<Option<Item>>): seq<Item> {
    if rows == [] then []
    else
      var best := Best(rows[..|rows| - 1]);
      if rows[|rows| - 1].Some? then Better(best, rows[|rows| - 1].value) else best
  }

  /** rank_rows; a malformed or uninteresting row is None. */
  method RankRows(rows: seq<Option<Item>>) returns (items: seq<Item>)
    ensures items == Sort(Best(rows), DOWN)
  {
    var best: seq<Item> := [];
    for i := 0 to |rows|
      invariant best == Best(rows[..i])
    {
      assert rows[..i + 1][..i] == rows[..i];
      if rows[i].Some? {
        best := Better(best, rows[i].value);
      }
    }
    assert rows[..|rows|] == rows;
    items := Sort(best, DOWN);
  }

  function Lookup(items: seq<Item>, url: string): (r: Option<Item>)
    ensures r.Some? ==> r.value in items && r.value.url == url
    ensures r == None ==> forall i :: 0 <= i < |items| ==> items[i].url != url
  {
    if items == [] then None else if items[0].url == url then Some(items[0]) else Lookup(items[1..], url)
  }

  ghost predicate OneEach(items: seq<Item>) {
    forall i, j :: 0 <= i < j < |items| ==> items[i].url != items[j].url
  }

  /** The higher of what is known of a URL and the next row; the earlier one on a tie. */
  function Higher(known: Option<Item>, x: Item): Item {
    if known.Some? && x.score <= known.value.score then known.value else x
  }

  lemma {:induction false} BetterLookup(best: seq<Item>, x: Item, url: string)
    ensures Lookup(Better(best, x), url) == if url == x.url then Some(Higher(Lookup(best, url), x))
            else Lookup(best, url)
  {
    if best != [] && best[0].url != x.url {
      BetterLookup(best[1..], x, url);
    }
  }

  lemma {:induction false} BetterOneEach(best: seq<Item>, x: Item)
    requires OneEach(best)
    ensures OneEach(Better(best, x))
  {
    if best != [] && best[0].url != x.url {
      BetterOneEach(best[1..], x);
      BetterLookup(best[1..], x, best[0].url);
    }
  }

  /** The first of the highest-scoring rows of a URL. */
  function BestOf(rows: seq<Option<Item>>, url: string): Option<Item> {
    if rows == [] then None
    else
      var known, last := BestOf(rows[..|rows| - 1], url), rows[|rows| - 1];
      if last.Some? && last.value.url == url then Some(Higher(known, last.value)) else known
  }

  /** Row `i` is the first of the highest-scoring rows of its URL. */
  ghost predicate FirstHighest(rows: seq<Option<Item>>, i: nat) {
    && i < |rows| && rows[i].Some?
    && forall j :: 0 <= j < |rows| && rows[j].Some? && rows[j].value.url == rows[i].value.url ==>
         rows[j].value.score <= rows[i].value.score && (j < i ==> rows[j].value.score < rows[i].value.score)
  }

  lemma AddFirst(rows: seq<Option<Item>>, front: seq<Option<Item>>, last: Option<Item>)
    requires rows == front + [last] && last.Some?
    requires forall i :: 0 <= i < |front| && front[i].Some? ==> front[i].value.url != last.value.url
    ensures FirstHighest(rows, |front|)
  {
    assert forall j :: 0 <= j < |front| ==> rows[j] == front[j];
  }

  lemma {:induction false} BestOfIsFirstHighest(rows: seq<Option<Item>>, url: string)
    ensures BestOf(rows, url) == None <==> forall i :: 0 <= i < |rows| && rows[i].Some? ==> rows[i].value.url != url
    ensures BestOf(rows, url).Some? ==>
              exists i: nat :: FirstHighest(rows, i) && rows[i] == BestOf(rows, url) && rows[i].value.url == url
  {
    if rows != [] {
      var front, n := rows[..|rows| - 1], |rows| - 1;
      BestOfIsFirstHighest(front, url);
      var last := rows[n];
      hide FirstHighest;
      if BestOf(front, url).Some? {
        var i: nat :| FirstHighest(front, i) && front[i] == BestOf(front, url) && front[i].value.url == url;
        AddRow(rows, i);
      } else if last.Some? && last.value.url == url {
        assert rows == front + [last];
        AddFirst(rows, front, last);
      }
    }
  }

  lemma AddRow(rows: seq<Option<Item>>, i: nat)
    requires rows != [] && FirstHighest(rows[..|rows| - 1], i)
    ensures i < |rows| - 1 && rows[i].Some?
    ensures var last := rows[|rows| - 1];
            if last.Some? && last.value.url == rows[i].value.url && last.value.score > rows[i].value.score
            then FirstHighest(rows, |rows| - 1) else FirstHighest(rows, i)
  {
    assert forall j :: 0 <= j < |rows| - 1 ==> rows[j] == rows[..|rows| - 1][j];
  }

  lemma {:induction false} BestLooksUp(rows: seq<Option<Item>>, url: string)
    ensures Lookup(Best(rows), url) == BestOf(rows, url) && OneEach(Best(rows))
  {
    if rows != [] {
      var front, last := rows[..|rows| - 1], rows[|rows| - 1];
      BestLooksUp(front, url);
      if last.Some? {
        BetterLookup(Best(front), last.value, url);
        BetterOneEach(Best(front), last.value);
      }
    }
  }

  predicate Descending(items: seq<Item>) {
    forall i, j :: 0 <= i < j < |items| ==> items[i].score >= items[j].score
  }

  lemma {:induction false} LookupFinds(items: seq<Item>, y: Item)
    requires OneEach(items)
    ensures y in items <==> Lookup(items, y.url) == Some(y)
  {
    if y in items {
      var i :| 0 <= i < |items| && items[i] == y;
      if Lookup(items, y.url).Some? {
        var j :| 0 <= j < |items| && items[j] == Lookup(items, y.url).value;
        assert items[i].url == items[j].url;
      }
    }
  }

  /** The ranking lists every URL of the well-formed rows once, with the first of its highest-scoring rows, highest
      first. */
  lemma RankingIsBest(rows: seq<Option<Item>>, y: Item)
    ensures var items := Sort(Best(rows), DOWN);
            && Descending(items) && OneEach(items)
            && (y in items <==> exists i: nat :: FirstHighest(rows, i) && rows[i] == Some(y))
  {
    hide Sort;
    hide Best;
    hide BestOf;
    BestLooksUp(rows, y.url);
    BestOfIsFirstHighest(rows, y.url);
    LookupFinds(Best(rows), y);
    SortKeepsUrls(Best(rows));
    if i: nat :| FirstHighest(rows, i) && rows[i] == Some(y) {
      var k: nat :| FirstHighest(rows, k) && rows[k] == BestOf(rows, y.url) && rows[k].value.url == y.url;
      assert i == k;
    }
  }

  lemma SortKeepsUrls(items: seq<Item>)
    requires OneEach(items)
    ensures OneEach(Sort(items, DOWN)) && Descending(Sort(items, DOWN))
    ensures forall y :: y in Sort(items, DOWN) <==> y in items
  {
    hide Sort;
    assert forall i, j :: 0 <= i < j < |items| ==> URL(items[i]) != URL(items[j]);
    SortKeepsDistinct(items, DOWN, URL);
    SortOrders(items, DOWN);
    var sorted := Sort(items, DOWN);
    forall i, j | 0 <= i < j < |sorted| ensures sorted[i].url != sorted[j].url && sorted[i].score >= sorted[j].score {
      assert URL(sorted[i]) != URL(sorted[j]) && DOWN(sorted[i]) <= DOWN(sorted[j]);
    }
  }

  // ---------------------------------------------------------------- picking

  const MAX_WORLD: nat := 4
  const MAX_GOOD: nat := 2

  function Cap(lane: Lane): nat { if lane.World? then MAX_WORLD else MAX_GOOD }

  /** The items of one lane, in order. */
  function InLane(items: seq<Item>, lane: Lane): seq<Item> {
    if items == [] then []
    else InLane(items[..|items| - 1], lane) + if items[|items| - 1].lane == lane then [items[|items| - 1]] else []
  }

  /** The loop that fills a block: items in rank order, as long as their lane has room. */
  function Picks(unseen: seq<Item>): seq<Item> {
    if unseen == [] then []
    else
      var picked, x := Picks(unseen[..|unseen| - 1]), unseen[|unseen| - 1];
      if |InLane(picked, x.lane)| < Cap(x.lane) then picked + [x] else picked
  }

  method Pick(unseen: seq<Item>) returns (picked: seq<Item>)
    ensures picked == Picks(unseen)
  {
    picked := [];
    var world, good := 0, 0;
    for i := 0 to |unseen|
      invariant picked == Picks(unseen[..i]) && world == |InLane(picked, World)| && good == |InLane(picked, Good)|
    {
      assert unseen[..i + 1][..i] == unseen[..i];
      assert (picked + [unseen[i]])[..|picked|] == picked;
      if unseen[i].lane == World && world < MAX_WORLD {
        picked, world := picked + [unseen[i]], world + 1;
      } else if unseen[i].lane == Good && good < MAX_GOOD {
        picked, good := picked + [unseen[i]], good + 1;
      }
    }
    assert unseen[..|unseen|] == unseen;
  }

  function Take(items: seq<Item>, n: nat): seq<Item> { if |items| <= n then items else items[..n] }

  lemma InLaneSnoc(items: seq<Item>, x: Item, lane: Lane)
    ensures InLane(items + [x], lane) == InLane(items, lane) + if x.lane == lane then [x] else []
  {
    assert (items + [x])[..|items|] == items;
  }

  lemma TakeStep(all: seq<Item>, x: Item, n: nat)
    ensures |Take(all, n)| <= n
    ensures Take(all + [x], n) == if |Take(all, n)| < n then Take(all, n) + [x] else Take(all, n)
    ensures Take(all + [], n) == Take(all, n)
  {
    assert all + [] == all;
  }

  /** In either lane a block holds the first items of the lane, up to its cap, in order. */
  lemma {:induction false} PicksAreFirst(unseen: seq<Item>, lane: Lane)
    ensures InLane(Picks(unseen), lane) == Take(InLane(unseen, lane), Cap(lane))
  {
    if unseen != [] {
      var front, x := unseen[..|unseen| - 1], unseen[|unseen| - 1];
      PicksAreFirst(front, lane);
      PicksAreFirst(front, x.lane);
      InLaneSnoc(Picks(front), x, lane);
      TakeStep(InLane(front, lane), x, Cap(lane));
      hide InLane;
      hide Take;
    }
  }

  lemma {:induction false} LaneIsPart(items: seq<Item>, lane: Lane)
    ensures forall y :: y in InLane(items, lane) <==> y in items && y.lane == lane
  {
    if items != [] {
      LaneIsPart(items[..|items| - 1], lane);
      assert items == items[..|items| - 1] + [items[|items| - 1]];
    }
  }

  lemma {:induction false} LaneDescends(items: seq<Item>, lane: Lane)
    requires Descending(items)
    ensures Descending(InLane(items, lane))
  {
    if items != [] {
      var front, last := items[..|items| - 1], items[|items| - 1];
      LaneDescends(front, lane);
      LaneIsPart(front, lane);
      forall y <- InLane(front, lane) ensures y.score >= last.score {
        assert y in front;
      }
    }
  }

  lemma NoLane(lane: Lane)
    ensures InLane([], lane) == []
  {
  }

  lemma {:induction false} PicksAreUnseen(unseen: seq<Item>)
    ensures (forall y <- Picks(unseen) :: y in unseen) && (unseen != [] ==> Picks(unseen) != [])
  {
    hide InLane;
    if unseen != [] {
      assert InLane([], unseen[|unseen| - 1].lane) == [] by {
        NoLane(unseen[|unseen| - 1].lane);
      }
      PicksAreUnseen(unseen[..|unseen| - 1]);
      assert unseen == unseen[..|unseen| - 1] + [unseen[|unseen| - 1]];
    }
  }

  lemma {:induction false} PicksOneEach(unseen: seq<Item>)
    requires OneEach(unseen)
    ensures OneEach(Picks(unseen))
  {
    if unseen != [] {
      var front, x := unseen[..|unseen| - 1], unseen[|unseen| - 1];
      PicksOneEach(front);
      PicksAreUnseen(front);
      OneMore(front, Picks(front), x);
      hide Picks;
      assert unseen == front + [x];
    }
  }

  lemma OneMore(front: seq<Item>, picked: seq<Item>, x: Item)
    requires OneEach(picked) && forall y <- picked :: y in front
    ensures OneEach(front + [x]) ==> OneEach(picked + [x])
  {
    if OneEach(front + [x]) {
      forall i | 0 <= i < |picked| ensures picked[i].url != x.url {
        assert picked[i] in front;
        var j :| 0 <= j < |front| && front[j] == picked[i];
        assert (front + [x])[j] == front[j] && (front + [x])[|front|] == x;
      }
    }
  }

  lemma InTake(items: seq<Item>, n: nat, j: nat)
    requires j < |items|
    ensures j < n ==> items[j] in Take(items, n)
  {
    if j < n {
      assert Take(items, n)[j] == items[j];
    }
  }

  /** A lane's items left out score no higher than those picked, and are left out only when the lane is full. */
  lemma PicksAreHighest(unseen: seq<Item>, x: Item, y: Item)
    requires Descending(unseen) && OneEach(unseen) && x in Picks(unseen) && y in unseen && y !in Picks(unseen)
             && x.lane == y.lane
    ensures x.score >= y.score && |InLane(Picks(unseen), y.lane)| == Cap(y.lane)
  {
    var lane := InLane(unseen, y.lane);
    PicksAreFirst(unseen, y.lane);
    LaneIsPart(unseen, y.lane);
    LaneDescends(unseen, y.lane);
    LaneIsPart(Picks(unseen), y.lane);
    assert x in InLane(Picks(unseen), y.lane) && y !in InLane(Picks(unseen), y.lane) && y in lane;
    var i :| 0 <= i < |Take(lane, Cap(y.lane))| && Take(lane, Cap(y.lane))[i] == x;
    var j :| 0 <= j < |lane| && lane[j] == y;
    assert lane[i] == x;
    InTake(lane, Cap(y.lane), j);
  }

  // ---------------------------------------------------------------- the window

  const DAY: real := 86400.0
  const MAX_ROWS: nat := 5000

  /** A line of the state file: an epoch and a URL, a line without a tab, or one whose epoch is no number. */
  datatype Row = Seen(epoch: real, url: string) | NoTab | BadEpoch

  /** load_seen: the rows within the window, up to the first bad epoch. */
  function Live(rows: seq<Row>, cutoff: real): seq<Row> {
    if rows == [] || rows[0].BadEpoch? then []
    else (if rows[0].Seen? && rows[0].epoch >= cutoff then [rows[0]] else []) + Live(rows[1..], cutoff)
  }

  method LoadSeen(rows: seq<Row>, cutoff: real) returns (seen: set<string>, keep: seq<Row>)
    ensures keep == Live(rows, cutoff)
    ensures forall u :: u in seen <==> HasUrl(keep, u)
  {
    hide Live;
    hide HasUrl;
    LiveFromStart(rows, cutoff);
    NoUrl();
    seen, keep := {}, [];
    for i := 0 to |rows|
      invariant Live(rows, cutoff) == keep + LiveFrom(rows, i, cutoff)
      invariant forall u :: u in seen <==> HasUrl(keep, u)
    {
      LiveStep(keep, rows, i, cutoff);
      if rows[i].BadEpoch? {
        return;
      }
      if rows[i].Seen? && rows[i].epoch >= cutoff {
        HasUrlSnoc(keep, rows[i]);
        seen, keep := seen + {rows[i].url}, keep + [rows[i]];
      }
    }
  }

  lemma NoUrl()
    ensures forall u :: !HasUrl([], u)
  {
  }

  function LiveFrom(rows: seq<Row>, i: nat, cutoff: real): (r: seq<Row>)
    requires i <= |rows|
    ensures i == |rows| ==> r == []
  {
    Live(rows[i..], cutoff)
  }

  lemma LiveFromStart(rows: seq<Row>, cutoff: real)
    ensures Live(rows, cutoff) == [] + LiveFrom(rows, 0, cutoff)
  {
    assert rows[0..] == rows;
  }

  lemma LiveStep(keep: seq<Row>, rows: seq<Row>, i: nat, cutoff: real)
    requires i < |rows|
    ensures rows[i].BadEpoch? ==> keep + LiveFrom(rows, i, cutoff) == keep
    ensures rows[i].Seen? && rows[i].epoch >= cutoff ==>
              keep + LiveFrom(rows, i, cutoff) == keep + [rows[i]] + LiveFrom(rows, i + 1, cutoff)
    ensures !rows[i].BadEpoch? && !(rows[i].Seen? && rows[i].epoch >= cutoff) ==>
              LiveFrom(rows, i, cutoff) == LiveFrom(rows, i + 1, cutoff)
  {
    assert rows[i..][1..] == rows[i + 1..];
  }

  predicate HasUrl(rows: seq<Row>, u: string) {
    exists i :: 0 <= i < |rows| && rows[i].Seen? && rows[i].url == u
  }

  lemma HasUrlSnoc(rows: seq<Row>, r: Row)
    ensures forall u :: HasUrl(rows + [r], u) <==> HasUrl(rows, u) || (r.Seen? && r.url == u)
  {
    forall u | HasUrl(rows, u) || (r.Seen? && r.url == u) ensures HasUrl(rows + [r], u) {
      if HasUrl(rows, u) {
        var i :| 0 <= i < |rows| && rows[i].Seen? && rows[i].url == u;
        assert (rows + [r])[i] == rows[i];
      } else {
        assert (rows + [r])[|rows|] == r;
      }
    }
  }

  /** The items whose URL is not on record. */
  function Unseen(items: seq<Item>, keep: seq<Row>): seq<Item> {
    if items == [] then []
    else (if HasUrl(keep, items[0].url) then [] else [items[0]]) + Unseen(items[1..], keep)
  }

  function Rows(picked: seq<Item>, epoch: real): seq<Row> {
    seq(|picked|, i requires 0 <= i < |picked| => Seen(epoch, picked[i].url))
  }

  /** record_seen: what is still live and what is published now, the newest rows up to the limit. */
  function Recorded(keep: seq<Row>, picked: seq<Item>, epoch: real): seq<Row> {
    var rows := keep + Rows(picked, epoch);
    if |rows| <= MAX_ROWS then rows else rows[|rows| - MAX_ROWS..]
  }

  /** One run: its clock, the rows of the export, and whether the digest and the state could be written. */
  datatype Wake = Wake(now: real, rows: seq<Option<Item>>, digestOk: bool, stateOk: bool)

  function Ranked(w: Wake): seq<Item> { Sort(Best(w.rows), DOWN) }

  /** What a run publishes over the state it finds. */
  function Published(state: seq<Row>, w: Wake): seq<Item> {
    if w.digestOk then Picks(Unseen(Ranked(w), Live(state, w.now - DAY))) else []
  }

  function StateAfter(state: seq<Row>, w: Wake): seq<Row> {
    if Published(state, w) == [] || !w.stateOk then state
    else Recorded(Live(state, w.now - DAY), Published(state, w), w.now.Floor as real)
  }

  /** The state file, and main() on it. */
  class News {
    var state: seq<Row>

    constructor (state: seq<Row>)
      ensures this.state == state
    {
      this.state := state;
    }

    method Run(w: Wake) returns (block: seq<Item>)
      modifies this
      ensures block == Published(old(state), w) && state == StateAfter(old(state), w)
    {
      hide Picks;
      hide Live;
      hide Sort;
      hide Best;
      var items := RankRows(w.rows);
      var seen, keep := LoadSeen(state, w.now - DAY);
      var unseen := Filter(items, seen, keep);
      hide Unseen;
      hide HasUrl;
      PicksAreUnseen(unseen);
      PicksOfNone();
      if unseen == [] || !w.digestOk {
        return [];
      }
      block := Pick(unseen);
      if w.stateOk {
        state := Recorded(keep, block, w.now.Floor as real);
      }
    }
  }

  function UnseenFrom(items: seq<Item>, i: nat, keep: seq<Row>): (r: seq<Item>)
    requires i <= |items|
    ensures i == |items| ==> r == []
  {
    Unseen(items[i..], keep)
  }

  lemma UnseenFromStart(items: seq<Item>, keep: seq<Row>)
    ensures Unseen(items, keep) == [] + UnseenFrom(items, 0, keep)
  {
    assert items[0..] == items;
  }

  lemma UnseenStep(unseen: seq<Item>, items: seq<Item>, i: nat, keep: seq<Row>)
    requires i < |items|
    ensures unseen + UnseenFrom(items, i, keep) ==
            unseen + (if HasUrl(keep, items[i].url) then [] else [items[i]]) + UnseenFrom(items, i + 1, keep)
  {
    hide HasUrl;
    assert items[i..][1..] == items[i + 1..];
  }

  /** The items not seen, by the set load_seen built. */
  method Filter(items: seq<Item>, seen: set<string>, ghost keep: seq<Row>) returns (unseen: seq<Item>)
    requires forall u :: u in seen <==> HasUrl(keep, u)
    ensures unseen == Unseen(items, keep)
  {
    hide HasUrl;
    hide Unseen;
    unseen := [];
    UnseenFromStart(items, keep);
    for i := 0 to |items|
      invariant Unseen(items, keep) == unseen + UnseenFrom(items, i, keep)
    {
      UnseenStep(unseen, items, i, keep);
      if items[i].url !in seen {
        unseen := unseen + [items[i]];
      }
    }
  }

  lemma PicksOfNone()
    ensures Picks([]) == []
  {
  }

  // ---------------------------------------------------------------- one block

  lemma {:induction false} UnseenHas(items: seq<Item>, keep: seq<Row>)
    ensures forall y :: y in Unseen(items, keep) <==> y in items && !HasUrl(keep, y.url)
  {
    hide HasUrl;
    if items != [] {
      UnseenHas(items[1..], keep);
      assert items == [items[0]] + items[1..];
    }
  }

  lemma {:induction false} UnseenDescends(items: seq<Item>, keep: seq<Row>)
    requires Descending(items)
    ensures Descending(Unseen(items, keep))
  {
    hide HasUrl;
    if items != [] {
      UnseenDescends(items[1..], keep);
      UnseenHas(items[1..], keep);
      forall y <- Unseen(items[1..], keep) ensures y.score <= items[0].score {
        assert y in items[1..];
      }
    }
  }

  lemma {:induction false} UnseenOneEach(items: seq<Item>, keep: seq<Row>)
    requires OneEach(items)
    ensures OneEach(Unseen(items, keep))
  {
    hide HasUrl;
    if items != [] {
      UnseenOneEach(items[1..], keep);
      UnseenHas(items[1..], keep);
      forall y <- Unseen(items[1..], keep) ensures y.url != items[0].url {
        assert y in items[1..];
      }
    }
  }

  /** A block holds at most 4 world and 2 good items, and fewer of a lane only when that is all there is of it. */
  lemma BlockFits(state: seq<Row>, w: Wake)
    requires w.digestOk
    ensures var unseen, block := Unseen(Ranked(w), Live(state, w.now - DAY)), Published(state, w);
            && (if |InLane(unseen, World)| <= 4 then InLane(block, World) == InLane(unseen, World)
                else InLane(block, World) == InLane(unseen, World)[..4])
            && (if |InLane(unseen, Good)| <= 2 then InLane(block, Good) == InLane(unseen, Good)
                else InLane(block, Good) == InLane(unseen, Good)[..2])
  {
    hide Picks;
    hide InLane;
    hide Unseen;
    hide Live;
    PicksAreFirst(Unseen(Ranked(w), Live(state, w.now - DAY)), World);
    PicksAreFirst(Unseen(Ranked(w), Live(state, w.now - DAY)), Good);
  }

  /** A block holds no URL twice, only URLs not on record, each as the export's best row for it, and in either
      lane the highest-scoring of those, up to the lane's cap. */
  lemma BlockIsBest(state: seq<Row>, w: Wake, x: Item, y: Item)
    requires x in Published(state, w)
    ensures var unseen, block := Unseen(Ranked(w), Live(state, w.now - DAY)), Published(state, w);
            && OneEach(block) && x in unseen && (exists i: nat :: FirstHighest(w.rows, i) && w.rows[i] == Some(x))
            && (y in unseen && y !in block && y.lane == x.lane ==>
               x.score >= y.score && |InLane(block, y.lane)| == Cap(y.lane))
  {
    hide Picks;
    hide Unseen;
    hide Live;
    hide Sort;
    hide Best;
    var unseen := Unseen(Ranked(w), Live(state, w.now - DAY));
    RankingIsBest(w.rows, x);
    UnseenHas(Ranked(w), Live(state, w.now - DAY));
    UnseenDescends(Ranked(w), Live(state, w.now - DAY));
    UnseenOneEach(Ranked(w), Live(state, w.now - DAY));
    PicksAreUnseen(unseen);
    PicksOneEach(unseen);
    hide FirstHighest;
    hide InLane;
    if y in unseen && y !in Published(state, w) && y.lane == x.lane {
      PicksAreHighest(unseen, x, y);
    }
  }

  // ---------------------------------------------------------------- all runs

  predicate WellFormed(rows: seq<Row>) { forall i :: 0 <= i < |rows| ==> !rows[i].BadEpoch? }

  function StateAt(init: seq<Row>, ws: seq<Wake>, n: nat): seq<Row>
    requires n <= |ws|
  {
    if n == 0 then init else StateAfter(StateAt(init, ws, n - 1), ws[n - 1])
  }

  predicate PublishedAt(init: seq<Row>, ws: seq<Wake>, n: nat, u: string)
    requires n < |ws|
  {
    exists k :: 0 <= k < |Published(StateAt(init, ws, n), ws[n])| && Published(StateAt(init, ws, n), ws[n])[k].url == u
  }

  /** Between the runs `i` and `j`: run `i` could write the state, no run in between is ahead of `j`, and what is
      written never exceeds the rows the file may hold. */
  ghost predicate Steady(init: seq<Row>, ws: seq<Wake>, i: nat, j: nat)
    requires i < j < |ws|
  {
    && ws[i].stateOk && (forall n :: i < n < j ==> ws[n].now <= ws[j].now)
    && (forall n :: i <= n < j && ws[n].stateOk ==> Fits(StateAt(init, ws, n), ws[n]))
  }

  predicate Fits(state: seq<Row>, w: Wake) {
    |Live(state, w.now - DAY)| + |Published(state, w)| <= MAX_ROWS
  }

  lemma {:induction false} LiveHas(rows: seq<Row>, cutoff: real)
    ensures WellFormed(Live(rows, cutoff))
    ensures WellFormed(rows) ==> forall r :: r in Live(rows, cutoff) <==> r in rows && r.Seen? && r.epoch >= cutoff
  {
    if rows != [] {
      assert rows == [rows[0]] + rows[1..];
      LiveHas(rows[1..], cutoff);
    }
  }

  lemma RecordedHas(keep: seq<Row>, picked: seq<Item>, epoch: real)
    requires |keep| + |picked| <= MAX_ROWS
    ensures forall r <- keep :: r in Recorded(keep, picked, epoch)
    ensures forall y <- picked :: Seen(epoch, y.url) in Recorded(keep, picked, epoch)
    ensures WellFormed(keep) ==> WellFormed(Recorded(keep, picked, epoch))
  {
    var rows := Recorded(keep, picked, epoch);
    forall y <- picked ensures Seen(epoch, y.url) in rows {
      var k :| 0 <= k < |picked| && picked[k] == y;
      assert rows[|keep| + k] == Seen(epoch, y.url);
    }
  }

  /** A publication is on record, or the window has passed it. */
  ghost predicate Remembered(state: seq<Row>, u: string, epoch: real, now: real) {
    Seen(epoch, u) in state || epoch < now - DAY
  }

  lemma StepRemembers(state: seq<Row>, w: Wake, u: string, epoch: real, now: real)
    requires WellFormed(state) && (w.stateOk ==> Fits(state, w)) && w.now <= now
    ensures WellFormed(StateAfter(state, w))
    ensures Remembered(state, u, epoch, now) ==> Remembered(StateAfter(state, w), u, epoch, now)
  {
    hide Live;
    hide Picks;
    hide Unseen;
    LiveHas(state, w.now - DAY);
    if w.stateOk {
      RecordedHas(Live(state, w.now - DAY), Published(state, w), w.now.Floor as real);
    }
    hide Recorded;
    hide Published;
  }

  lemma StepRecords(state: seq<Row>, w: Wake, k: nat)
    requires w.stateOk && Fits(state, w) && k < |Published(state, w)|
    ensures Seen(w.now.Floor as real, Published(state, w)[k].url) in StateAfter(state, w)
    ensures WellFormed(StateAfter(state, w))
  {
    hide Live;
    hide Picks;
    hide Unseen;
    LiveHas(state, w.now - DAY);
    RecordedHas(Live(state, w.now - DAY), Published(state, w), w.now.Floor as real);
    assert Published(state, w)[k] in Published(state, w);
  }

  lemma {:induction false} StateSteps(init: seq<Row>, ws: seq<Wake>, n: nat)
    requires n < |ws|
    ensures StateAt(init, ws, n + 1) == StateAfter(StateAt(init, ws, n), ws[n])
  {
  }

  lemma FirstRemembers(init: seq<Row>, ws: seq<Wake>, i: nat, u: string)
    requires i < |ws| && ws[i].stateOk && Fits(StateAt(init, ws, i), ws[i]) && PublishedAt(init, ws, i, u)
    ensures Seen(ws[i].now.Floor as real, u) in StateAt(init, ws, i + 1) && WellFormed(StateAt(init, ws, i + 1))
  {
    hide StateAfter;
    hide Published;
    hide Fits;
    StateSteps(init, ws, i);
    hide StateAt;
    var k :| 0 <= k < |Published(StateAt(init, ws, i), ws[i])| && Published(StateAt(init, ws, i), ws[i])[k].url == u;
    StepRecords(StateAt(init, ws, i), ws[i], k);
  }

  lemma {:induction false} RunRemembers(init: seq<Row>, ws: seq<Wake>, i: nat, n: nat, j: nat, u: string)
    requires i < n <= j < |ws| && Steady(init, ws, i, j) && PublishedAt(init, ws, i, u)
    ensures Remembered(StateAt(init, ws, n), u, ws[i].now.Floor as real, ws[j].now)
    ensures WellFormed(StateAt(init, ws, n))
    decreases n
  {
    hide StateAfter;
    hide PublishedAt;
    hide Fits;
    hide StateAt;
    hide WellFormed;
    if n == i + 1 {
      FirstRemembers(init, ws, i, u);
    } else {
      RunRemembers(init, ws, i, n - 1, j, u);
      StateSteps(init, ws, n - 1);
      StepRemembers(StateAt(init, ws, n - 1), ws[n - 1], u, ws[i].now.Floor as real, ws[j].now);
    }
  }

  /** Only what the state does not hold within the window is published. */
  lemma PublishedIsUnseen(state: seq<Row>, w: Wake, u: string, epoch: real, k: nat)
    requires WellFormed(state) && k < |Published(state, w)| && Published(state, w)[k].url == u
             && Seen(epoch, u) in state
    ensures epoch < w.now - DAY
  {
    hide Sort;
    hide Best;
    hide Picks;
    hide Unseen;
    hide Live;
    var keep := Live(state, w.now - DAY);
    var x := Published(state, w)[k];
    PicksAreUnseen(Unseen(Ranked(w), keep));
    UnseenHas(Ranked(w), keep);
    LiveHas(state, w.now - DAY);
    assert x in Published(state, w);
  }

  /** No URL is published again until more than 86399 seconds after it was last published. */
  lemma NoRepeatWithinADay(init: seq<Row>, ws: seq<Wake>, i: nat, j: nat, u: string)
    requires i < j < |ws| && Steady(init, ws, i, j)
    requires PublishedAt(init, ws, i, u) && PublishedAt(init, ws, j, u)
    ensures ws[j].now - ws[i].now > 86399.0
  {
    hide Published;
    hide StateAt;
    hide Fits;
    RunRemembers(init, ws, i, j, j, u);
    var state, epoch := StateAt(init, ws, j), ws[i].now.Floor as real;
    var k :| 0 <= k < |Published(state, ws[j])| && Published(state, ws[j])[k].url == u;
    if Seen(epoch, u) in state {
      PublishedIsUnseen(state, ws[j], u, epoch, k);
    }
    assert epoch > ws[i].now - 1.0;
  }

  // ---------------------------------------------------------------- what is forgotten

  /** A row of `u` within the window, with no bad epoch before it. */
  predicate LiveAt(rows: seq<Row>, cutoff: real, u: string, i: nat) {
    && i < |rows| && rows[i].Seen? && rows[i].url == u && rows[i].epoch >= cutoff
    && forall j :: 0 <= j < i ==> !rows[j].BadEpoch?
  }

  lemma LiveAtStep(rows: seq<Row>, cutoff: real, u: string)
    requires rows != [] && !rows[0].BadEpoch?
    ensures (exists i :: LiveAt(rows, cutoff, u, i)) <==>
            LiveAt(rows, cutoff, u, 0) || exists i :: LiveAt(rows[1..], cutoff, u, i)
  {
    forall i: nat | LiveAt(rows, cutoff, u, i) && i > 0 ensures LiveAt(rows[1..], cutoff, u, i - 1) {
      assert forall j :: 0 <= j < i ==> rows[1..][j] == rows[j + 1];
    }
    forall i: nat | LiveAt(rows[1..], cutoff, u, i) ensures LiveAt(rows, cutoff, u, i + 1) {
      assert forall j :: 0 < j <= i + 1 ==> rows[j] == rows[1..][j - 1];
    }
  }

  lemma HasUrlCons(r: Row, rows: seq<Row>, u: string)
    ensures HasUrl([r] + rows, u) <==> HasUrl(rows, u) || (r.Seen? && r.url == u)
  {
    assert ([r] + rows)[0] == r && forall i :: 0 <= i < |rows| ==> ([r] + rows)[i + 1] == rows[i];
    if HasUrl(rows, u) {
      var i :| 0 <= i < |rows| && rows[i].Seen? && rows[i].url == u;
      assert ([r] + rows)[i + 1] == rows[i];
    }
  }

  /** A URL is on record if and only if it has a row within the window that stands before every bad epoch. */
  lemma {:induction false} OnRecordIff(rows: seq<Row>, cutoff: real, u: string)
    ensures HasUrl(Live(rows, cutoff), u) <==> exists i :: LiveAt(rows, cutoff, u, i)
  {
    hide HasUrl;
    NoUrl();
    if rows != [] && !rows[0].BadEpoch? {
      OnRecordIff(rows[1..], cutoff, u);
      LiveAtStep(rows, cutoff, u);
      HasUrlCons(rows[0], Live(rows[1..], cutoff), u);
      assert LiveAt(rows, cutoff, u, 0) <==> rows[0].Seen? && rows[0].epoch >= cutoff && rows[0].url == u;
      assert [] + Live(rows[1..], cutoff) == Live(rows[1..], cutoff);
    }
  }

  /** A run takes an item for new if and only if no row of its URL from the last 86400 seconds stands before every
      malformed epoch. */
  lemma FreshIff(state: seq<Row>, w: Wake, x: Item, cutoff: real)
    requires cutoff == w.now - 86400.0
    ensures x in Unseen(Ranked(w), Live(state, w.now - DAY)) <==>
            x in Ranked(w) && !exists i :: LiveAt(state, cutoff, x.url, i)
  {
    UnseenHas(Ranked(w), Live(state, w.now - DAY));
    OnRecordIff(state, w.now - DAY, x.url);
    hide Unseen;
    hide Live;
    hide LiveAt;
    hide Ranked;
  }

  /** What is written holds a URL if and only if one of the newest rows up to the limit does. */
  lemma RecordedIff(keep: seq<Row>, picked: seq<Item>, epoch: real, u: string)
    ensures var all := keep + Rows(picked, epoch);
            HasUrl(Recorded(keep, picked, epoch), u) <==>
            exists i :: 0 <= i < |all| && |all| - i <= 5000 && all[i].Seen? && all[i].url == u
  {
    var all, now := keep + Rows(picked, epoch), Recorded(keep, picked, epoch);
    var cut := if |all| <= MAX_ROWS then 0 else |all| - MAX_ROWS;
    assert now == all[cut..];
    hide Recorded;
    if HasUrl(now, u) {
      var i :| 0 <= i < |now| && now[i].Seen? && now[i].url == u;
      assert all[cut + i] == now[i];
    }
    if i :| 0 <= i < |all| && |all| - i <= MAX_ROWS && all[i].Seen? && all[i].url == u {
      assert now[i - cut] == all[i];
    }
  }

  /** An export with one item, read by runs that find no row of it within the window. */
  lemma LoneItemPublished(state: seq<Row>, w: Wake, x: Item)
    requires w.rows == [Some(x)] && w.digestOk && !HasUrl(Live(state, w.now - DAY), x.url)
    ensures Published(state, w) == [x]
  {
    hide Live;
    hide HasUrl;
    assert [Some(x)][..0] == [] && Best([]) == [];
    assert Best(w.rows) == Better([], x) == [x];
    assert [x][..0] == [] && Sort([], DOWN) == [];
    assert Ranked(w) == Insert([], x, DOWN) == [x];
    assert [x][1..] == [] && Unseen([x], Live(state, w.now - DAY)) == [x];
    assert [x][..0] == [] && Picks([x]) == [x];
  }

  /** A run that publishes and cannot write the state leaves no trace: the next publishes the same URL again. */
  lemma FailedWriteRepeats(x: Item) returns (ws: seq<Wake>)
    ensures ws == [Wake(0.0, [Some(x)], true, false), Wake(1.0, [Some(x)], true, true)]
    ensures PublishedAt([], ws, 0, x.url) && PublishedAt([], ws, 1, x.url)
  {
    ws := [Wake(0.0, [Some(x)], true, false), Wake(1.0, [Some(x)], true, true)];
    LoneItemPublished([], ws[0], x);
    LoneItemPublished([], ws[1], x);
    hide Published;
    StateSteps([], ws, 0);
    assert StateAt([], ws, 0) == [] && StateAt([], ws, 1) == [];
    assert Published(StateAt([], ws, 0), ws[0])[0].url == x.url;
    assert Published(StateAt([], ws, 1), ws[1])[0].url == x.url;
  }

  /** A URL recorded a second ago behind a bad epoch is published again. */
  lemma BadEpochRepeats(x: Item) returns (state: seq<Row>, w: Wake)
    ensures state == [BadEpoch, Seen(0.0, x.url)] && w == Wake(1.0, [Some(x)], true, true)
    ensures Published(state, w) == [x]
  {
    state, w := [BadEpoch, Seen(0.0, x.url)], Wake(1.0, [Some(x)], true, true);
    LoneItemPublished(state, w, x);
  }

  /** A bad epoch hides every row behind it, however recent. */
  lemma {:induction false} BadEpochForgets(a: seq<Row>, b: seq<Row>, cutoff: real)
    ensures Live(a + [BadEpoch] + b, cutoff) == Live(a, cutoff)
  {
    if a == [] {
      assert a + [BadEpoch] + b == [BadEpoch] + b;
    } else {
      BadEpochForgets(a[1..], b, cutoff);
      assert (a + [BadEpoch] + b)[1..] == a[1..] + [BadEpoch] + b;
    }
  }

  /** Past the row limit the oldest live row is lost: its URL is on record no more, and free to be published. */
  lemma RowLimitForgets(keep: seq<Row>, picked: seq<Item>, epoch: real, u: string)
    requires |keep| + |picked| > MAX_ROWS && keep != [] && keep[0].Seen? && keep[0].url == u
    requires !HasUrl(keep[1..], u) && forall k :: 0 <= k < |picked| ==> picked[k].url != u
    ensures !HasUrl(Recorded(keep, picked, epoch), u)
  {
    var all, now := keep + Rows(picked, epoch), Recorded(keep, picked, epoch);
    var cut := |all| - MAX_ROWS;
    forall i | 0 <= i < |now| && now[i].Seen? ensures now[i].url != u {
      assert now[i] == all[cut + i];
      if cut + i < |keep| {
        assert keep[1..][cut + i - 1] == keep[cut + i];
      }
    }
  }
}
