/** The numeric edits of automation/jobs/feedback-apply.py: one step of a property, clamped to a drift limit
    around the first value ever recorded for it. */
module DriftClamp {
  import opened Options

  type Property = string

  const DRIFT_LIMIT := 16.0
  const DELTA := 2.0

  /** One row of the baseline file. */
  datatype Row = Row(prop: Property, value: real)

  /** BASELINE_DEFAULTS: the value taken for a property the block does not set. */
  function Default(prop: Property): real {
    if prop == "font-size" then 14.0
    else if prop == "gap" then 12.0
    else if prop == "margin" then 8.0
    else 8.0
  }

  /** A request: the property, the number its block holds, if it starts with one, and the sign of the step. */
  datatype Request = Request(prop: Property, found: Option<real>, direction: int)

  datatype Verdict = Applied(requested: real, written: int) | Refused(requested: real)

  /** baseline_get: the first row of a property wins. */
  function Baseline(rows: seq<Row>, prop: Property): Option<real> {
    if rows == [] then None
    else if Baseline(rows[..|rows| - 1], prop).Some? then Baseline(rows[..|rows| - 1], prop)
    else if rows[|rows| - 1].prop == prop then Some(rows[|rows| - 1].value)
    else None
  }

  method BaselineGet(rows: seq<Row>, prop: Property) returns (r: Option<real>)
    ensures r == Baseline(rows, prop)
    ensures r.Some? ==>
              exists i :: 0 <= i < |rows| && rows[i] == Row(prop, r.value)
                          && forall j :: 0 <= j < i ==> rows[j].prop != prop
  {
    for i := 0 to |rows|
      invariant forall j :: 0 <= j < i ==> rows[j].prop != prop
      invariant Baseline(rows[..i], prop) == None
    {
      assert rows[..i + 1][..i] == rows[..i];
      if rows[i].prop == prop {
        FirstStays(rows, prop, i + 1, |rows|);
        assert rows[..|rows|] == rows;
        return Some(rows[i].value);
      }
    }
    assert rows[..|rows|] == rows;
    return None;
  }

  /** Appending rows never changes a baseline that is set. */
  lemma {:induction false} FirstStays(rows: seq<Row>, prop: Property, m: nat, n: nat)
    requires m <= n <= |rows| && Baseline(rows[..m], prop).Some?
    ensures Baseline(rows[..n], prop) == Baseline(rows[..m], prop)
  {
    if m < n {
      FirstStays(rows, prop, m, n - 1);
      assert rows[..n][..n - 1] == rows[..n - 1];
    }
  }

  /** round(): to the nearest integer, halves to the even one. */
  function Round(x: real): (r: int)
    ensures -0.5 <= r as real - x <= 0.5
    ensures r as real - x == 0.5 || x - r as real == 0.5 ==> r % 2 == 0
  {
    var f := x.Floor;
    var rest := x - f as real;
    if rest < 0.5 then f else if rest > 0.5 then f + 1 else if f % 2 == 0 then f else f + 1
  }

  function Current(rows: seq<Row>, q: Request): real {
    match q.found
    case Some(v) => v
    case None => if Baseline(rows, q.prop).Some? then Baseline(rows, q.prop).value else Default(q.prop)
  }

  function Requested(rows: seq<Row>, q: Request): real {
    var stepped := Current(rows, q) + q.direction as real * DELTA;
    if stepped < 0.0 then 0.0 else stepped
  }

  /** The file after a request: a first request for a property records where it stood, applied or not. */
  function RowsAfter(rows: seq<Row>, q: Request): seq<Row> {
    if Baseline(rows, q.prop).Some? then rows else rows + [Row(q.prop, Current(rows, q))]
  }

  function VerdictOf(rows: seq<Row>, q: Request): Verdict {
    var base := if Baseline(rows, q.prop).Some? then Baseline(rows, q.prop).value else Current(rows, q);
    var r := Requested(rows, q);
    if base - DRIFT_LIMIT <= r <= base + DRIFT_LIMIT then Applied(r, Round(r)) else Refused(r)
  }

  /** The numeric path of apply_change, over the baseline file it appends to. */
  class Clamp {
    var rows: seq<Row>

    constructor ()
      ensures rows == []
    {
      rows := [];
    }

    method ApplyChange(q: Request) returns (v: Verdict)
      modifies this
      ensures v == VerdictOf(old(rows), q) && rows == RowsAfter(old(rows), q)
    {
      var recorded := BaselineGet(rows, q.prop);
      var cur :=
        match q.found
        case Some(x) => x
        case None => if recorded.Some? then recorded.value else Default(q.prop);
      var base := cur;
      if recorded.Some? {
        base := recorded.value;
      } else {
        rows := rows + [Row(q.prop, cur)];
      }
      var requested := cur + q.direction as real * DELTA;
      if requested < 0.0 {
        requested := 0.0;
      }
      if requested < base - DRIFT_LIMIT || requested > base + DRIFT_LIMIT {
        return Refused(requested);
      }
      return Applied(requested, Round(requested));
    }
  }

  /** A step goes two pixels up or down from where the block stands, from the baseline when it says nothing, or from the
      property's default when there is none, but never below zero. */
  lemma StepIsTwoPixels(rows: seq<Row>, q: Request)
    ensures var from :=
              match q.found
              case Some(v) => v
              case None =>
                if Baseline(rows, q.prop).Some? then Baseline(rows, q.prop).value
                else if q.prop == "font-size" then 14.0 else if q.prop == "gap" then 12.0 else 8.0;
            && (q.direction == 1 && from >= 0.0 ==> VerdictOf(rows, q).requested == from + 2.0)
            && (q.direction == -1 && from >= 2.0 ==> VerdictOf(rows, q).requested == from - 2.0)
            && (q.direction == -1 && from < 2.0 ==> VerdictOf(rows, q).requested == 0.0)
            && (Baseline(rows, q.prop) == None ==> RowsAfter(rows, q) == rows + [Row(q.prop, from)])
  {
  }

  // ---------------------------------------------------------------- runs

  /** The file after the first `n` of the requests `qs`. */
  function RowsAt(qs: seq<Request>, n: nat): seq<Row>
    requires n <= |qs|
  {
    if n == 0 then [] else RowsAfter(RowsAt(qs, n - 1), qs[n - 1])
  }

  /** A recorded baseline is there for good. */
  lemma {:induction false} BaselineNeverMoves(qs: seq<Request>, m: nat, n: nat, prop: Property)
    requires m <= n <= |qs| && Baseline(RowsAt(qs, m), prop).Some?
    ensures Baseline(RowsAt(qs, n), prop) == Baseline(RowsAt(qs, m), prop)
  {
    if m < n {
      BaselineNeverMoves(qs, m, n - 1, prop);
      AfterKeeps(RowsAt(qs, n - 1), qs[n - 1], prop);
    }
  }

  lemma AfterKeeps(rows: seq<Row>, q: Request, prop: Property)
    ensures Baseline(rows, prop).Some? ==> Baseline(RowsAfter(rows, q), prop) == Baseline(rows, prop)
    ensures Baseline(RowsAfter(rows, q), q.prop).Some?
  {
    if RowsAfter(rows, q) != rows {
      assert RowsAfter(rows, q)[..|rows|] == rows;
    }
  }

  /** Where a property stood when it was first asked for. */
  function FirstValue(qs: seq<Request>, prop: Property): Option<real> {
    if qs == [] then None
    else if FirstValue(qs[..|qs| - 1], prop).Some? then FirstValue(qs[..|qs| - 1], prop)
    else if qs[|qs| - 1].prop != prop then None
    else Some(match qs[|qs| - 1].found case Some(v) => v case None => Default(prop))
  }

  lemma RowsStep(qs: seq<Request>, n: nat)
    requires n < |qs|
    ensures RowsAt(qs, n + 1) == RowsAfter(RowsAt(qs, n), qs[n])
  {
  }

  /** The file holds, for every property, where it stood when it was first asked for. */
  lemma {:induction false} BaselineIsFirstValue(qs: seq<Request>, n: nat, prop: Property)
    requires n <= |qs|
    ensures Baseline(RowsAt(qs, n), prop) == FirstValue(qs[..n], prop)
  {
    if n > 0 {
      BaselineIsFirstValue(qs, n - 1, prop);
      assert qs[..n][..n - 1] == qs[..n - 1];
      hide RowsAt;
      RowsStep(qs, n - 1);
      var rows, q := RowsAt(qs, n - 1), qs[n - 1];
      AfterKeeps(rows, q, prop);
      if RowsAfter(rows, q) != rows {
        assert RowsAfter(rows, q)[..|rows|] == rows;
      }
    }
  }

  /** Over all runs: every value applied is, before rounding, non-negative and within the limit of where the
      property stood when it was first asked for; what is written is within half a pixel of it; and a request
      is refused only when the step leaves those bounds. */
  lemma DriftIsBounded(qs: seq<Request>, n: nat)
    requires n < |qs|
    ensures FirstValue(qs, qs[n].prop).Some?
    ensures var base, v := FirstValue(qs, qs[n].prop).value, VerdictOf(RowsAt(qs, n), qs[n]);
            && v.requested >= 0.0
            && (v.Applied? <==> base - 16.0 <= v.requested <= base + 16.0)
            && (v.Applied? ==> v.written >= 0 && -0.5 <= v.written as real - v.requested <= 0.5)
  {
    hide Baseline;
    hide FirstValue;
    hide Round;
    var q := qs[n];
    AfterKeeps(RowsAt(qs, n), q, q.prop);
    BaselineNeverMoves(qs, n + 1, |qs|, q.prop);
    BaselineIsFirstValue(qs, |qs|, q.prop);
    BaselineIsFirstValue(qs, n, q.prop);
    assert qs[..|qs|] == qs;
    FirstRow(RowsAt(qs, n), q);
  }

  /** The base a verdict is measured against is the one on file afterwards. */
  lemma FirstRow(rows: seq<Row>, q: Request)
    ensures Baseline(RowsAfter(rows, q), q.prop).Some?
    ensures Baseline(RowsAfter(rows, q), q.prop).value ==
            if Baseline(rows, q.prop).Some? then Baseline(rows, q.prop).value else Current(rows, q)
  {
    AfterKeeps(rows, q, q.prop);
    if RowsAfter(rows, q) != rows {
      assert RowsAfter(rows, q)[..|rows|] == rows;
    }
  }

  /** A step up, read back from the page as written, and a step down again leave the value the page would
      have shown for the original, whenever both steps stay within the limit. */
  lemma UpThenDownReturns(rows: seq<Row>, prop: Property, v: real)
    requires Baseline(rows, prop).Some? && v >= 0.0
    requires v + 2.0 <= Baseline(rows, prop).value + 16.0
    requires Baseline(rows, prop).value - 16.0 <= Round(v) as real <= Baseline(rows, prop).value + 16.0
    requires Baseline(rows, prop).value - 16.0 <= v + 2.0
    ensures var up := Request(prop, Some(v), 1);
            && VerdictOf(rows, up) == Applied(v + 2.0, Round(v) + 2)
            && VerdictOf(RowsAfter(rows, up), Request(prop, Some((Round(v) + 2) as real), -1)) ==
               Applied(Round(v) as real, Round(v))
  {
    RoundShift(v);
  }

  lemma RoundShift(x: real)
    ensures Round(x + 2.0) == Round(x) + 2
  {
    assert (x + 2.0).Floor == x.Floor + 2;
  }

}
