/** main() of automation/jobs/feedback-ingest.py: a capped, deduplicating drain of feedback captures into rows. */
module FeedbackDrain {
  /** What a capture turns out to be: a directory; a file that is no JSON; JSON that makes the standardizing or the
      digest raise, such as a list, or a text with a lone surrogate; or a record with its standardized text, and
      whether that text can be handed to the filer's environment at all (one with a NUL in it cannot). */
  datatype Body = Directory | Unreadable | Raising | Record(text: string, passes: bool)

  datatype Capture = Capture(name: string, body: Body)

  /** How a filing goes: done, refused with a nonzero code, or cut off by an exception, such as a timeout, that
      ends the tick. */
  datatype Filing = Done | Failed | Crashed

  /** The row identity of a text, a truncated digest. */
  type Identify = string -> string

  type Filer = nat -> Filing

  const MAX_PER_TICK: nat := 20

  const WORKING: Filer := n => Done

  /** A tick under way: identities met, texts filed, captures left where they are and captures moved. */
  datatype Sweep = Sweep(seen: set<string>, filed: seq<string>, kept: seq<Capture>, moved: seq<Capture>, over: bool)

  /** What the tick does with one capture; `over` once it broke off. */
  function Step(identify: Identify, s: Sweep, c: Capture, filing: Filing): Sweep {
    if s.over || c.body.Directory? || c.body.Unreadable? then s.(kept := s.kept + [c])
    else if c.body.Raising? then s.(kept := s.kept + [c], over := true)
    else
      var id := identify(c.body.text);
      if id in s.seen then s.(moved := s.moved + [c])
      else if |s.filed| >= MAX_PER_TICK then s.(kept := s.kept + [c], over := true)
      else
        match if c.body.passes then filing else Crashed
        case Done => s.(seen := s.seen + {id}, filed := s.filed + [c.body.text], moved := s.moved + [c])
        case Failed => s.(seen := s.seen + {id}, kept := s.kept + [c])
        case Crashed => s.(seen := s.seen + {id}, kept := s.kept + [c], over := true)
  }

  /** The tick after the captures `cs`, in name order. */
  function SweepOf(identify: Identify, filer: Filer, cs: seq<Capture>): Sweep {
    if cs == [] then Sweep({}, [], [], [], false)
    else Step(identify, SweepOf(identify, filer, cs[..|cs| - 1]), cs[|cs| - 1], filer(|cs| - 1))
  }

  /** The feedback directory in name order, the processed captures, and the texts of the rows filed. */
  class Inbox {
    var pending: seq<Capture>
    var processed: seq<Capture>
    var rows: seq<string>

    constructor ()
      ensures pending == [] && processed == [] && rows == []
    {
      pending, processed, rows := [], [], [];
    }

    /** os.replace() into the processed directory. */
    method Process(at: nat)
      requires at < |pending|
      modifies this`pending, this`processed
      ensures pending == old(pending[..at] + pending[at + 1..]) && processed == old(processed + [pending[at]])
    {
      pending, processed := pending[..at] + pending[at + 1..], processed + [pending[at]];
    }

    /** One turn of the loop, with `at` captures left behind so far. */
    method Take(identify: Identify, seen: set<string>, n: nat, at: nat, filing: Filing, ghost s: Sweep,
                ghost rest: seq<Capture>)
        returns (seen': set<string>, n': nat, at': nat, over: bool)
      requires at < |pending| && pending == s.kept + [pending[at]] + rest
      requires !s.over && s.seen == seen && |s.filed| == n && |s.kept| == at
      modifies this
      ensures var t := Step(identify, s, old(pending[at]), filing);
              && t.over == over && t.seen == seen' && |t.filed| == n' && |t.kept| == at'
              && pending == t.kept + rest
              && processed == old(processed) + t.moved[|s.moved|..] && rows == old(rows) + t.filed[|s.filed|..]
    {
      var c := pending[at];
      seen', n', at', over := seen, n, at + 1, false;
      if c.body.Directory? || c.body.Unreadable? {
        return;
      }
      if c.body.Raising? {
        over := true;
        return;
      }
      var id := identify(c.body.text);
      if id in seen {
        Process(at);
        at' := at;
        return;
      }
      if n >= MAX_PER_TICK {
        over := true;
        return;
      }
      seen' := seen + {id};
      if filing.Crashed? || !c.body.passes {
        over := true;
      } else if filing.Done? {
        rows := rows + [c.body.text];
        Process(at);
        at', n' := at, n + 1;
      }
    }

    /** main(). */
    method Tick(identify: Identify, filer: Filer)
      modifies this
      ensures var s := SweepOf(identify, filer, old(pending));
              pending == s.kept && processed == old(processed) + s.moved && rows == old(rows) + s.filed
    {
      var seen: set<string>, n: nat, at: nat, over := {}, 0, 0, false;
      var names := pending;
      assert names[..0] == [];
      ghost var s := SweepOf(identify, filer, names[..0]);
      assert s == Sweep({}, [], [], [], false);
      hide SweepOf;
      hide Step;
      var i := 0;
      while i < |names| && !over
        invariant i <= |names| && names == old(pending) && s == SweepOf(identify, filer, names[..i])
        invariant s.over == over && s.seen == seen && |s.filed| == n && |s.kept| == at
        invariant pending == s.kept + names[i..]
        invariant processed == old(processed) + s.moved && rows == old(rows) + s.filed
      {
        SweepSnoc(identify, filer, names, i);
        NextOf(s.kept, names, i);
        ghost var t := Step(identify, s, names[i], filer(i));
        StepAppends(identify, s, names[i], filer(i));
        Regroup(old(processed), s.moved, t.moved);
        Regroup(old(rows), s.filed, t.filed);
        seen, n, at, over := Take(identify, seen, n, at, filer(i), s, names[i + 1..]);
        s := t;
        i := i + 1;
      }
      if over {
        SweepOver(identify, filer, names, i);
      } else {
        assert names[..|names|] == names;
      }
    }
  }

  lemma StepAppends(identify: Identify, s: Sweep, c: Capture, filing: Filing)
    ensures s.moved <= Step(identify, s, c, filing).moved && s.filed <= Step(identify, s, c, filing).filed
  {
  }

  lemma NextOf(kept: seq<Capture>, names: seq<Capture>, i: nat)
    requires i < |names|
    ensures kept + names[i..] == kept + [names[i]] + names[i + 1..] && (kept + names[i..])[|kept|] == names[i]
  {
  }

  lemma Regroup<T>(before: seq<T>, a: seq<T>, b: seq<T>)
    requires a <= b
    ensures before + b == before + a + b[|a|..]
  {
  }

  lemma SweepSnoc(identify: Identify, filer: Filer, cs: seq<Capture>, i: nat)
    requires i < |cs|
    ensures SweepOf(identify, filer, cs[..i + 1]) == Step(identify, SweepOf(identify, filer, cs[..i]), cs[i], filer(i))
  {
    assert cs[..i + 1][..i] == cs[..i];
  }

  /** A tick that broke off leaves the rest of the captures where they are. */
  lemma {:induction false} SweepOver(identify: Identify, filer: Filer, cs: seq<Capture>, i: nat)
    requires i <= |cs| && SweepOf(identify, filer, cs[..i]).over
    ensures var s := SweepOf(identify, filer, cs[..i]); SweepOf(identify, filer, cs) == s.(kept := s.kept + cs[i..])
    decreases |cs| - i
  {
    hide SweepOf;
    if i < |cs| {
      SweepSnoc(identify, filer, cs, i);
      SweepOver(identify, filer, cs, i + 1);
      var s := SweepOf(identify, filer, cs[..i]);
      assert s.kept + [cs[i]] + cs[i + 1..] == s.kept + cs[i..];
    } else {
      assert cs[..i] == cs;
    }
  }

  // ---------------------------------------------------------------- nothing is lost

  predicate Filed(identify: Identify, rows: seq<string>, id: string) {
    exists i :: 0 <= i < |rows| && identify(rows[i]) == id
  }

  predicate Waiting(identify: Identify, pending: seq<Capture>, id: string) {
    exists i :: 0 <= i < |pending| && pending[i].body.Record? && identify(pending[i].body.text) == id
  }

  predicate Accounted(identify: Identify, rows: seq<string>, pending: seq<Capture>, id: string) {
    Filed(identify, rows, id) || Waiting(identify, pending, id)
  }

  /** Every processed capture is a record whose identity has been filed or still has a pending capture. */
  ghost predicate NothingLost(identify: Identify, rows: seq<string>, processed: seq<Capture>, pending: seq<Capture>) {
    forall c <- processed :: c.body.Record? && Accounted(identify, rows, pending, identify(c.body.text))
  }

  /** Every identity met in the tick has been filed in it or was left pending, and only those were moved. */
  ghost predicate SeenAccounted(identify: Identify, s: Sweep) {
    && (forall id <- s.seen :: Accounted(identify, s.filed, s.kept, id))
    && forall c <- s.moved :: c.body.Record? && identify(c.body.text) in s.seen
  }

  lemma AccountedMore(identify: Identify, a: seq<string>, b: seq<string>, p: seq<Capture>, q: seq<Capture>, id: string)
    requires Accounted(identify, a, p, id) && (forall t <- a :: t in b) && (forall c <- p :: c in q)
    ensures Accounted(identify, b, q, id)
  {
    if Filed(identify, a, id) {
      var i :| 0 <= i < |a| && identify(a[i]) == id;
      assert a[i] in b;
      var j :| 0 <= j < |b| && b[j] == a[i];
    } else {
      var i :| 0 <= i < |p| && p[i].body.Record? && identify(p[i].body.text) == id;
      assert p[i] in q;
      var j :| 0 <= j < |q| && q[j] == p[i];
    }
  }

  lemma StepAccounts(identify: Identify, s: Sweep, c: Capture, filing: Filing)
    requires SeenAccounted(identify, s)
    ensures SeenAccounted(identify, Step(identify, s, c, filing))
  {
    var t := Step(identify, s, c, filing);
    forall id <- t.seen ensures Accounted(identify, t.filed, t.kept, id) {
      if id in s.seen {
        AccountedMore(identify, s.filed, t.filed, s.kept, t.kept, id);
      } else if |t.filed| > |s.filed| {
        assert identify(t.filed[|s.filed|]) == id;
      } else {
        assert t.kept[|s.kept|] == c;
      }
    }
  }

  lemma {:induction false} SweepAccounts(identify: Identify, filer: Filer, cs: seq<Capture>)
    ensures SeenAccounted(identify, SweepOf(identify, filer, cs))
  {
    if cs != [] {
      SweepAccounts(identify, filer, cs[..|cs| - 1]);
      StepAccounts(identify, SweepOf(identify, filer, cs[..|cs| - 1]), cs[|cs| - 1], filer(|cs| - 1));
    }
  }

  /** Every capture met was left or moved, and moved ones were met. */
  lemma {:induction false} LeftOrMoved(identify: Identify, filer: Filer, cs: seq<Capture>, c: Capture)
    requires c in cs && c.body.Record?
    ensures var s := SweepOf(identify, filer, cs); c in s.kept || identify(c.body.text) in s.seen
  {
    if c in cs[..|cs| - 1] {
      LeftOrMoved(identify, filer, cs[..|cs| - 1], c);
    }
  }

  /** At every point of every tick, whatever the filer does: a processed capture's identity has been filed or
      still has a pending capture. */
  lemma TickLosesNothing(identify: Identify, filer: Filer, rows: seq<string>, processed: seq<Capture>,
                         pending: seq<Capture>, i: nat)
    requires NothingLost(identify, rows, processed, pending) && i <= |pending|
    ensures var s := SweepOf(identify, filer, pending[..i]);
            NothingLost(identify, rows + s.filed, processed + s.moved, s.kept + pending[i..])
  {
    var s := SweepOf(identify, filer, pending[..i]);
    SweepAccounts(identify, filer, pending[..i]);
    forall c <- processed + s.moved
      ensures c.body.Record? && Accounted(identify, rows + s.filed, s.kept + pending[i..], identify(c.body.text))
    {
      var id := identify(c.body.text);
      var rows', pending' := rows + s.filed, s.kept + pending[i..];
      if c in s.moved || id in s.seen {
        AccountedMore(identify, s.filed, rows', s.kept, pending', id);
      } else if Filed(identify, rows, id) {
        AccountedMore(identify, rows, rows', [], pending', id);
      } else {
        StillWaiting(identify, filer, pending, i, id);
      }
    }
  }

  lemma StillWaiting(identify: Identify, filer: Filer, pending: seq<Capture>, i: nat, id: string)
    requires i <= |pending| && Waiting(identify, pending, id) && id !in SweepOf(identify, filer, pending[..i]).seen
    ensures Waiting(identify, SweepOf(identify, filer, pending[..i]).kept + pending[i..], id)
  {
    var s := SweepOf(identify, filer, pending[..i]);
    var j :| 0 <= j < |pending| && pending[j].body.Record? && identify(pending[j].body.text) == id;
    var now := s.kept + pending[i..];
    if j < i {
      assert pending[..i][j] == pending[j];
      LeftOrMoved(identify, filer, pending[..i], pending[j]);
      var k :| 0 <= k < |s.kept| && s.kept[k] == pending[j];
      assert now[k] == pending[j];
    } else {
      assert now[|s.kept| + j - i] == pending[j];
    }
  }

  /** Events of a run: a capture arrives at its place in name order, or the job ticks. */
  datatype Event = Arrive(at: nat, capture: Capture) | Tick(filer: Filer)

  datatype State = State(rows: seq<string>, processed: seq<Capture>, pending: seq<Capture>)

  function After(identify: Identify, st: State, e: Event): State {
    match e
    case Arrive(at, c) =>
      if at <= |st.pending| then st.(pending := st.pending[..at] + [c] + st.pending[at..]) else st
    case Tick(filer) =>
      var s := SweepOf(identify, filer, st.pending);
      State(st.rows + s.filed, st.processed + s.moved, s.kept)
  }

  function StateAt(identify: Identify, es: seq<Event>, n: nat): State
    requires n <= |es|
  {
    if n == 0 then State([], [], []) else After(identify, StateAt(identify, es, n - 1), es[n - 1])
  }

  /** Over every run no identity is lost. */
  lemma {:induction false} RunLosesNothing(identify: Identify, es: seq<Event>, n: nat)
    requires n <= |es|
    ensures var st := StateAt(identify, es, n); NothingLost(identify, st.rows, st.processed, st.pending)
  {
    if n > 0 {
      RunLosesNothing(identify, es, n - 1);
      var st := StateAt(identify, es, n - 1);
      match es[n - 1]
      case Arrive(at, c) =>
        if at <= |st.pending| {
          ArrivalLosesNothing(identify, st, at, c);
        }
      case Tick(filer) =>
        TickLosesNothing(identify, filer, st.rows, st.processed, st.pending, |st.pending|);
        assert st.pending[..|st.pending|] == st.pending;
        var kept := SweepOf(identify, filer, st.pending).kept;
        assert kept + st.pending[|st.pending|..] == kept;
    }
  }

  lemma ArrivalLosesNothing(identify: Identify, st: State, at: nat, c: Capture)
    requires NothingLost(identify, st.rows, st.processed, st.pending) && at <= |st.pending|
    ensures NothingLost(identify, st.rows, st.processed, st.pending[..at] + [c] + st.pending[at..])
  {
    var now := st.pending[..at] + [c] + st.pending[at..];
    forall p <- st.processed ensures Accounted(identify, st.rows, now, identify(p.body.text)) {
      if Waiting(identify, st.pending, identify(p.body.text)) {
        var j :| 0 <= j < |st.pending| && st.pending[j].body.Record?
            && identify(st.pending[j].body.text) == identify(p.body.text);
        assert now[if j < at then j else j + 1] == st.pending[j];
      }
    }
  }

  // ---------------------------------------------------------------- texts

  /** A text that shares its identity with one filed before it in the tick is moved away unfiled, even one that
      could not have been filed at all. */
  lemma CollisionLosesText(identify: Identify, a: string, b: string, passes: bool)
    requires a != b && identify(a) == identify(b)
    ensures var one, two := Capture("1", Record(a, true)), Capture("2", Record(b, passes));
            var s := SweepOf(identify, WORKING, [one, two]);
            s.filed == [a] && s.kept == [] && s.moved == [one, two]
  {
    var one, two := Capture("1", Record(a, true)), Capture("2", Record(b, passes));
    SweepSnoc(identify, WORKING, [one, two], 0);
    SweepSnoc(identify, WORKING, [one, two], 1);
    assert [one, two][..0] == [] && [one, two][..1] == [one] && [one, two][..2] == [one, two];
  }

  predicate HasText(cs: seq<Capture>, t: string) {
    exists i :: 0 <= i < |cs| && cs[i].body.Record? && cs[i].body.text == t
  }

  lemma HasTextMore(a: seq<Capture>, b: seq<Capture>, t: string)
    requires HasText(a, t) && forall c <- a :: c in b
    ensures HasText(b, t)
  {
    var i :| 0 <= i < |a| && a[i].body.Record? && a[i].body.text == t;
    assert a[i] in b;
    var j :| 0 <= j < |b| && b[j] == a[i];
  }

  /** What a tick leaves, moves and files comes from the captures it met. */
  lemma {:induction false} SweepIsPart(identify: Identify, filer: Filer, cs: seq<Capture>)
    ensures var s := SweepOf(identify, filer, cs);
            (forall c <- s.kept + s.moved :: c in cs) && forall t <- s.filed :: HasText(cs, t)
  {
    hide HasText;
    if cs != [] {
      var front, last := cs[..|cs| - 1], cs[|cs| - 1];
      SweepIsPart(identify, filer, front);
      var s, t := SweepOf(identify, filer, front), SweepOf(identify, filer, cs);
      assert forall c <- front :: c in cs;
      forall u <- t.filed ensures HasText(cs, u) {
        if u in s.filed {
          HasTextMore(front, cs, u);
        } else {
          LastText(cs);
        }
      }
      forall c <- t.kept + t.moved ensures c in cs {
        assert c in s.kept + s.moved || c == last;
      }
    }
  }

  lemma LastText(cs: seq<Capture>)
    requires cs != [] && cs[|cs| - 1].body.Record?
    ensures HasText(cs, cs[|cs| - 1].body.text)
  {
  }

  /** When a tick leaves no record, every text has a filed text of its identity. */
  lemma SomeTextFiled(identify: Identify, filer: Filer, cs: seq<Capture>, t: string)
    requires Records(SweepOf(identify, filer, cs).kept) == 0 && HasText(cs, t)
    ensures Filed(identify, SweepOf(identify, filer, cs).filed, identify(t))
  {
    hide SweepOf;
    hide Filed;
    hide Waiting;
    var s := SweepOf(identify, filer, cs);
    SweepAccounts(identify, filer, cs);
    NoneWaiting(identify, s.kept);
    var i :| 0 <= i < |cs| && cs[i].body.Record? && cs[i].body.text == t;
    LeftOrMoved(identify, filer, cs, cs[i]);
  }

  /** A tick that leaves no record files all its texts if and only if no two of them share an identity without
      sharing the text. */
  lemma AllTextsFiledIff(identify: Identify, filer: Filer, cs: seq<Capture>)
    requires Records(SweepOf(identify, filer, cs).kept) == 0
    ensures var filed := SweepOf(identify, filer, cs).filed;
            (forall t :: HasText(cs, t) ==> t in filed) <==>
            forall t, u :: HasText(cs, t) && HasText(cs, u) && identify(t) == identify(u) ==> t == u
  {
    hide SweepOf;
    hide HasText;
    hide Records;
    var s := SweepOf(identify, filer, cs);
    SweepIsPart(identify, filer, cs);
    CapHolds(identify, filer, cs);
    if forall t :: HasText(cs, t) ==> t in s.filed {
      forall t, u | HasText(cs, t) && HasText(cs, u) && identify(t) == identify(u) ensures t == u {
        var i :| 0 <= i < |s.filed| && s.filed[i] == t;
        var j :| 0 <= j < |s.filed| && s.filed[j] == u;
      }
    }
    if forall t, u :: HasText(cs, t) && HasText(cs, u) && identify(t) == identify(u) ==> t == u {
      forall t | HasText(cs, t) ensures t in s.filed {
        SomeTextFiled(identify, filer, cs, t);
        var k :| 0 <= k < |s.filed| && identify(s.filed[k]) == identify(t);
        assert s.filed[k] in s.filed;
      }
    }
  }

  lemma {:induction false} NoneWaiting(identify: Identify, cs: seq<Capture>)
    requires Records(cs) == 0
    ensures forall c <- cs :: !c.body.Record?
    ensures forall id :: !Waiting(identify, cs, id)
  {
    if cs != [] {
      NoneWaiting(identify, cs[..|cs| - 1]);
      assert cs == cs[..|cs| - 1] + [cs[|cs| - 1]];
    }
    assert forall i :: 0 <= i < |cs| ==> cs[i] in cs;
  }

  /** A record with the text `t` arrived within the first `n` events. */
  predicate Arrived(es: seq<Event>, n: nat, t: string)
    requires n <= |es|
  {
    exists i :: 0 <= i < n && es[i].Arrive? && es[i].capture.body.Record? && es[i].capture.body.text == t
  }

  ghost predicate FromArrivals(es: seq<Event>, n: nat, st: State)
    requires n <= |es|
  {
    && (forall t <- st.rows :: Arrived(es, n, t))
    && forall c <- st.pending + st.processed :: c.body.Record? ==> Arrived(es, n, c.body.text)
  }

  lemma {:induction false} RunIsFromArrivals(identify: Identify, es: seq<Event>, n: nat)
    requires n <= |es|
    ensures FromArrivals(es, n, StateAt(identify, es, n))
  {
    if n > 0 {
      RunIsFromArrivals(identify, es, n - 1);
      var st := StateAt(identify, es, n - 1);
      match es[n - 1]
      case Arrive(at, c) =>
        assert c.body.Record? ==> Arrived(es, n, c.body.text);
      case Tick(filer) =>
        SweepIsPart(identify, filer, st.pending);
        TickFromArrivals(es, n - 1, st, SweepOf(identify, filer, st.pending));
    }
  }

  lemma TickFromArrivals(es: seq<Event>, n: nat, st: State, s: Sweep)
    requires n < |es| && FromArrivals(es, n, st)
    requires (forall c <- s.kept + s.moved :: c in st.pending) && forall t <- s.filed :: HasText(st.pending, t)
    ensures FromArrivals(es, n + 1, State(st.rows + s.filed, st.processed + s.moved, s.kept))
  {
    forall t <- st.rows + s.filed ensures Arrived(es, n + 1, t) {
      if t !in st.rows {
        var i :| 0 <= i < |st.pending| && st.pending[i].body.Record? && st.pending[i].body.text == t;
        assert st.pending[i] in st.pending + st.processed;
      }
    }
    forall c <- s.kept + (st.processed + s.moved) ensures c.body.Record? ==> Arrived(es, n + 1, c.body.text) {
      assert c in s.kept + s.moved || c in st.processed;
      assert c in st.pending + st.processed;
    }
  }

  /** Over every run a processed text has been filed or is still pending, unless another text of its identity
      has arrived. */
  lemma TextsAreKept(identify: Identify, es: seq<Event>, n: nat, c: Capture)
    requires n <= |es| && c in StateAt(identify, es, n).processed
    requires c.body.Record? ==> forall t :: Arrived(es, n, t) && identify(t) == identify(c.body.text) ==>
             t == c.body.text
    ensures c.body.Record?
    ensures var st := StateAt(identify, es, n); c.body.text in st.rows || HasText(st.pending, c.body.text)
  {
    hide StateAt;
    var st := StateAt(identify, es, n);
    RunLosesNothing(identify, es, n);
    RunIsFromArrivals(identify, es, n);
    var id := identify(c.body.text);
    if Filed(identify, st.rows, id) {
      var i :| 0 <= i < |st.rows| && identify(st.rows[i]) == id;
      assert st.rows[i] in st.rows;
    } else {
      var i :| 0 <= i < |st.pending| && st.pending[i].body.Record? && identify(st.pending[i].body.text) == id;
      assert st.pending[i] in st.pending + st.processed;
    }
  }

  // ---------------------------------------------------------------- the cap and the drain

  /** One tick files at most the cap, no identity twice. */
  lemma {:induction false} CapHolds(identify: Identify, filer: Filer, cs: seq<Capture>)
    ensures var s := SweepOf(identify, filer, cs);
            && |s.filed| <= 20 && (forall t <- s.filed :: identify(t) in s.seen)
            && forall i, j :: 0 <= i < j < |s.filed| ==> identify(s.filed[i]) != identify(s.filed[j])
  {
    if cs != [] {
      CapHolds(identify, filer, cs[..|cs| - 1]);
    }
  }

  function Records(cs: seq<Capture>): nat {
    if cs == [] then 0 else Records(cs[..|cs| - 1]) + if cs[|cs| - 1].body.Record? then 1 else 0
  }

  lemma {:induction false} RecordsOfSum(a: seq<Capture>, b: seq<Capture>)
    ensures Records(a + b) == Records(a) + Records(b)
  {
    if b == [] {
      assert a + b == a;
    } else {
      RecordsOfSum(a, b[..|b| - 1]);
      assert (a + b)[..|a + b| - 1] == a + b[..|b| - 1];
    }
  }

  /** A capture whose standardizing, digest or hand-over to the filer raises. */
  predicate Blocks(c: Capture) { c.body.Raising? || (c.body.Record? && !c.body.passes) }

  predicate PoisonFree(cs: seq<Capture>) { forall i :: 0 <= i < |cs| ==> !Blocks(cs[i]) }

  /** With a working filer and every capture readable as a record or skipped, a tick moves every record, or
      files a full cap's worth. */
  lemma TickMoves(identify: Identify, cs: seq<Capture>)
    requires PoisonFree(cs)
    ensures var s := SweepOf(identify, WORKING, cs);
            && PoisonFree(s.kept) && Records(s.kept) + |s.moved| == Records(cs) && |s.filed| <= |s.moved|
            && (s.over ==> |s.filed| == MAX_PER_TICK) && (!s.over ==> Records(s.kept) == 0)
  {
    hide SweepOf;
    hide Records;
    hide Settled;
    var s := SweepOf(identify, WORKING, cs);
    CapHolds(identify, WORKING, cs);
    TickMovesOrSettles(identify, cs);
    SweepIsPart(identify, WORKING, cs);
    forall i | 0 <= i < |s.kept| ensures !Blocks(s.kept[i]) {
      assert s.kept[i] in s.kept + s.moved;
      var j :| 0 <= j < |cs| && cs[j] == s.kept[i];
    }
    if !s.over {
      NothingCanMove(s.kept);
    }
  }

  lemma {:induction false} NothingCanMove(cs: seq<Capture>)
    requires PoisonFree(cs) && Settled(cs)
    ensures Records(cs) == 0
  {
    if cs != [] {
      var front, c := cs[..|cs| - 1], cs[|cs| - 1];
      assert cs == front + [c];
      PoisonFreeSnoc(front, c);
      SettledSnoc(front, c);
      hide Settled;
      hide PoisonFree;
      NothingCanMove(front);
    }
  }

  /** The captures left after `k` ticks with a working filer. */
  function PendingAfter(identify: Identify, cs: seq<Capture>, k: nat): seq<Capture> {
    if k == 0 then cs else SweepOf(identify, WORKING, PendingAfter(identify, cs, k - 1)).kept
  }

  lemma {:induction false} TicksDrain(identify: Identify, cs: seq<Capture>, k: nat)
    requires PoisonFree(cs)
    ensures PoisonFree(PendingAfter(identify, cs, k))
    ensures Records(PendingAfter(identify, cs, k)) <= if Records(cs) >= 20 * k
            then Records(cs) - 20 * k else 0
  {
    if k > 0 {
      TicksDrain(identify, cs, k - 1);
      TickMoves(identify, PendingAfter(identify, cs, k - 1));
    }
  }

  predicate HasIdentity(identify: Identify, cs: seq<Capture>, id: string) {
    exists i :: 0 <= i < |cs| && cs[i].body.Record? && identify(cs[i].body.text) == id
  }

  /** A capture that raises, and that no record of `front` takes away by sharing its identity. */
  predicate BlocksBehind(identify: Identify, front: seq<Capture>, c: Capture) {
    c.body.Raising? || (c.body.Record? && !c.body.passes && !HasIdentity(identify, front, identify(c.body.text)))
  }

  lemma {:induction false} SeenIsMet(identify: Identify, filer: Filer, cs: seq<Capture>)
    ensures forall id <- SweepOf(identify, filer, cs).seen :: HasIdentity(identify, cs, id)
  {
    if cs != [] {
      var front := cs[..|cs| - 1];
      SeenIsMet(identify, filer, front);
      forall id <- SweepOf(identify, filer, cs).seen ensures HasIdentity(identify, cs, id) {
        if HasIdentity(identify, front, id) {
          var i :| 0 <= i < |front| && front[i].body.Record? && identify(front[i].body.text) == id;
          assert cs[i] == front[i];
        } else {
          assert cs[|cs| - 1].body.Record? && identify(cs[|cs| - 1].body.text) == id;
        }
      }
    }
  }

  /** While a tick goes on, it has met exactly the identities of the records behind it, filed or not: what shares one
      is moved away without a row. */
  lemma {:induction false} SeenIsAll(identify: Identify, filer: Filer, cs: seq<Capture>, id: string)
    requires !SweepOf(identify, filer, cs).over
    ensures id in SweepOf(identify, filer, cs).seen <==> HasIdentity(identify, cs, id)
  {
    if cs != [] {
      var front, c := cs[..|cs| - 1], cs[|cs| - 1];
      var s, t := SweepOf(identify, filer, front), SweepOf(identify, filer, cs);
      assert t == Step(identify, s, c, filer(|front|));
      assert cs == front + [c];
      hide SweepOf;
      hide HasIdentity;
      SeenIsAll(identify, filer, front, id);
      HasIdentitySnoc(identify, front, c, id);
    }
  }

  lemma HasIdentitySnoc(identify: Identify, cs: seq<Capture>, c: Capture, id: string)
    ensures HasIdentity(identify, cs + [c], id) <==>
            HasIdentity(identify, cs, id) || (c.body.Record? && identify(c.body.text) == id)
  {
    assert (cs + [c])[|cs|] == c && forall i :: 0 <= i < |cs| ==> (cs + [c])[i] == cs[i];
    if HasIdentity(identify, cs, id) {
      var i :| 0 <= i < |cs| && cs[i].body.Record? && identify(cs[i].body.text) == id;
      assert (cs + [c])[i] == cs[i];
    }
  }

  /** A capture that raises ends every tick: it and what stands behind it stay, whatever the filer does. */
  lemma PoisonBlocks(identify: Identify, filer: Filer, front: seq<Capture>, poison: Capture, behind: seq<Capture>)
    requires BlocksBehind(identify, front, poison)
    ensures SweepOf(identify, filer, front + [poison] + behind).kept ==
            SweepOf(identify, filer, front).kept + [poison] + behind
  {
    hide SweepOf;
    hide HasIdentity;
    var cs, i := front + [poison] + behind, |front|;
    assert cs[..i] == front && cs[..i + 1] == front + [poison] && cs[i + 1..] == behind;
    SeenIsMet(identify, filer, front);
    SweepSnoc(identify, filer, cs, i);
    SweepOver(identify, filer, cs, i + 1);
  }

  lemma StillBlocks(identify: Identify, cs: seq<Capture>, fewer: seq<Capture>, c: Capture)
    requires BlocksBehind(identify, cs, c) && forall d <- fewer :: d in cs
    ensures BlocksBehind(identify, fewer, c)
  {
    hide HasIdentity;
    if c.body.Record? {
      IdentityMore(identify, fewer, cs, identify(c.body.text));
    }
  }

  lemma IdentityMore(identify: Identify, a: seq<Capture>, b: seq<Capture>, id: string)
    requires forall c <- a :: c in b
    ensures HasIdentity(identify, a, id) ==> HasIdentity(identify, b, id)
  {
    if HasIdentity(identify, a, id) {
      var i :| 0 <= i < |a| && a[i].body.Record? && identify(a[i].body.text) == id;
      assert a[i] in b;
      var j :| 0 <= j < |b| && b[j] == a[i];
    }
  }

  lemma {:induction false} PendingIsPart(identify: Identify, cs: seq<Capture>, k: nat)
    ensures forall c <- PendingAfter(identify, cs, k) :: c in cs
  {
    if k > 0 {
      PendingIsPart(identify, cs, k - 1);
      var before := PendingAfter(identify, cs, k - 1);
      SweepIsPart(identify, WORKING, before);
      forall c <- PendingAfter(identify, cs, k) ensures c in cs {
        assert c in SweepOf(identify, WORKING, before).kept + SweepOf(identify, WORKING, before).moved;
      }
    }
  }

  lemma {:induction false} PoisonBlocksTicks(identify: Identify, front: seq<Capture>, poison: Capture,
                                             behind: seq<Capture>, k: nat)
    requires BlocksBehind(identify, front, poison)
    ensures PendingAfter(identify, front + [poison] + behind, k) ==
            PendingAfter(identify, front, k) + [poison] + behind
  {
    hide SweepOf;
    hide BlocksBehind;
    if k > 0 {
      PoisonBlocksTicks(identify, front, poison, behind, k - 1);
      PendingIsPart(identify, front, k - 1);
      StillBlocks(identify, front, PendingAfter(identify, front, k - 1), poison);
      PoisonBlocks(identify, WORKING, PendingAfter(identify, front, k - 1), poison, behind);
    }
  }

  /** The captures before the first that raises. */
  function Reached(cs: seq<Capture>): (r: seq<Capture>)
    ensures r <= cs && PoisonFree(r) && (|r| < |cs| ==> Blocks(cs[|r|]))
  {
    if cs == [] || Blocks(cs[0]) then [] else [cs[0]] + Reached(cs[1..])
  }

  /** Every record left is, or stands behind, a capture that raises. */
  predicate Settled(cs: seq<Capture>) {
    forall i :: 0 <= i < |cs| && cs[i].body.Record? ==> exists j :: 0 <= j <= i && Blocks(cs[j])
  }

  lemma PoisonFreeSnoc(cs: seq<Capture>, c: Capture)
    ensures PoisonFree(cs + [c]) <==> PoisonFree(cs) && !Blocks(c)
  {
    assert forall i :: 0 <= i < |cs| ==> (cs + [c])[i] == cs[i];
    assert (cs + [c])[|cs|] == c;
  }

  lemma SettledSnoc(cs: seq<Capture>, c: Capture)
    ensures Settled(cs + [c]) <==> Settled(cs) && (PoisonFree(cs) && c.body.Record? ==> Blocks(c))
  {
    var more := cs + [c];
    assert more[|cs|] == c && forall i :: 0 <= i < |cs| ==> more[i] == cs[i];
  }

  /** The tick goes on, has filed a full cap's worth, or met a capture that raises. */
  predicate Progress(s: Sweep) {
    && |s.filed| <= |s.moved| && (!s.over ==> PoisonFree(s.kept) && Settled(s.kept))
    && (s.over ==> |s.filed| >= MAX_PER_TICK || (!PoisonFree(s.kept) && Settled(s.kept)))
  }

  lemma StepProgress(identify: Identify, s: Sweep, c: Capture)
    requires Progress(s)
    ensures Progress(Step(identify, s, c, Done))
  {
    hide PoisonFree;
    hide Settled;
    PoisonFreeSnoc(s.kept, c);
    SettledSnoc(s.kept, c);
  }

  /** A step leaves or moves a record. */
  lemma StepCounts(identify: Identify, s: Sweep, c: Capture, filing: Filing)
    ensures var t := Step(identify, s, c, filing);
            Records(t.kept) + |t.moved| == Records(s.kept) + |s.moved| + if c.body.Record? then 1 else 0
  {
    hide Records;
    RecordsSnoc(s.kept, c);
  }

  /** A tick with a working filer moves a full cap's worth of captures or leaves no record that could still move. */
  lemma {:induction false} TickMovesOrSettles(identify: Identify, cs: seq<Capture>)
    ensures var s := SweepOf(identify, WORKING, cs); Records(s.kept) + |s.moved| == Records(cs) && Progress(s)
  {
    if cs == [] {
      assert SweepOf(identify, WORKING, cs) == Sweep({}, [], [], [], false);
    } else {
      var front, c := cs[..|cs| - 1], cs[|cs| - 1];
      TickMovesOrSettles(identify, front);
      var s := SweepOf(identify, WORKING, front);
      assert SweepOf(identify, WORKING, cs) == Step(identify, s, c, Done);
      hide SweepOf;
      hide Step;
      hide Progress;
      StepProgress(identify, s, c);
      StepCounts(identify, s, c, Done);
    }
  }

  lemma RecordsSnoc(cs: seq<Capture>, c: Capture)
    ensures Records(cs + [c]) == Records(cs) + if c.body.Record? then 1 else 0
  {
    assert (cs + [c])[..|cs|] == cs;
  }

  /** What is settled stays as it is in every tick, whatever the filer does. */
  lemma {:induction false} SettledStays(identify: Identify, filer: Filer, cs: seq<Capture>)
    requires Settled(cs)
    ensures var s := SweepOf(identify, filer, cs);
            s.kept == cs && s.moved == [] && s.filed == [] && (!s.over ==> s.seen == {} && PoisonFree(cs))
  {
    if cs != [] {
      var front, c := cs[..|cs| - 1], cs[|cs| - 1];
      assert cs == front + [c];
      SettledSnoc(front, c);
      PoisonFreeSnoc(front, c);
      SettledStays(identify, filer, front);
      var s := SweepOf(identify, filer, front);
      assert SweepOf(identify, filer, cs) == Step(identify, s, c, filer(|front|));
      hide SweepOf;
      hide Settled;
      hide PoisonFree;
    }
  }

  /** With a working filer and no arrivals, enough ticks for their number leave only records that are, or stand
      behind, a capture that raises; no later tick, with any filer, changes anything. */
  lemma DrainSettles(identify: Identify, filer: Filer, cs: seq<Capture>, k: nat)
    requires 20 * k >= Records(cs)
    ensures Settled(PendingAfter(identify, cs, k))
    ensures SweepOf(identify, filer, PendingAfter(identify, cs, k)).kept == PendingAfter(identify, cs, k)
  {
    hide SweepOf;
    hide Settled;
    DrainsOrSettles(identify, cs, k);
    var left := PendingAfter(identify, cs, k);
    if !Settled(left) {
      NoneWaiting(identify, left);
      NoRecordIsSettled(left);
    }
    SettledStays(identify, filer, left);
  }

  lemma NoRecordIsSettled(cs: seq<Capture>)
    requires forall c <- cs :: !c.body.Record?
    ensures Settled(cs)
  {
  }

  lemma {:induction false} DrainsOrSettles(identify: Identify, cs: seq<Capture>, k: nat)
    ensures var left := PendingAfter(identify, cs, k);
            Settled(left) || Records(left) + MAX_PER_TICK * k <= Records(cs)
  {
    hide SweepOf;
    hide Settled;
    if k > 0 {
      DrainsOrSettles(identify, cs, k - 1);
      var before := PendingAfter(identify, cs, k - 1);
      TickMovesOrSettles(identify, before);
      if Settled(before) {
        SettledStays(identify, WORKING, before);
      }
    }
  }

  // ---------------------------------------------------------------- the first capture that raises

  /** What is left of `front` when the last tick on it begins: the ticks before filed a full cap's worth each. */
  function LastBatch(identify: Identify, front: seq<Capture>): seq<Capture>
    requires PoisonFree(front)
    decreases Records(front)
  {
    TickMoves(identify, front);
    var s := SweepOf(identify, WORKING, front);
    if s.over then LastBatch(identify, s.kept) else front
  }

  lemma {:induction false} TicksAdd(identify: Identify, cs: seq<Capture>, i: nat, j: nat)
    ensures PendingAfter(identify, cs, i + j) == PendingAfter(identify, PendingAfter(identify, cs, i), j)
  {
    hide SweepOf;
    if j > 0 {
      TicksAdd(identify, cs, i, j - 1);
    }
  }

  lemma OneTick(identify: Identify, cs: seq<Capture>)
    ensures PendingAfter(identify, cs, 1) == SweepOf(identify, WORKING, cs).kept
  {
    assert PendingAfter(identify, cs, 0) == cs;
  }

  lemma LastBatchStep(identify: Identify, front: seq<Capture>)
    requires PoisonFree(front)
    ensures var s := SweepOf(identify, WORKING, front);
            && PoisonFree(s.kept) && (s.over ==> Records(s.kept) + MAX_PER_TICK <= Records(front))
            && LastBatch(identify, front) == if s.over then LastBatch(identify, s.kept) else front
  {
    TickMoves(identify, front);
  }

  /** A tick that breaks off in `front` leaves what stands behind it. */
  lemma TickWithin(identify: Identify, front: seq<Capture>, rest: seq<Capture>)
    requires SweepOf(identify, WORKING, front).over
    ensures PendingAfter(identify, front + rest, 1) == SweepOf(identify, WORKING, front).kept + rest
  {
    hide SweepOf;
    assert (front + rest)[..|front|] == front && (front + rest)[|front|..] == rest;
    SweepOver(identify, WORKING, front + rest, |front|);
    OneTick(identify, front + rest);
  }

  /** Until the last batch of `front` the ticks do not reach what stands behind it. */
  lemma {:induction false} DrainToLast(identify: Identify, front: seq<Capture>, rest: seq<Capture>) returns (q: nat)
    requires PoisonFree(front)
    ensures var last := LastBatch(identify, front);
            && PoisonFree(last) && !SweepOf(identify, WORKING, last).over
            && PendingAfter(identify, front + rest, q) == last + rest
            && MAX_PER_TICK * q + Records(last) <= Records(front)
    decreases Records(front)
  {
    hide SweepOf;
    hide PoisonFree;
    hide Records;
    LastBatchStep(identify, front);
    hide LastBatch;
    var s := SweepOf(identify, WORKING, front);
    if s.over {
      q := DrainToLast(identify, s.kept, rest);
      TickWithin(identify, front, rest);
      TicksAdd(identify, front + rest, 1, q);
      hide PendingAfter;
      q := q + 1;
    } else {
      q := 0;
      assert PendingAfter(identify, front + rest, 0) == front + rest;
    }
  }

  /** A capture of the last batch takes away the one behind it that shares its identity. */
  lemma LastBatchTakes(identify: Identify, last: seq<Capture>, c: Capture)
    requires PoisonFree(last) && !SweepOf(identify, WORKING, last).over
    requires c.body.Record? && HasIdentity(identify, last, identify(c.body.text))
    ensures |SweepOf(identify, WORKING, last + [c]).moved| == Records(last) + 1
  {
    var s := SweepOf(identify, WORKING, last);
    TickMoves(identify, last);
    NoneWaiting(identify, s.kept);
    var i :| 0 <= i < |last| && last[i].body.Record? && identify(last[i].body.text) == identify(c.body.text);
    LeftOrMoved(identify, WORKING, last, last[i]);
    assert (last + [c])[..|last|] == last;
  }

  lemma {:induction false} MovedGrows(identify: Identify, filer: Filer, cs: seq<Capture>, i: nat)
    requires i <= |cs|
    ensures |SweepOf(identify, filer, cs[..i]).moved| <= |SweepOf(identify, filer, cs).moved|
    decreases |cs| - i
  {
    hide SweepOf;
    if i < |cs| {
      SweepSnoc(identify, filer, cs, i);
      StepAppends(identify, SweepOf(identify, filer, cs[..i]), cs[i], filer(i));
      MovedGrows(identify, filer, cs, i + 1);
    } else {
      assert cs[..i] == cs;
    }
  }

  lemma {:induction false} TicksOnlyTake(identify: Identify, cs: seq<Capture>, k: nat)
    ensures Records(PendingAfter(identify, cs, k)) <= Records(cs)
  {
    hide SweepOf;
    if k > 0 {
      TicksOnlyTake(identify, cs, k - 1);
      TickMovesOrSettles(identify, PendingAfter(identify, cs, k - 1));
    }
  }

  /** The first capture that raises blocks for good when no record of the last batch before it shares its identity. */
  lemma LastBatchBlocks(identify: Identify, last: seq<Capture>, c: Capture, behind: seq<Capture>, k: nat)
    requires PoisonFree(last) && BlocksBehind(identify, last, c) && MAX_PER_TICK * k >= Records(last)
    ensures Records(PendingAfter(identify, last + [c] + behind, k)) == Records([c] + behind)
  {
    hide SweepOf;
    hide PendingAfter;
    hide Records;
    hide BlocksBehind;
    hide PoisonFree;
    TicksDrain(identify, last, k);
    PoisonBlocksTicks(identify, last, c, behind, k);
    var left := PendingAfter(identify, last, k);
    RecordsOfSum(left, [c] + behind);
    assert left + [c] + behind == left + ([c] + behind);
  }

  /** Otherwise the first of these ticks takes it away. */
  lemma LastBatchTakesOne(identify: Identify, last: seq<Capture>, c: Capture, behind: seq<Capture>, k: nat)
    requires PoisonFree(last) && !SweepOf(identify, WORKING, last).over && k > 0
    requires c.body.Record? && HasIdentity(identify, last, identify(c.body.text))
    ensures Records(PendingAfter(identify, last + [c] + behind, k)) < Records([c] + behind)
  {
    hide SweepOf;
    hide HasIdentity;
    hide PendingAfter;
    hide PoisonFree;
    var cs := last + [c] + behind;
    LastBatchTakes(identify, last, c);
    assert cs[..|last| + 1] == last + [c];
    MovedGrows(identify, WORKING, cs, |last| + 1);
    TickMovesOrSettles(identify, cs);
    RecordsOfSum(last, [c] + behind);
    assert cs == last + ([c] + behind);
    OneTick(identify, cs);
    TicksAdd(identify, cs, 1, k - 1);
    TicksOnlyTake(identify, PendingAfter(identify, cs, 1), k - 1);
  }

  /** With a working filer and no arrivals, and after enough ticks for their number, the records left are those from the
      first capture that raises on, if and only if no record of the last batch before it shares its identity: such a
      record takes it away, unfiled. All of them drain when none raises. */
  lemma DrainLeavesTheBlocked(identify: Identify, cs: seq<Capture>, k: nat)
    requires 20 * k >= Records(cs)
    ensures var front := Reached(cs);
            Records(PendingAfter(identify, cs, k)) == Records(cs[|front|..]) <==>
            (|front| < |cs| ==> BlocksBehind(identify, LastBatch(identify, front), cs[|front|]))
  {
    hide SweepOf;
    hide PendingAfter;
    hide Reached;
    hide Records;
    hide HasIdentity;
    hide LastBatch;
    hide PoisonFree;
    var front := Reached(cs);
    var rest := cs[|front|..];
    assert cs == front + rest;
    RecordsOfSum(front, rest);
    if front == cs {
      assert rest == [];
      TicksDrain(identify, cs, k);
    } else {
      var q := DrainToLast(identify, front, rest);
      var last, c, behind := LastBatch(identify, front), rest[0], rest[1..];
      assert rest == [c] + behind && last + rest == last + [c] + behind;
      TicksAdd(identify, cs, q, k - q);
      if BlocksBehind(identify, last, c) {
        LastBatchBlocks(identify, last, c, behind, k - q);
      } else {
        RecordsOfSum([c], behind);
        OneRecord(c);
        LastBatchTakesOne(identify, last, c, behind, k - q);
      }
    }
  }

  lemma OneRecord(c: Capture)
    ensures Records([c]) == if c.body.Record? then 1 else 0
  {
    assert [c][..0] == [];
  }
}
