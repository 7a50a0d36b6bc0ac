/** automation/jobs/dashboard-introspect.py: probes with met streaks and eras, and the arcs filed for unmet ones. */
module ProbeEras {
  import opened Naming
  import opened Options
  import opened Sequences
  import opened StableSort

  // ---------------------------------------------------------------- one probe

  /** What is remembered of a probe. */
  datatype Probe = Probe(streak: nat, era: nat, met: bool)

  const NEW := Probe(0, 0, false)

  /** One observation, with `retire` met ones in a row closing an era. */
  function Observed(p: Probe, met: bool, retire: nat): Probe {
    if met then
      Probe(p.streak + 1, if p.streak + 1 >= retire && p.streak < retire then p.era + 1 else p.era, true)
    else Probe(0, p.era, false)
  }

  function ProbeOf(history: seq<bool>, retire: nat): Probe {
    if history == [] then NEW
    else Observed(ProbeOf(history[..|history| - 1], retire), history[|history| - 1], retire)
  }

  /** The last `n` observations, and no more, were all met. */
  predicate CurrentRun(history: seq<bool>, n: nat) {
    && n <= |history| && (forall i :: |history| - n <= i < |history| ==> history[i])
    && (n < |history| ==> !history[|history| - n - 1])
  }

  /** A maximal met run starts at `i` and reaches `retire` observations. */
  predicate LongRun(history: seq<bool>, i: nat, retire: nat) {
    && i + retire <= |history| && (i > 0 ==> !history[i - 1])
    && forall k :: i <= k < i + retire ==> history[k]
  }

  function LongRuns(history: seq<bool>, retire: nat): set<nat> {
    set i: nat | i < |history| && LongRun(history, i, retire)
  }

  lemma RunGrows(history: seq<bool>, n: nat)
    requires history != [] && CurrentRun(history[..|history| - 1], n)
    ensures CurrentRun(history, if history[|history| - 1] then n + 1 else 0)
  {
    var front := history[..|history| - 1];
    assert forall i :: 0 <= i < |front| ==> history[i] == front[i];
  }

  lemma LongRunsGrow(history: seq<bool>, retire: nat, n: nat)
    requires retire > 0 && history != [] && CurrentRun(history[..|history| - 1], n)
    ensures var front, last := history[..|history| - 1], |history| - 1;
            LongRuns(history, retire) ==
            LongRuns(front, retire) + if history[last] && n + 1 == retire then {last + 1 - retire} else {}
  {
    var front, last := history[..|history| - 1], |history| - 1;
    assert forall i :: 0 <= i < |front| ==> history[i] == front[i];
    RunGrows(history, n);
    forall i: nat | i < |history| && LongRun(history, i, retire) && i + retire <= last
      ensures LongRun(front, i, retire)
    {
    }
    forall i: nat | i < |front| && LongRun(front, i, retire) ensures LongRun(history, i, retire) {
    }
    forall i: nat | LongRun(history, i, retire) && i + retire == |history| ensures history[last] && n + 1 == retire {
      assert history[last];
      assert i > 0 ==> !history[i - 1];
    }
  }

  /** Over every history the streak is the length of the current met run, and the era counts the met runs that
      reached the retire length. */
  lemma {:induction false} StreakAndEra(history: seq<bool>, retire: nat)
    requires retire > 0
    ensures var p := ProbeOf(history, retire);
            && CurrentRun(history, p.streak) && p.era == |LongRuns(history, retire)|
            && (p.met <==> history != [] && history[|history| - 1])
  {
    if history == [] {
      assert LongRuns(history, retire) == {};
    } else {
      var front := history[..|history| - 1];
      StreakAndEra(front, retire);
      var n := ProbeOf(front, retire).streak;
      RunGrows(history, n);
      LongRunsGrow(history, retire, n);
    }
  }

  // ---------------------------------------------------------------- one run over all probes

  datatype Result = Result(slug: string, met: bool)

  type Probes = map<string, Probe>

  function Known(probes: Probes, slug: string): Probe { if slug in probes then probes[slug] else NEW }

  /** The probes after the results `rs`. */
  function Updated(probes: Probes, rs: seq<Result>, retire: nat): Probes {
    if rs == [] then probes
    else
      var before, r := Updated(probes, rs[..|rs| - 1], retire), rs[|rs| - 1];
      before[r.slug := Observed(Known(before, r.slug), r.met, retire)]
  }

  /** The slugs of the unmet probes, in probe order. */
  function Pending(rs: seq<Result>): seq<string> {
    if rs == [] then []
    else Pending(rs[..|rs| - 1]) + if rs[|rs| - 1].met then [] else [rs[|rs| - 1].slug]
  }

  /** The probes that were met and no longer are. */
  function Regressed(probes: Probes, rs: seq<Result>, retire: nat): set<string> {
    if rs == [] then {}
    else
      var front, r := rs[..|rs| - 1], rs[|rs| - 1];
      Regressed(probes, front, retire) +
      if !r.met && Known(Updated(probes, front, retire), r.slug).met then {r.slug} else {}
  }

  /** The id of the arc for a probe on a day; later eras number theirs. */
  function ArcId(day: string, slug: string, era: nat): string {
    "arc-" + day + "-dashboard-" + slug + if era == 0 then "" else "-r" + Decimal(era)
  }

  /** An arc of a later era never reuses the id of an earlier one of the same day. */
  lemma ErasNameArcsApart(day: string, slug: string, era: nat, other: nat)
    requires ArcId(day, slug, era) == ArcId(day, slug, other)
    ensures era == other
  {
    var stem := "arc-" + day + "-dashboard-" + slug;
    assert ArcId(day, slug, era)[|stem|..] == if era == 0 then "" else "-r" + Decimal(era);
    assert ArcId(day, slug, other)[|stem|..] == if other == 0 then "" else "-r" + Decimal(other);
    if era > 0 && other > 0 {
      assert ("-r" + Decimal(era))[2..] == Decimal(era) && ("-r" + Decimal(other))[2..] == Decimal(other);
      DecimalInjective(era, other);
    }
  }

  /** An advisory answer: nothing, or a score for some of the slugs. */
  type Scores = Option<map<string, Option<real>>>

  function ScoreKey(scores: map<string, Option<real>>): string -> real {
    (slug: string) => if slug in scores && scores[slug].Some? then -scores[slug].value else 0.0
  }

  /** jev_order with its fallback: the pending slugs by falling score, or as they were. */
  function Order(pending: seq<string>, scores: Scores): seq<string> {
    if scores == None then pending else Sort(pending, ScoreKey(scores.value))
  }

  /** The ranking moves the pending slugs around and does nothing else. */
  lemma OrderIsPermutation(pending: seq<string>, scores: Scores)
    ensures multiset(Order(pending, scores)) == multiset(pending)
    ensures forall s :: s in Order(pending, scores) <==> s in pending
  {
    hide Sort;
    if scores.Some? {
      SortOrders(pending, ScoreKey(scores.value));
    }
    forall s ensures s in Order(pending, scores) <==> s in pending {
      assert s in Order(pending, scores) <==> s in multiset(Order(pending, scores));
      assert s in pending <==> s in multiset(pending);
    }
  }

  /** The advice ranks by falling score, a slug without one counting as zero, and leaves ties in probe order. */
  lemma OrderFollowsScores(pending: seq<string>, scores: map<string, Option<real>>, i: nat, j: nat)
    requires i < j < |Order(pending, Some(scores))|
    ensures var a, b := Order(pending, Some(scores))[i], Order(pending, Some(scores))[j];
            var x := if a in scores && scores[a].Some? then scores[a].value else 0.0;
            var y := if b in scores && scores[b].Some? then scores[b].value else 0.0;
            x >= y && (x == y ==> InOrder(pending, a, b))
    ensures Order(pending, None) == pending
  {
    hide Sort;
    var key, order := ScoreKey(scores), Order(pending, Some(scores));
    SortOrders(pending, key);
    assert key(order[i]) <= key(order[j]);
    if key(order[i]) == key(order[j]) {
      SortKeepsTies(pending, key, order[i], order[j]);
      assert InOrder(order, order[i], order[j]);
    }
  }

  /** Whether a slug may be filed now: inside the pacing window only regressed ones. */
  predicate MayFile(slug: string, windowOpen: bool, regressed: set<string>) { windowOpen || slug in regressed }

  /** The ids the filing loop appends, in order. */
  function Filed(order: seq<string>, probes: Probes, day: string, windowOpen: bool, regressed: set<string>,
                 existing: set<string>): seq<string> {
    if order == [] then []
    else
      var before, slug := Filed(order[..|order| - 1], probes, day, windowOpen, regressed, existing), order[|order| - 1];
      var id := ArcId(day, slug, Known(probes, slug).era);
      if !MayFile(slug, windowOpen, regressed) || id in existing || id in before then before else before + [id]
  }

  function Ids(subjects: seq<string>): set<string> { set id <- subjects }

  /** What is on file: the probes, when arcs were last filed, and the subjects by their ids. */
  datatype Site = Site(probes: Probes, lastFiled: int, subjects: seq<string>)

  /** What one run meets: the probe results, the clock, the pacing gap and the day, the advice, and whether the
      subjects file takes the new rows and the state file the new state. */
  datatype Wake = Wake(
    rs: seq<Result>, now: int, gap: int, day: string, scores: Scores, writeOk: bool, stateOk: bool)

  function FiledBy(st: Site, w: Wake, retire: nat): seq<string> {
    if w.writeOk then
      Filed(Order(Pending(w.rs), w.scores), Updated(st.probes, w.rs, retire), w.day, w.now - st.lastFiled >= w.gap,
            Regressed(st.probes, w.rs, retire), Ids(st.subjects))
    else []
  }

  function After(st: Site, w: Wake, retire: nat): Site {
    var filed := FiledBy(st, w, retire);
    if w.stateOk then
      Site(Updated(st.probes, w.rs, retire), if filed == [] then st.lastFiled else w.now, st.subjects + filed)
    else st.(subjects := st.subjects + filed)
  }

  /** The state file, the subjects file by its ids, and main() on them. */
  class Introspection {
    var probes: Probes
    var lastFiled: int
    var subjects: seq<string>

    constructor ()
      ensures probes == map[] && lastFiled == 0 && subjects == []
    {
      probes, lastFiled, subjects := map[], 0, [];
    }

    /** main(): arcs are filed for the pending probes in the order of the advice, when the pacing window is open or
        something regressed, and the new state is saved. */
    method Run(w: Wake, retire: nat) returns (filed: seq<string>)
      modifies this
      ensures filed == FiledBy(old(Site(probes, lastFiled, subjects)), w, retire)
      ensures Site(probes, lastFiled, subjects) == After(old(Site(probes, lastFiled, subjects)), w, retire)
    {
      hide Updated;
      hide Regressed;
      hide Pending;
      hide Filed;
      var probed, pending, regressed := Observe(probes, w.rs, retire);
      var windowOpen, stamp := w.now - lastFiled >= w.gap, lastFiled;
      filed := [];
      if windowOpen || regressed != {} {
        filed := FileArcs(Order(pending, w.scores), probed, w.day, windowOpen, regressed, Ids(subjects));
        if !w.writeOk {
          filed := [];
        } else if filed != [] {
          subjects, stamp := subjects + filed, w.now;
        }
      } else {
        NothingFiled(Order(pending, w.scores), probed, w.day, regressed, Ids(subjects));
      }
      if w.stateOk {
        probes, lastFiled := probed, stamp;
      }
    }
  }

  /** The first loop: every probe is updated; unmet ones are pending, met ones that broke are regressions. */
  method Observe(before: Probes, rs: seq<Result>, retire: nat)
      returns (probes: Probes, pending: seq<string>, regressed: set<string>)
    ensures probes == Updated(before, rs, retire)
    ensures pending == Pending(rs) && regressed == Regressed(before, rs, retire)
  {
    probes, pending, regressed := before, [], {};
    assert rs[..0] == [];
    ObserveStarts(before, retire);
    hide Updated;
    hide Pending;
    hide Regressed;
    for i := 0 to |rs|
      invariant probes == Updated(before, rs[..i], retire)
      invariant pending == Pending(rs[..i]) && regressed == Regressed(before, rs[..i], retire)
    {
      ObserveStep(before, rs, i, retire);
      var prev := Known(probes, rs[i].slug);
      if rs[i].met {
        var streak, era := prev.streak + 1, prev.era;
        if streak >= retire && prev.streak < retire {
          era := era + 1;
        }
        probes := probes[rs[i].slug := Probe(streak, era, true)];
      } else {
        probes := probes[rs[i].slug := Probe(0, prev.era, false)];
        if prev.met {
          regressed := regressed + {rs[i].slug};
        }
        pending := pending + [rs[i].slug];
      }
    }
    assert rs[..|rs|] == rs;
  }

  lemma ObserveStarts(before: Probes, retire: nat)
    ensures Updated(before, [], retire) == before && Pending([]) == [] && Regressed(before, [], retire) == {}
  {
  }

  lemma ObserveStep(before: Probes, rs: seq<Result>, i: nat, retire: nat)
    requires i < |rs|
    ensures var r, probes := rs[i], Updated(before, rs[..i], retire);
            && Updated(before, rs[..i + 1], retire) ==
               probes[r.slug := Observed(Known(probes, r.slug), r.met, retire)]
            && Pending(rs[..i + 1]) == Pending(rs[..i]) + (if r.met then [] else [r.slug])
            && Regressed(before, rs[..i + 1], retire) ==
               Regressed(before, rs[..i], retire) + if !r.met && Known(probes, r.slug).met then {r.slug} else {}
  {
    assert rs[..i + 1][..i] == rs[..i];
  }

  /** The filing loop. */
  method FileArcs(order: seq<string>, probes: Probes, day: string, windowOpen: bool, regressed: set<string>,
                  known: set<string>)
      returns (filed: seq<string>)
    ensures filed == Filed(order, probes, day, windowOpen, regressed, known)
  {
    hide ArcId;
    var existing := known;
    filed := [];
    for i := 0 to |order|
      invariant filed == Filed(order[..i], probes, day, windowOpen, regressed, known)
      invariant existing == known + Ids(filed)
    {
      assert order[..i + 1][..i] == order[..i];
      if !windowOpen && order[i] !in regressed {
        continue;
      }
      var id := ArcId(day, order[i], Known(probes, order[i]).era);
      if id in existing {
        continue;
      }
      filed := filed + [id];
      existing := existing + {id};
    }
    assert order[..|order|] == order;
  }

  lemma {:induction false} NothingFiled(order: seq<string>, probes: Probes, day: string, regressed: set<string>,
                                        existing: set<string>)
    requires regressed == {}
    ensures Filed(order, probes, day, false, regressed, existing) == []
  {
    if order != [] {
      NothingFiled(order[..|order| - 1], probes, day, regressed, existing);
    }
  }

  // ---------------------------------------------------------------- what is filed

  /** Exactly the ids of the pending probes that may be filed and are not on file yet, each once. */
  lemma {:induction false} FiledExactly(order: seq<string>, probes: Probes, day: string, windowOpen: bool,
                                        regressed: set<string>, existing: set<string>, id: string)
    ensures Distinct(Filed(order, probes, day, windowOpen, regressed, existing))
    ensures id in Filed(order, probes, day, windowOpen, regressed, existing) <==>
            && id !in existing
            && exists k ::
               0 <= k < |order| && MayFile(order[k], windowOpen, regressed)
                   && id == ArcId(day, order[k], Known(probes, order[k]).era)
  {
    if order != [] {
      hide ArcId;
      var front, slug := order[..|order| - 1], order[|order| - 1];
      FiledExactly(front, probes, day, windowOpen, regressed, existing, id);
      assert forall k :: 0 <= k < |front| ==> front[k] == order[k];
    }
  }

  /** The advice changes the order of filing only: for any two answers the same ids are filed, as many of them. */
  lemma AdviceNeverChangesTheSet(pending: seq<string>, a: Scores, b: Scores, probes: Probes, day: string,
                                 windowOpen: bool,
                                 regressed: set<string>, existing: set<string>)
    ensures var p, q := Filed(Order(pending, a), probes, day, windowOpen, regressed, existing),
                        Filed(Order(pending, b), probes, day, windowOpen, regressed, existing);
            multiset(p) == multiset(q)
  {
    hide Order;
    hide Filed;
    var p := Filed(Order(pending, a), probes, day, windowOpen, regressed, existing);
    var q := Filed(Order(pending, b), probes, day, windowOpen, regressed, existing);
    OrderIsPermutation(pending, a);
    OrderIsPermutation(pending, b);
    forall id ensures id in p <==> id in q {
      SameIds(Order(pending, a), Order(pending, b), probes, day, windowOpen, regressed, existing, id);
      SameIds(Order(pending, b), Order(pending, a), probes, day, windowOpen, regressed, existing, id);
    }
    FiledExactly(Order(pending, a), probes, day, windowOpen, regressed, existing, "");
    FiledExactly(Order(pending, b), probes, day, windowOpen, regressed, existing, "");
    SameElements(p, q);
  }

  lemma SameIds(a: seq<string>, b: seq<string>, probes: Probes, day: string, windowOpen: bool, regressed: set<string>,
                existing: set<string>, id: string)
    requires forall s :: s in a ==> s in b
    ensures id in Filed(a, probes, day, windowOpen, regressed, existing) ==>
            id in Filed(b, probes, day, windowOpen, regressed, existing)
  {
    hide Filed;
    hide ArcId;
    FiledExactly(a, probes, day, windowOpen, regressed, existing, id);
    FiledExactly(b, probes, day, windowOpen, regressed, existing, id);
    if id in Filed(a, probes, day, windowOpen, regressed, existing) {
      var k :| 0 <= k < |a| && MayFile(a[k], windowOpen, regressed) && id == ArcId(day, a[k], Known(probes, a[k]).era);
      assert a[k] in b;
      var j :| 0 <= j < |b| && b[j] == a[k];
    }
  }

  /** The ids on file stay distinct. */
  lemma FileStaysDistinct(subjects: seq<string>, order: seq<string>, probes: Probes, day: string, windowOpen: bool,
                          regressed: set<string>)
    requires Distinct(subjects)
    ensures Distinct(subjects + Filed(order, probes, day, windowOpen, regressed, Ids(subjects)))
  {
    hide Filed;
    var filed := Filed(order, probes, day, windowOpen, regressed, Ids(subjects));
    FiledExactly(order, probes, day, windowOpen, regressed, Ids(subjects), "");
    forall i, j | 0 <= i < |subjects| && 0 <= j < |filed| ensures subjects[i] != filed[j] {
      FiledExactly(order, probes, day, windowOpen, regressed, Ids(subjects), filed[j]);
      assert filed[j] in filed && subjects[i] in subjects;
    }
  }

  // ---------------------------------------------------------------- all runs

  /** A run probes every slug once. */
  ghost predicate OneResultEach(rs: seq<Result>) {
    forall i, j :: 0 <= i < j < |rs| ==> rs[i].slug != rs[j].slug
  }

  /** What a run observed of a slug, if it probed it. */
  function MetIn(rs: seq<Result>, slug: string): (r: Option<bool>)
    ensures r.Some? ==> exists i :: 0 <= i < |rs| && rs[i] == Result(slug, r.value)
    ensures r == None ==> forall i :: 0 <= i < |rs| ==> rs[i].slug != slug
  {
    if rs == [] then None
    else if rs[|rs| - 1].slug == slug then Some(rs[|rs| - 1].met)
    else MetIn(rs[..|rs| - 1], slug)
  }

  lemma {:induction false} UpdatedObserves(probes: Probes, rs: seq<Result>, retire: nat, slug: string)
    requires OneResultEach(rs)
    ensures Known(Updated(probes, rs, retire), slug) ==
            if MetIn(rs, slug).Some? then Observed(Known(probes, slug), MetIn(rs, slug).value, retire)
                else Known(probes, slug)
  {
    if rs != [] {
      var front, r := rs[..|rs| - 1], rs[|rs| - 1];
      assert forall i :: 0 <= i < |front| ==> front[i] == rs[i];
      UpdatedObserves(probes, front, retire, slug);
    }
  }

  /** A regression is a probe that was met before the run and is unmet in it. */
  lemma {:induction false} RegressedIff(probes: Probes, rs: seq<Result>, retire: nat, slug: string)
    requires OneResultEach(rs)
    ensures slug in Regressed(probes, rs, retire) <==> MetIn(rs, slug) == Some(false) && Known(probes, slug).met
  {
    if rs != [] {
      var front, r := rs[..|rs| - 1], rs[|rs| - 1];
      assert forall i :: 0 <= i < |front| ==> front[i] == rs[i];
      RegressedIff(probes, front, retire, slug);
      UpdatedObserves(probes, front, retire, slug);
      hide Updated;
    }
  }

  lemma {:induction false} PendingIff(rs: seq<Result>, slug: string)
    requires OneResultEach(rs)
    ensures slug in Pending(rs) <==> MetIn(rs, slug) == Some(false)
  {
    if rs != [] {
      var front := rs[..|rs| - 1];
      assert forall i :: 0 <= i < |front| ==> front[i] == rs[i];
      PendingIff(front, slug);
    }
  }

  /** What one run finds wrong with a slug, and may file for now: it is unmet, and either the gap since the last filing
      is over, or it was met before. */
  ghost predicate DueNow(st: Site, w: Wake, slug: string) {
    && MetIn(w.rs, slug) == Some(false)
    && (w.now - st.lastFiled >= w.gap || (slug in st.probes && st.probes[slug].met))
  }

  lemma DueIff(st: Site, w: Wake, retire: nat, slug: string)
    requires OneResultEach(w.rs)
    ensures DueNow(st, w, slug) <==>
            && slug in Pending(w.rs)
            && MayFile(slug, w.now - st.lastFiled >= w.gap, Regressed(st.probes, w.rs, retire))
    ensures DueNow(st, w, slug) ==>
              Known(Updated(st.probes, w.rs, retire), slug).era == Known(st.probes, slug).era
  {
    PendingIff(w.rs, slug);
    RegressedIff(st.probes, w.rs, retire, slug);
    UpdatedObserves(st.probes, w.rs, retire, slug);
  }

  /** Filed in a run that can write are exactly the arcs, not on file yet, of the slugs that are unmet and either meet
      the pacing gap or regressed: a regression is filed at once, whatever the clock. */
  lemma FiledIff(st: Site, w: Wake, retire: nat, id: string)
    requires OneResultEach(w.rs) && w.writeOk
    ensures id in FiledBy(st, w, retire) <==>
            && id !in st.subjects
            && exists slug :: DueNow(st, w, slug) && id == ArcId(w.day, slug, Known(st.probes, slug).era)
  {
    var order, probes := Order(Pending(w.rs), w.scores), Updated(st.probes, w.rs, retire);
    var open, regressed := w.now - st.lastFiled >= w.gap, Regressed(st.probes, w.rs, retire);
    FiledExactly(order, probes, w.day, open, regressed, Ids(st.subjects), id);
    OrderIsPermutation(Pending(w.rs), w.scores);
    hide Order;
    hide Filed;
    hide Updated;
    hide Regressed;
    hide Pending;
    hide ArcId;
    hide MayFile;
    hide DueNow;
    if k :| 0 <= k < |order| && MayFile(order[k], open, regressed)
            && id == ArcId(w.day, order[k], Known(probes, order[k]).era) {
      DueIff(st, w, retire, order[k]);
      assert order[k] in order;
    }
    forall slug | DueNow(st, w, slug) && id == ArcId(w.day, slug, Known(st.probes, slug).era)
      ensures exists k :: 0 <= k < |order| && MayFile(order[k], open, regressed)
                && id == ArcId(w.day, order[k], Known(probes, order[k]).era)
    {
      DueIff(st, w, retire, slug);
      var k :| 0 <= k < |order| && order[k] == slug;
    }
  }

  lemma FirstArcId(day: string, slug: string)
    ensures ArcId(day, slug, 0) == "arc-" + day + "-dashboard-" + slug
  {
  }

  /** A probe that was met and is now unmet is filed at once, well within the gap. */
  lemma RegressionIsFiledAtOnce(slug: string, day: string, scores: Scores)
    ensures "arc-" + day + "-dashboard-" + slug in
            FiledBy(Site(map[slug := Probe(1, 0, true)], 9000, []),
                    Wake([Result(slug, false)], 10000, 3600, day, scores, true, true), 3)
  {
    var st, w := Site(map[slug := Probe(1, 0, true)], 9000, []),
                 Wake([Result(slug, false)], 10000, 3600, day, scores, true, true);
    FirstArcId(day, slug);
    FiledIff(st, w, 3, ArcId(day, slug, 0));
    hide FiledBy;
    hide ArcId;
    assert DueNow(st, w, slug);
  }

  function SiteAt(ws: seq<Wake>, retire: nat, n: nat): Site
    requires n <= |ws|
  {
    if n == 0 then Site(map[], 0, []) else After(SiteAt(ws, retire, n - 1), ws[n - 1], retire)
  }

  lemma SiteStarts(ws: seq<Wake>, retire: nat)
    ensures SiteAt(ws, retire, 0) == Site(map[], 0, []) && Distinct(SiteAt(ws, retire, 0).subjects)
  {
  }

  lemma SiteSteps(ws: seq<Wake>, retire: nat, n: nat)
    requires n < |ws|
    ensures SiteAt(ws, retire, n + 1) == After(SiteAt(ws, retire, n), ws[n], retire)
  {
  }

  lemma NoneFiled(subjects: seq<string>)
    ensures subjects + [] == subjects
  {
  }

  /** What the first `n` runs observed of a slug and could save. */
  function HistoryOf(ws: seq<Wake>, n: nat, slug: string): seq<bool>
    requires n <= |ws|
  {
    if n == 0 then []
    else
      var seen := if ws[n - 1].stateOk then MetIn(ws[n - 1].rs, slug) else None;
      HistoryOf(ws, n - 1, slug) + match seen case Some(met) => [met] case None => []
  }

  lemma {:induction false} ProbeFollowsHistory(ws: seq<Wake>, retire: nat, n: nat, slug: string)
    requires n <= |ws| && forall i :: 0 <= i < |ws| ==> OneResultEach(ws[i].rs)
    ensures Known(SiteAt(ws, retire, n).probes, slug) == ProbeOf(HistoryOf(ws, n, slug), retire)
  {
    hide Updated;
    hide OneResultEach;
    hide FiledBy;
    hide MetIn;
    if n > 0 {
      ProbeFollowsHistory(ws, retire, n - 1, slug);
      UpdatedObserves(SiteAt(ws, retire, n - 1).probes, ws[n - 1].rs, retire, slug);
      var history := HistoryOf(ws, n - 1, slug);
      if ws[n - 1].stateOk && MetIn(ws[n - 1].rs, slug).Some? {
        assert (history + [MetIn(ws[n - 1].rs, slug).value])[..|history|] == history;
      } else {
        assert history + [] == history;
      }
    }
  }

  /** Over all runs with a fixed retire length, by the observations that could be saved: a probe's streak is the length
      of its current met run, and its era the number of its met runs that reached the retire length. */
  lemma RunsCountEras(ws: seq<Wake>, retire: nat, n: nat, slug: string)
    requires n <= |ws| && retire > 0 && forall i :: 0 <= i < |ws| ==> OneResultEach(ws[i].rs)
    ensures var p, history := Known(SiteAt(ws, retire, n).probes, slug), HistoryOf(ws, n, slug);
            CurrentRun(history, p.streak) && p.era == |LongRuns(history, retire)|
  {
    ProbeFollowsHistory(ws, retire, n, slug);
    StreakAndEra(HistoryOf(ws, n, slug), retire);
  }

  /** Over all runs the ids on file stay distinct: an arc is filed once for each day, probe and era. */
  lemma {:induction false} RunsKeepIdsDistinct(ws: seq<Wake>, retire: nat, n: nat)
    requires n <= |ws|
    ensures Distinct(SiteAt(ws, retire, n).subjects)
  {
    SiteStarts(ws, retire);
    hide SiteAt;
    hide Filed;
    hide Updated;
    hide Regressed;
    hide Pending;
    hide Order;
    hide Distinct;
    if n > 0 {
      RunsKeepIdsDistinct(ws, retire, n - 1);
      SiteSteps(ws, retire, n - 1);
      NoneFiled(SiteAt(ws, retire, n - 1).subjects);
      var st, w := SiteAt(ws, retire, n - 1), ws[n - 1];
      FileStaysDistinct(st.subjects, Order(Pending(w.rs), w.scores), Updated(st.probes, w.rs, retire), w.day,
                        w.now - st.lastFiled >= w.gap, Regressed(st.probes, w.rs, retire));
    }
  }

  lemma {:induction false} LastFiledIsRecent(ws: seq<Wake>, retire: nat, i: nat, n: nat)
    requires i < n <= |ws| && forall k :: 0 < k < |ws| ==> ws[k - 1].now <= ws[k].now
    requires ws[i].stateOk && FiledBy(SiteAt(ws, retire, i), ws[i], retire) != []
    ensures ws[i].now <= SiteAt(ws, retire, n).lastFiled <= ws[n - 1].now
    decreases n
  {
    hide FiledBy;
    if n > i + 1 {
      LastFiledIsRecent(ws, retire, i, n - 1);
      assert ws[n - 2].now <= ws[n - 1].now;
    }
  }

  /** With a clock that never goes back, a run that files without a regression comes at least its gap after every
      earlier filing that could be saved. */
  lemma FilingsArePaced(ws: seq<Wake>, retire: nat, i: nat, j: nat)
    requires i < j < |ws| && forall k :: 0 < k < |ws| ==> ws[k - 1].now <= ws[k].now
    requires FiledBy(SiteAt(ws, retire, i), ws[i], retire) != [] && FiledBy(SiteAt(ws, retire, j), ws[j], retire) != []
    requires Regressed(SiteAt(ws, retire, j).probes, ws[j].rs, retire) == {} && ws[i].stateOk
    ensures ws[j].now - ws[i].now >= ws[j].gap
  {
    hide Filed;
    hide SiteAt;
    hide Updated;
    hide Regressed;
    LastFiledIsRecent(ws, retire, i, j);
    var st, w := SiteAt(ws, retire, j), ws[j];
    NothingFiled(Order(Pending(w.rs), w.scores), Updated(st.probes, w.rs, retire), w.day, {}, Ids(st.subjects));
  }

  /** A filing that could not be saved: the next run files again within its gap, the same unmet probe under the id of
      the new day. */
  lemma LostStateFilesAgain(slug: string) returns (ws: seq<Wake>)
    ensures ws == [Wake([Result(slug, false)], 10000, 3600, "1", None, true, false),
                   Wake([Result(slug, false)], 10001, 3600, "2", None, true, true)]
    ensures FiledBy(SiteAt(ws, 3, 0), ws[0], 3) == [ArcId("1", slug, 0)]
    ensures FiledBy(SiteAt(ws, 3, 1), ws[1], 3) == [ArcId("2", slug, 0)]
    ensures Regressed(SiteAt(ws, 3, 1).probes, ws[1].rs, 3) == {}
  {
    ws := [Wake([Result(slug, false)], 10000, 3600, "1", None, true, false),
           Wake([Result(slug, false)], 10001, 3600, "2", None, true, true)];
    SiteStarts(ws, 3);
    SiteSteps(ws, 3, 0);
    hide SiteAt;
    DaysNameArcsApart(slug);
    LoneArc(slug, "1", []);
    LoneArc(slug, "2", [ArcId("1", slug, 0)]);
  }

  lemma DaysNameArcsApart(slug: string)
    ensures ArcId("1", slug, 0) != ArcId("2", slug, 0)
  {
    assert ArcId("1", slug, 0)[4] == '1' && ArcId("2", slug, 0)[4] == '2';
  }

  lemma LoneArc(slug: string, day: string, subjects: seq<string>)
    requires ArcId(day, slug, 0) !in subjects
    ensures var rs := [Result(slug, false)];
            && Regressed(map[], rs, 3) == {} && Pending(rs) == [slug]
            && Filed([slug], Updated(map[], rs, 3), day, true, {}, Ids(subjects)) == [ArcId(day, slug, 0)]
  {
    hide ArcId;
    var rs := [Result(slug, false)];
    assert rs[..0] == [] && [slug][..0] == [];
    assert Updated(map[], rs, 3) == map[slug := NEW];
    assert Filed([], map[slug := NEW], day, true, {}, Ids(subjects)) == [];
  }
}
