/** The operator-item ledgers of automation/dashboard-server.py under concurrent requests.

  Each request reads a ledger, files the report row it owes, appends a handoff line and replaces the
  ledger by its own updated copy. The server is threaded and takes no lock, so every request is a
  handler whose steps interleave freely with those of the others. */
module LedgerProtocol {
  type Id = string
  type Ledger = map<Id, nat>

  datatype Side = DismissedSide | ApprovedSide
  datatype Verb = Dismiss | Park | Expire | Suppress | Acknowledge | Handle | DeskApprove

  function SideOf(v: Verb): Side {
    if v.Acknowledge? || v.Handle? || v.DeskApprove? then ApprovedSide else DismissedSide
  }

  /** A report row or a handoff line: which verb settled which id. */
  datatype Entry = Entry(verb: Verb, id: Id)

  /** A request in flight. `copy` is the handler's own dict, read from the ledger of its side. */
  datatype Handler =
    | Accepted(verb: Verb, id: Id)
    | Read(verb: Verb, id: Id, copy: Ledger)
    | RowSettled(verb: Verb, id: Id, copy: Ledger)
    | Noted(verb: Verb, id: Id, copy: Ledger, ts: nat)
    | Over

  datatype State = State(
    dismissed: Ledger, approved: Ledger, rows: seq<Entry>, handoffs: seq<Entry>, handlers: map<nat, Handler>)

  const INITIAL := State(map[], map[], [], [], map[])

  function LedgerOf(s: State, side: Side): Ledger {
    if side.DismissedSide? then s.dismissed else s.approved
  }

  function WithLedger(s: State, side: Side, l: Ledger): State {
    if side.DismissedSide? then s.(dismissed := l) else s.(approved := l)
  }

  // ---------------------------------------------------------------- which ids are admitted

  const DESK_AUTHZ_ID: Id := "desk-authz-phase-1"

  predicate IdChar(c: char) {
    'A' <= c <= 'Z' || 'a' <= c <= 'z' || '0' <= c <= '9' || c == '.' || c == '_' || c == '-'
  }

  /** _op_body: the id must match SESSION_RE and not start with "__". */
  predicate IdOk(id: Id) {
    1 <= |id| <= 80 && (forall k :: 0 <= k < |id| ==> IdChar(id[k])) && !("__" <= id)
  }

  /** A verb and an id that reach a handler's first ledger read: the desk verb ignores the body. */
  predicate Admitted(v: Verb, id: Id) { if v.DeskApprove? then id == DESK_AUTHZ_ID else IdOk(id) }

  /** _op_body on the note, by its length once stripped: at most 200 characters, and some for a park. */
  predicate NoteOk(v: Verb, note: nat) { v.DeskApprove? || (note <= 200 && (v.Park? ==> note > 0)) }

  // ---------------------------------------------------------------- steps

  /** How filing the owed row went; a refusal may still have added the row (a timeout after the write). */
  datatype Filing = Filed | Refused(added: bool)

  datatype Event =
    | Accept(h: nat, verb: Verb, id: Id)
    | ReadLedger(h: nat, readable: bool)     // an unreadable ledger is read as {}
    | SettleRow(h: nat, filing: Filing)
    | AppendHandoff(h: nat, ts: nat)
    | ReplaceLedger(h: nat)                  // write tmp, then os.replace
    | Die(h: nat)                            // an uncaught exception ends the request

  /** One micro-step; an event that does not apply changes nothing. */
  function Next(s: State, e: Event): State {
    match e
    case Accept(h, v, id) =>
      if h !in s.handlers && Admitted(v, id) then s.(handlers := s.handlers[h := Accepted(v, id)]) else s
    case ReadLedger(h, readable) =>
      if h in s.handlers && s.handlers[h].Accepted? then
        var c := s.handlers[h];
        s.(handlers := s.handlers[h := Read(c.verb, c.id, if readable then LedgerOf(s, SideOf(c.verb)) else map[])])
      else s
    case SettleRow(h, filing) =>
      if h in s.handlers && s.handlers[h].Read? then
        var c := s.handlers[h];
        if c.id in c.copy then s.(handlers := s.handlers[h := RowSettled(c.verb, c.id, c.copy)])
        else if filing.Filed? then
          s.(rows := s.rows + [Entry(c.verb, c.id)], handlers := s.handlers[h := RowSettled(c.verb, c.id, c.copy)])
        else
          s.(rows := s.rows + (if filing.added then [Entry(c.verb, c.id)] else []), handlers := s.handlers[h := Over])
      else s
    case AppendHandoff(h, ts) =>
      if h in s.handlers && s.handlers[h].RowSettled? then
        var c := s.handlers[h];
        s.(handoffs := s.handoffs + [Entry(c.verb, c.id)], handlers := s.handlers[h := Noted(c.verb, c.id, c.copy, ts)])
      else s
    case ReplaceLedger(h) =>
      if h in s.handlers && s.handlers[h].Noted? then
        var c := s.handlers[h];
        WithLedger(s, SideOf(c.verb), c.copy[c.id := c.ts]).(handlers := s.handlers[h := Over])
      else s
    case Die(h) =>
      if h in s.handlers then s.(handlers := s.handlers[h := Over]) else s
  }

  function Run(s: State, es: seq<Event>): State {
    if es == [] then s else Next(Run(s, es[..|es| - 1]), es[|es| - 1])
  }

  /** A step moves no handler but its own. */
  lemma OthersUnmoved(s: State, e: Event, h: nat)
    requires h != e.h
    ensures h in Next(s, e).handlers <==> h in s.handlers
    ensures h in s.handlers ==> Next(s, e).handlers[h] == s.handlers[h]
  {
  }

  // ---------------------------------------------------------------- row before ledger

  predicate Has(entries: seq<Entry>, side: Side, id: Id) {
    entries != [] &&
    ((entries[|entries| - 1].id == id && SideOf(entries[|entries| - 1].verb) == side)
     || Has(entries[..|entries| - 1], side, id))
  }

  /** A row or handoff line of that side's verbs. */
  lemma {:induction false} HasIff(entries: seq<Entry>, side: Side, id: Id)
    ensures Has(entries, side, id) <==>
            exists i :: 0 <= i < |entries| && entries[i].id == id
              && (entries[i].verb in {Dismiss, Park, Expire, Suppress} <==> side == DismissedSide)
  {
    if entries != [] {
      var front := entries[..|entries| - 1];
      HasIff(front, side, id);
      assert forall i :: 0 <= i < |front| ==> front[i] == entries[i];
    }
  }

  /** Every id of `l` has a filed row and a handoff line of that side. */
  ghost predicate Covered(s: State, side: Side, l: Ledger) {
    forall id :: id in l ==> Has(s.rows, side, id) && Has(s.handoffs, side, id)
  }

  ghost predicate HandlerOk(s: State, c: Handler) {
    match c
    case Accepted(v, id) => Admitted(v, id)
    case Read(v, id, copy) => Admitted(v, id) && Covered(s, SideOf(v), copy)
    case RowSettled(v, id, copy) =>
      Admitted(v, id) && Covered(s, SideOf(v), copy) && Has(s.rows, SideOf(v), id)
    case Noted(v, id, copy, ts) =>
      Admitted(v, id) && Covered(s, SideOf(v), copy) && Has(s.rows, SideOf(v), id) && Has(s.handoffs, SideOf(v), id)
    case Over => true
  }

  ghost predicate RowFirst(s: State) {
    && Covered(s, DismissedSide, s.dismissed)
    && Covered(s, ApprovedSide, s.approved)
    && forall h :: h in s.handlers ==> HandlerOk(s, s.handlers[h])
  }

  lemma {:induction false} HasGrows(a: seq<Entry>, b: seq<Entry>, side: Side, id: Id)
    requires Has(a, side, id) && a <= b
    ensures Has(b, side, id)
    decreases |b|
  {
    if |a| < |b| {
      HasGrows(a, b[..|b| - 1], side, id);
    } else {
      assert a == b;
    }
  }

  lemma HasLast(a: seq<Entry>, e: Entry)
    ensures Has(a + [e], SideOf(e.verb), e.id)
  {
  }

  /** Rows and handoffs are append-only. */
  predicate Extends(s: State, t: State) { s.rows <= t.rows && s.handoffs <= t.handoffs }

  lemma CoveredGrows(s: State, t: State, side: Side, l: Ledger)
    requires Covered(s, side, l) && Extends(s, t)
    ensures Covered(t, side, l)
  {
    forall id | id in l ensures Has(t.rows, side, id) && Has(t.handoffs, side, id) {
      HasGrows(s.rows, t.rows, side, id);
      HasGrows(s.handoffs, t.handoffs, side, id);
    }
  }

  lemma HandlerGrows(s: State, t: State, c: Handler)
    requires HandlerOk(s, c) && Extends(s, t)
    ensures HandlerOk(t, c)
  {
    if c.Read? || c.RowSettled? || c.Noted? {
      CoveredGrows(s, t, SideOf(c.verb), c.copy);
      if c.RowSettled? || c.Noted? {
        HasGrows(s.rows, t.rows, SideOf(c.verb), c.id);
      }
      if c.Noted? {
        HasGrows(s.handoffs, t.handoffs, SideOf(c.verb), c.id);
      }
    }
  }

  /** The handler a step moves ends up in order. */
  lemma MovedHandlerOk(s: State, e: Event)
    requires RowFirst(s) && e.h in Next(s, e).handlers
    ensures HandlerOk(Next(s, e), Next(s, e).handlers[e.h])
  {
    var t := Next(s, e);
    if e.h in s.handlers {
      var c := s.handlers[e.h];
      HandlerGrows(s, t, c);
      if e.ReadLedger? && c.Accepted? {
        CoveredGrows(s, t, SideOf(c.verb), LedgerOf(s, SideOf(c.verb)));
      } else if e.SettleRow? && c.Read? {
        HasLast(s.rows, Entry(c.verb, c.id));
      } else if e.AppendHandoff? && c.RowSettled? {
        HasLast(s.handoffs, Entry(c.verb, c.id));
      }
    }
  }

  lemma LedgersStayCovered(s: State, e: Event)
    requires RowFirst(s)
    ensures Covered(Next(s, e), DismissedSide, Next(s, e).dismissed)
    ensures Covered(Next(s, e), ApprovedSide, Next(s, e).approved)
  {
    var t := Next(s, e);
    CoveredGrows(s, t, DismissedSide, s.dismissed);
    CoveredGrows(s, t, ApprovedSide, s.approved);
    if e.ReplaceLedger? && e.h in s.handlers && s.handlers[e.h].Noted? {
      var c := s.handlers[e.h];
      HandlerGrows(s, t, c);
      assert Covered(t, SideOf(c.verb), c.copy[c.id := c.ts]);
    }
  }

  lemma StepExtends(s: State, e: Event)
    ensures Extends(s, Next(s, e))
  {
  }

  lemma StepKeeps(s: State, e: Event)
    requires RowFirst(s)
    ensures RowFirst(Next(s, e)) && Extends(s, Next(s, e))
  {
    var t := Next(s, e);
    StepExtends(s, e);
    LedgersStayCovered(s, e);
    hide Next;
    forall h | h in t.handlers ensures HandlerOk(t, t.handlers[h]) {
      if h == e.h {
        MovedHandlerOk(s, e);
      } else {
        OthersUnmoved(s, e, h);
        HandlerGrows(s, t, s.handlers[h]);
      }
    }
  }

  /** Under every interleaving, with filing and reading failing at will, every ledger entry has its row. */
  lemma {:induction false} RunKeeps(s: State, es: seq<Event>)
    requires RowFirst(s)
    ensures RowFirst(Run(s, es)) && Extends(s, Run(s, es))
    decreases |es|
  {
    if es != [] {
      RunKeeps(s, es[..|es| - 1]);
      StepKeeps(Run(s, es[..|es| - 1]), es[|es| - 1]);
    }
  }

  /** Every id that was ever in a ledger during a run had its row by then, and keeps it and its handoff line. */
  lemma RowBeforeLedger(es: seq<Event>, n: nat, side: Side, id: Id)
    requires n <= |es| && id in LedgerOf(Run(INITIAL, es[..n]), side)
    ensures Has(Run(INITIAL, es[..n]).rows, side, id)
    ensures Has(Run(INITIAL, es).rows, side, id) && Has(Run(INITIAL, es).handoffs, side, id)
  {
    var mid := Run(INITIAL, es[..n]);
    RunKeeps(INITIAL, es[..n]);
    RunSplit(INITIAL, es[..n], es[n..]);
    assert es == es[..n] + es[n..];
    RunKeeps(mid, es[n..]);
    CoveredGrows(mid, Run(INITIAL, es), side, LedgerOf(mid, side));
  }

  /** Some row of `rows` is for `id`, with one of the verbs. */
  ghost predicate RowWith(rows: seq<Entry>, verbs: set<Verb>, id: Id) {
    exists i :: 0 <= i < |rows| && rows[i].id == id && rows[i].verb in verbs
  }

  /** An id in the dismissed ledger at any moment has by then a row of a dismissing verb, one in the approved ledger a
      row of an approving verb. */
  lemma RowOfItsVerbs(es: seq<Event>, id: Id)
    ensures var s := Run(INITIAL, es);
            && (id in s.dismissed ==> RowWith(s.rows, {Dismiss, Park, Expire, Suppress}, id))
            && (id in s.approved ==> RowWith(s.rows, {Acknowledge, Handle, DeskApprove}, id))
  {
    RunKeeps(INITIAL, es);
    var s := Run(INITIAL, es);
    HasIff(s.rows, DismissedSide, id);
    HasIff(s.rows, ApprovedSide, id);
    hide Run;
    hide Has;
    if id in s.approved {
      var i :| 0 <= i < |s.rows| && s.rows[i].id == id && s.rows[i].verb !in {Dismiss, Park, Expire, Suppress};
      var v := s.rows[i].verb;
      assert v.Acknowledge? || v.Handle? || v.DeskApprove?;
    }
  }

  lemma {:induction false} RunSplit(s: State, a: seq<Event>, b: seq<Event>)
    ensures Run(s, a + b) == Run(Run(s, a), b)
    decreases |b|
  {
    if b == [] {
      assert a + b == a;
    } else {
      assert (a + b)[..|a + b| - 1] == a + b[..|b| - 1];
      RunSplit(s, a, b[..|b| - 1]);
    }
  }

  // ---------------------------------------------------------------- which ids reach the ledgers

  predicate KeyOk(id: Id) { IdOk(id) || id == DESK_AUTHZ_ID }

  ghost predicate KeysOk(l: Ledger) { forall id :: id in l ==> KeyOk(id) }

  ghost predicate HandlerAdmitted(c: Handler) {
    !c.Over? ==> KeyOk(c.id) && (!c.Accepted? ==> KeysOk(c.copy))
  }

  ghost predicate OnlyAdmitted(s: State) {
    KeysOk(s.dismissed) && KeysOk(s.approved) && forall h :: h in s.handlers ==> HandlerAdmitted(s.handlers[h])
  }

  lemma LedgersAdmitted(s: State, e: Event)
    requires OnlyAdmitted(s)
    ensures KeysOk(Next(s, e).dismissed) && KeysOk(Next(s, e).approved)
  {
    hide KeyOk;
  }

  lemma MovedHandlerAdmitted(s: State, e: Event)
    requires OnlyAdmitted(s) && e.h in Next(s, e).handlers
    ensures HandlerAdmitted(Next(s, e).handlers[e.h])
  {
    hide IdOk;
  }

  lemma StepAdmits(s: State, e: Event)
    requires OnlyAdmitted(s)
    ensures OnlyAdmitted(Next(s, e))
  {
    LedgersAdmitted(s, e);
    var t := Next(s, e);
    hide Next;
    hide HandlerAdmitted;
    forall h | h in t.handlers ensures HandlerAdmitted(t.handlers[h]) {
      if h == e.h {
        MovedHandlerAdmitted(s, e);
      } else {
        OthersUnmoved(s, e, h);
      }
    }
  }

  lemma {:induction false} RunAdmits(es: seq<Event>)
    ensures OnlyAdmitted(Run(INITIAL, es))
  {
    if es != [] {
      RunAdmits(es[..|es| - 1]);
      StepAdmits(Run(INITIAL, es[..|es| - 1]), es[|es| - 1]);
    }
  }

  lemma KeyIsPlain(id: Id)
    requires KeyOk(id)
    ensures |id| < 2 || id[0] != '_' || id[1] != '_'
  {
    assert DESK_AUTHZ_ID[0] == 'd';
    assert |id| >= 2 ==> id[..2] == [id[0], id[1]];
  }

  /** No id with a leading "__" ever reaches a ledger. */
  lemma NoDunderId(es: seq<Event>, side: Side, id: Id)
    requires id in LedgerOf(Run(INITIAL, es), side)
    ensures |id| < 2 || id[0] != '_' || id[1] != '_'
  {
    RunAdmits(es);
    KeyIsPlain(id);
  }

  // ---------------------------------------------------------------- which requests write which ledger

  ghost predicate Posted(es: seq<Event>, verbs: set<Verb>, id: Id) {
    exists i :: 0 <= i < |es| && es[i].Accept? && es[i].verb in verbs && es[i].id == id
  }

  lemma PostedSnoc(es: seq<Event>, verbs: set<Verb>, id: Id)
    requires es != [] && (Posted(es[..|es| - 1], verbs, id)
                          || (es[|es| - 1].Accept? && es[|es| - 1].verb in verbs && es[|es| - 1].id == id))
    ensures Posted(es, verbs, id)
  {
    var front := es[..|es| - 1];
    if Posted(front, verbs, id) {
      var i :| 0 <= i < |front| && front[i].Accept? && front[i].verb in verbs && front[i].id == id;
      assert es[i] == front[i];
    }
  }

  const DISMISSING: set<Verb> := {Dismiss, Park, Expire, Suppress}
  const APPROVING: set<Verb> := {Acknowledge, Handle, DeskApprove}

  function Peers(v: Verb): set<Verb> { if v in DISMISSING then DISMISSING else APPROVING }

  ghost predicate AllPosted(l: Ledger, es: seq<Event>, verbs: set<Verb>) {
    forall id :: id in l ==> Posted(es, verbs, id)
  }

  ghost predicate HandlerFromPosts(c: Handler, es: seq<Event>) {
    !c.Over? ==>
      && Posted(es, Peers(c.verb), c.id) && (!c.Accepted? ==> AllPosted(c.copy, es, Peers(c.verb)))
  }

  /** Each ledger holds, and each handler of its verbs has in hand, only ids posted with one of those verbs. */
  ghost predicate FromPosts(s: State, es: seq<Event>) {
    && AllPosted(s.dismissed, es, DISMISSING) && AllPosted(s.approved, es, APPROVING)
    && forall h :: h in s.handlers ==> HandlerFromPosts(s.handlers[h], es)
  }

  lemma FromPostsGrows(s: State, es: seq<Event>)
    requires es != [] && FromPosts(s, es[..|es| - 1])
    ensures FromPosts(s, es)
  {
    forall verbs, id | Posted(es[..|es| - 1], verbs, id) ensures Posted(es, verbs, id) {
      PostedSnoc(es, verbs, id);
    }
  }

  lemma LedgersFromPosts(s: State, e: Event, es: seq<Event>)
    requires FromPosts(s, es)
    ensures AllPosted(Next(s, e).dismissed, es, DISMISSING) && AllPosted(Next(s, e).approved, es, APPROVING)
  {
    hide Posted;
    if e.ReplaceLedger? && e.h in s.handlers && s.handlers[e.h].Noted? {
      var c := s.handlers[e.h];
      assert HandlerFromPosts(c, es);
    }
  }

  lemma MovedFromPosts(s: State, e: Event, es: seq<Event>)
    requires FromPosts(s, es) && e.h in Next(s, e).handlers
    requires e.Accept? ==> Posted(es, Peers(e.verb), e.id)
    ensures HandlerFromPosts(Next(s, e).handlers[e.h], es)
  {
    hide Posted;
    if e.h in s.handlers {
      assert HandlerFromPosts(s.handlers[e.h], es);
    }
  }

  lemma StepFromPosts(s: State, es: seq<Event>)
    requires es != [] && FromPosts(s, es[..|es| - 1])
    ensures FromPosts(Next(s, es[|es| - 1]), es)
  {
    var e := es[|es| - 1];
    var t := Next(s, e);
    FromPostsGrows(s, es);
    LedgersFromPosts(s, e, es);
    if e.Accept? {
      PostedSnoc(es, Peers(e.verb), e.id);
    }
    hide Next;
    hide Posted;
    hide HandlerFromPosts;
    forall h | h in t.handlers ensures HandlerFromPosts(t.handlers[h], es) {
      if h == e.h {
        MovedFromPosts(s, e, es);
      } else {
        OthersUnmoved(s, e, h);
      }
    }
  }

  lemma {:induction false} RunFromPosts(es: seq<Event>)
    ensures FromPosts(Run(INITIAL, es), es)
  {
    if es != [] {
      RunFromPosts(es[..|es| - 1]);
      StepFromPosts(Run(INITIAL, es[..|es| - 1]), es);
    }
  }

  /** Under every interleaving: what is in the dismissed ledger was posted with dismiss, park, expire or suppress, what
      is in the approved one with acknowledge, handle or the desk's approval. */
  lemma EntriesArePosted(es: seq<Event>, id: Id)
    ensures id in Run(INITIAL, es).dismissed ==> Posted(es, {Dismiss, Park, Expire, Suppress}, id)
    ensures id in Run(INITIAL, es).approved ==> Posted(es, {Acknowledge, Handle, DeskApprove}, id)
  {
    RunFromPosts(es);
  }

  // ---------------------------------------------------------------- requests that do not overlap

  /** Between reading a ledger and replacing it. */
  predicate Busy(c: Handler) { c.Read? || c.RowSettled? || c.Noted? }

  /** At most one handler of each side is between its read and its replace. */
  ghost predicate NoOverlap(s: State) {
    forall h, k ::
      (&& h in s.handlers && k in s.handlers && Busy(s.handlers[h]) && Busy(s.handlers[k])
       && SideOf(s.handlers[h].verb) == SideOf(s.handlers[k].verb)) ==> h == k
  }

  /** A ledger that is read can be read. */
  predicate Readable(e: Event) { e.ReadLedger? ==> e.readable }

  /** Requests of one side do not overlap and ledgers can be read; filings and deaths come as they may. */
  ghost predicate OrderlyRun(es: seq<Event>) {
    NoOverlap(Run(INITIAL, es)) && (es != [] ==> OrderlyRun(es[..|es| - 1]) && Readable(es[|es| - 1]))
  }

  /** Each busy handler's copy is the current ledger. */
  ghost predicate CopiesCurrent(s: State) {
    forall h :: h in s.handlers && Busy(s.handlers[h]) ==>
      s.handlers[h].copy == LedgerOf(s, SideOf(s.handlers[h].verb))
  }

  /** A ledger changes only where a handler of its side replaces it. */
  lemma LedgerUnmoved(s: State, e: Event, side: Side)
    ensures LedgerOf(Next(s, e), side) == LedgerOf(s, side)
            || (&& e.ReplaceLedger? && e.h in s.handlers && s.handlers[e.h].Noted?
                && SideOf(s.handlers[e.h].verb) == side)
  {
  }

  /** A busy handler's step leaves its copy as it was, and a read copies the ledger. */
  lemma MovedCopyCurrent(s: State, e: Event)
    requires CopiesCurrent(s) && Readable(e) && e.h in Next(s, e).handlers && Busy(Next(s, e).handlers[e.h])
    ensures var c := Next(s, e).handlers[e.h]; c.copy == LedgerOf(Next(s, e), SideOf(c.verb))
  {
  }

  lemma CopiesStay(s: State, e: Event)
    requires CopiesCurrent(s) && NoOverlap(s) && Readable(e)
    ensures CopiesCurrent(Next(s, e))
  {
    var t := Next(s, e);
    hide Next;
    forall h | h in t.handlers && Busy(t.handlers[h])
      ensures t.handlers[h].copy == LedgerOf(t, SideOf(t.handlers[h].verb))
    {
      if h == e.h {
        MovedCopyCurrent(s, e);
      } else {
        OthersUnmoved(s, e, h);
        LedgerUnmoved(s, e, SideOf(s.handlers[h].verb));
      }
    }
  }

  lemma LedgersGrow(s: State, e: Event)
    requires CopiesCurrent(s)
    ensures LedgerOf(s, DismissedSide).Keys <= LedgerOf(Next(s, e), DismissedSide).Keys
    ensures LedgerOf(s, ApprovedSide).Keys <= LedgerOf(Next(s, e), ApprovedSide).Keys
  {
  }

  lemma {:induction false} OrderlyRunIsCurrent(es: seq<Event>)
    requires OrderlyRun(es)
    ensures CopiesCurrent(Run(INITIAL, es)) && NoOverlap(Run(INITIAL, es))
  {
    if es != [] {
      OrderlyRunIsCurrent(es[..|es| - 1]);
      CopiesStay(Run(INITIAL, es[..|es| - 1]), es[|es| - 1]);
    }
  }

  /** When requests of one side do not overlap and ledgers can be read, the ledgers only grow, whatever filings do
      and wherever requests die. */
  lemma {:induction false} OrderlyLedgersGrow(es: seq<Event>, n: nat, side: Side)
    requires OrderlyRun(es) && n <= |es|
    ensures LedgerOf(Run(INITIAL, es[..n]), side).Keys <= LedgerOf(Run(INITIAL, es), side).Keys
  {
    if n == |es| {
      assert es[..n] == es;
    } else {
      var front := es[..|es| - 1];
      OrderlyLedgersGrow(front, n, side);
      OrderlyRunIsCurrent(front);
      LedgersGrow(Run(INITIAL, front), es[|es| - 1]);
      assert front[..n] == es[..n];
    }
  }

  // ---------------------------------------------------------------- how many rows are filed

  function Count(rows: seq<Entry>, side: Side, id: Id): nat {
    if rows == [] then 0
    else
      Count(rows[..|rows| - 1], side, id)
      + (if rows[|rows| - 1].id == id && SideOf(rows[|rows| - 1].verb) == side then 1 else 0)
  }

  predicate Owes(c: Handler, side: Side, id: Id) {
    (c.RowSettled? || c.Noted?) && SideOf(c.verb) == side && c.id == id
  }

  /** `id` is in the ledger, or its handler has the row and has yet to replace the ledger. */
  ghost predicate Due(s: State, side: Side, id: Id) {
    id in LedgerOf(s, side) || exists h :: h in s.handlers && Owes(s.handlers[h], side, id)
  }

  /** An event that leaves a row of `id` without an entry to come: a refused filing that added its row all the
      same, or a death with the row filed and the ledger not yet replaced. */
  predicate Spills(s: State, e: Event, side: Side, id: Id) {
    && e.h in s.handlers
    && var c := s.handlers[e.h];
       match e
       case SettleRow(_, filing) => c.Read? && SideOf(c.verb) == side && c.id == id && id !in c.copy
                                    && filing == Refused(true)
       case Die(_) => Owes(c, side, id) && id !in LedgerOf(s, side)
       case _ => false
  }

  /** How many events of a run spill a row of `id`. */
  function Spilt(es: seq<Event>, side: Side, id: Id): nat {
    if es == [] then 0
    else
      Spilt(es[..|es| - 1], side, id)
      + if Spills(Run(INITIAL, es[..|es| - 1]), es[|es| - 1], side, id) then 1 else 0
  }

  /** A step that neither settles a row, replaces a ledger nor ends a request changes no debt. */
  lemma DueUnmoved(s: State, e: Event, side: Side, id: Id)
    requires e.Accept? || e.ReadLedger? || e.AppendHandoff?
    ensures Due(Next(s, e), side, id) <==> Due(s, side, id)
    ensures Next(s, e).rows == s.rows
  {
    var t := Next(s, e);
    assert LedgerOf(t, side) == LedgerOf(s, side);
    if h :| h in s.handlers && Owes(s.handlers[h], side, id) {
      assert h in t.handlers && Owes(t.handlers[h], side, id);
    }
    if h :| h in t.handlers && Owes(t.handlers[h], side, id) {
      assert h in s.handlers && Owes(s.handlers[h], side, id);
    }
  }

  /** Replacing a ledger turns the handler's debt into an entry and loses none: its copy was current. */
  lemma DueReplaced(s: State, e: Event, side: Side, id: Id)
    requires CopiesCurrent(s) && e.ReplaceLedger?
    ensures Due(Next(s, e), side, id) <==> Due(s, side, id)
    ensures Next(s, e).rows == s.rows
  {
    var t := Next(s, e);
    if e.h in s.handlers && s.handlers[e.h].Noted? {
      assert Owes(s.handlers[e.h], SideOf(s.handlers[e.h].verb), s.handlers[e.h].id);
    }
    if h :| h in s.handlers && Owes(s.handlers[h], side, id) {
      assert h != e.h ==> h in t.handlers && Owes(t.handlers[h], side, id);
    }
    if h :| h in t.handlers && Owes(t.handlers[h], side, id) {
      assert h in s.handlers && Owes(s.handlers[h], side, id);
    }
  }

  /** A row is filed exactly when its id becomes due, or spills. */
  lemma DueSettled(s: State, e: Event, side: Side, id: Id)
    requires CopiesCurrent(s) && NoOverlap(s)
    requires e.SettleRow? && e.h in s.handlers && s.handlers[e.h].Read?
    ensures var c, t := s.handlers[e.h], Next(s, e);
            if SideOf(c.verb) == side && c.id == id && id !in c.copy && e.filing.Filed?
            then !Due(s, side, id) && Due(t, side, id) && t.rows == s.rows + [Entry(c.verb, c.id)]
            else (Due(t, side, id) <==> Due(s, side, id))
  {
    var c, t := s.handlers[e.h], Next(s, e);
    assert LedgerOf(t, side) == LedgerOf(s, side);
    if h :| h in s.handlers && Owes(s.handlers[h], side, id) {
      assert h != e.h && h in t.handlers && Owes(t.handlers[h], side, id);
      assert Busy(s.handlers[h]);
    }
    if h :| h in t.handlers && Owes(t.handlers[h], side, id) {
      assert h != e.h ==> h in s.handlers && Owes(s.handlers[h], side, id);
    }
    if SideOf(c.verb) == side && c.id == id && (id in c.copy || e.filing.Filed?) {
      assert Owes(t.handlers[e.h], side, id);
    }
  }

  /** A death gives up the request's own debt, which spills its row, and no other. */
  lemma DueDied(s: State, e: Event, side: Side, id: Id)
    requires NoOverlap(s) && e.Die?
    ensures Next(s, e).rows == s.rows
    ensures if Spills(s, e, side, id) then Due(s, side, id) && !Due(Next(s, e), side, id)
            else (Due(Next(s, e), side, id) <==> Due(s, side, id))
  {
    var t := Next(s, e);
    assert LedgerOf(t, side) == LedgerOf(s, side);
    if h :| h in s.handlers && Owes(s.handlers[h], side, id) {
      assert h != e.h ==> h in t.handlers && Owes(t.handlers[h], side, id);
    }
    if h :| h in t.handlers && Owes(t.handlers[h], side, id) {
      assert h != e.h && h in s.handlers && Owes(s.handlers[h], side, id);
      assert Busy(s.handlers[h]);
    }
  }

  function One(b: bool): nat { if b then 1 else 0 }

  lemma CountSnoc(rows: seq<Entry>, e: Entry, side: Side, id: Id)
    ensures Count(rows + [e], side, id) == Count(rows, side, id) + One(e.id == id && SideOf(e.verb) == side)
  {
    assert (rows + [e])[..|rows|] == rows;
  }

  lemma SettleCounts(s: State, e: Event, side: Side, id: Id)
    requires CopiesCurrent(s) && NoOverlap(s) && e.SettleRow?
    ensures Count(Next(s, e).rows, side, id) + One(Due(s, side, id)) ==
            Count(s.rows, side, id) + One(Due(Next(s, e), side, id)) + One(Spills(s, e, side, id))
  {
    hide Due;
    hide CopiesCurrent;
    hide NoOverlap;
    hide Count;
    if e.h in s.handlers && s.handlers[e.h].Read? {
      var c := s.handlers[e.h];
      DueSettled(s, e, side, id);
      CountSnoc(s.rows, Entry(c.verb, c.id), side, id);
      assert s.rows + [] == s.rows;
    }
  }

  /** Every step keeps the count of rows at what is due and what has spilt. */
  lemma RowsStep(s: State, e: Event, side: Side, id: Id)
    requires CopiesCurrent(s) && NoOverlap(s)
    ensures Count(Next(s, e).rows, side, id) + One(Due(s, side, id)) ==
            Count(s.rows, side, id) + One(Due(Next(s, e), side, id)) + One(Spills(s, e, side, id))
  {
    hide Next;
    hide Due;
    hide CopiesCurrent;
    hide NoOverlap;
    hide Count;
    if e.ReplaceLedger? {
      DueReplaced(s, e, side, id);
    } else if e.Die? {
      DueDied(s, e, side, id);
    } else if e.SettleRow? {
      SettleCounts(s, e, side, id);
    } else {
      DueUnmoved(s, e, side, id);
    }
  }

  /** When requests of a side do not overlap and ledgers can be read, the rows of an id are exactly the one due,
      if it is, and one more for each that spilt. */
  lemma {:induction false} ExactRows(es: seq<Event>, side: Side, id: Id)
    requires OrderlyRun(es)
    ensures Count(Run(INITIAL, es).rows, side, id) == One(Due(Run(INITIAL, es), side, id)) + Spilt(es, side, id)
  {
    if es != [] {
      var front := es[..|es| - 1];
      ExactRows(front, side, id);
      OrderlyRunIsCurrent(front);
      RowsStep(Run(INITIAL, front), es[|es| - 1], side, id);
    }
  }

  /** In such runs an id in a ledger has exactly one row if and only if none of its rows spilt, however often it
      was posted; with no request under way, an id in no ledger has none on the same condition. */
  lemma OneRowIff(es: seq<Event>, side: Side, id: Id)
    requires OrderlyRun(es)
    ensures var s := Run(INITIAL, es);
            id in LedgerOf(s, side) ==> (Count(s.rows, side, id) == 1 <==> Spilt(es, side, id) == 0)
    ensures var s := Run(INITIAL, es);
            (forall h :: h in s.handlers ==> !Busy(s.handlers[h])) && id !in LedgerOf(s, side) ==>
            (Count(s.rows, side, id) == 0 <==> Spilt(es, side, id) == 0)
  {
    ExactRows(es, side, id);
  }

  // ---------------------------------------------------------------- one request on its own

  /** The steps of one request when nothing comes between them. */
  function Request(h: nat, v: Verb, id: Id, readable: bool, filing: Filing, ts: nat): seq<Event> {
    [Accept(h, v, id), ReadLedger(h, readable), SettleRow(h, filing), AppendHandoff(h, ts), ReplaceLedger(h)]
  }

  /** A run is its sequence of states. */
  lemma {:induction false} RunOf(es: seq<Event>, ss: seq<State>)
    requires |ss| == |es| + 1 && forall k :: 0 <= k < |es| ==> Next(ss[k], es[k]) == ss[k + 1]
    ensures Run(ss[0], es) == ss[|es|]
  {
    if es != [] {
      var n := |es| - 1;
      RunOf(es[..n], ss[..n + 1]);
    }
  }

  lemma RunSnoc(s: State, es: seq<Event>, e: Event)
    ensures Run(s, es + [e]) == Next(Run(s, es), e)
  {
    assert (es + [e])[..|es|] == es;
  }

  /** What an uninterrupted request leaves behind. */
  function Served(s: State, h: nat, v: Verb, id: Id, readable: bool, filing: Filing, ts: nat): State {
    if !Admitted(v, id) then s
    else
      var copy := if readable then LedgerOf(s, SideOf(v)) else map[];
      if id !in copy && filing.Refused? then
        s.(rows := s.rows + (if filing.added then [Entry(v, id)] else []), handlers := s.handlers[h := Over])
      else
        WithLedger(
          s.(rows := s.rows + (if id in copy then [] else [Entry(v, id)]), handoffs := s.handoffs + [Entry(v, id)],
          handlers := s.handlers[h := Over]), SideOf(v), copy[id := ts])
  }

  function With(s: State, h: nat, c: Handler): State { s.(handlers := s.handlers[h := c]) }

  lemma ReadStep(s: State, h: nat, v: Verb, id: Id, readable: bool)
    ensures Next(With(s, h, Accepted(v, id)), ReadLedger(h, readable)) ==
            With(s, h, Read(v, id, if readable then LedgerOf(s, SideOf(v)) else map[]))
  {
    assert s.handlers[h := Accepted(v, id)][h := Read(v, id, if readable then LedgerOf(s, SideOf(v)) else map[])] ==
           s.handlers[h := Read(v, id, if readable then LedgerOf(s, SideOf(v)) else map[])];
  }

  lemma RowStep(s: State, h: nat, v: Verb, id: Id, copy: Ledger, filing: Filing)
    ensures Next(With(s, h, Read(v, id, copy)), SettleRow(h, filing)) ==
            if id in copy then With(s, h, RowSettled(v, id, copy))
            else if filing.Filed? then With(s.(rows := s.rows + [Entry(v, id)]), h, RowSettled(v, id, copy))
            else With(s.(rows := s.rows + (if filing.added then [Entry(v, id)] else [])), h, Over)
  {
    assert s.handlers[h := Read(v, id, copy)][h := RowSettled(v, id, copy)] == s.handlers[h := RowSettled(v, id, copy)];
    assert s.handlers[h := Read(v, id, copy)][h := Over] == s.handlers[h := Over];
  }

  lemma NoteStep(s: State, h: nat, v: Verb, id: Id, copy: Ledger, ts: nat)
    ensures Next(With(s, h, RowSettled(v, id, copy)), AppendHandoff(h, ts)) ==
            With(s.(handoffs := s.handoffs + [Entry(v, id)]), h, Noted(v, id, copy, ts))
  {
    assert s.handlers[h := RowSettled(v, id, copy)][h := Noted(v, id, copy, ts)] ==
           s.handlers[h := Noted(v, id, copy, ts)];
  }

  lemma ReplaceStep(s: State, h: nat, v: Verb, id: Id, copy: Ledger, ts: nat)
    ensures Next(With(s, h, Noted(v, id, copy, ts)), ReplaceLedger(h)) ==
            With(WithLedger(s, SideOf(v), copy[id := ts]), h, Over)
  {
    assert s.handlers[h := Noted(v, id, copy, ts)][h := Over] == s.handlers[h := Over];
  }

  lemma RefusedAtOnce(s: State, h: nat, v: Verb, id: Id, readable: bool, filing: Filing, ts: nat)
    requires h !in s.handlers && !Admitted(v, id)
    ensures Run(s, Request(h, v, id, readable, filing, ts)) == s
  {
    hide Run;
    RunOf(Request(h, v, id, readable, filing, ts), [s, s, s, s, s, s]);
  }

  lemma ServedToTheEnd(s: State, h: nat, v: Verb, id: Id, readable: bool, filing: Filing, ts: nat, copy: Ledger)
    requires h !in s.handlers && Admitted(v, id) && (id in copy || filing.Filed?)
    requires copy == if readable then LedgerOf(s, SideOf(v)) else map[]
    ensures Run(s, Request(h, v, id, readable, filing, ts)) == Served(s, h, v, id, readable, filing, ts)
  {
    hide Run;
    ReadStep(s, h, v, id, readable);
    RowStep(s, h, v, id, copy, filing);
    var rows := s.rows + (if id in copy then [] else [Entry(v, id)]);
    assert id in copy ==> rows == s.rows;
    NoteStep(s.(rows := rows), h, v, id, copy, ts);
    ReplaceStep(s.(rows := rows, handoffs := s.handoffs + [Entry(v, id)]), h, v, id, copy, ts);
    RunOf(Request(h, v, id, readable, filing, ts),
          [s, With(s, h, Accepted(v, id)), With(s, h, Read(v, id, copy)),
              With(s.(rows := rows), h, RowSettled(v, id, copy)),
           With(s.(rows := rows, handoffs := s.handoffs + [Entry(v, id)]), h, Noted(v, id, copy, ts)),
           Served(s, h, v, id, readable, filing, ts)]);
  }

  lemma ServedToARefusal(s: State, h: nat, v: Verb, id: Id, readable: bool, filing: Filing, ts: nat, copy: Ledger)
    requires h !in s.handlers && Admitted(v, id) && id !in copy && filing.Refused?
    requires copy == if readable then LedgerOf(s, SideOf(v)) else map[]
    ensures Run(s, Request(h, v, id, readable, filing, ts)) == Served(s, h, v, id, readable, filing, ts)
  {
    hide Run;
    ReadStep(s, h, v, id, readable);
    RowStep(s, h, v, id, copy, filing);
    var s3 := Served(s, h, v, id, readable, filing, ts);
    RunOf(Request(h, v, id, readable, filing, ts),
          [s, With(s, h, Accepted(v, id)), With(s, h, Read(v, id, copy)), s3, s3, s3]);
  }

  lemma ServedIsRun(s: State, h: nat, v: Verb, id: Id, readable: bool, filing: Filing, ts: nat)
    requires h !in s.handlers
    ensures Run(s, Request(h, v, id, readable, filing, ts)) == Served(s, h, v, id, readable, filing, ts)
  {
    hide Run;
    if !Admitted(v, id) {
      RefusedAtOnce(s, h, v, id, readable, filing, ts);
    } else {
      var copy := if readable then LedgerOf(s, SideOf(v)) else map[];
      if id in copy || filing.Filed? {
        ServedToTheEnd(s, h, v, id, readable, filing, ts, copy);
      } else {
        ServedToARefusal(s, h, v, id, readable, filing, ts, copy);
      }
    }
  }

  /** A request is turned away for an id that is empty, longer than 80, of other characters than letters, digits, dots,
      underscores and hyphens or with two leading underscores, for a note longer than 200, and for a park without one;
      the desk's approval has an id of its own. */
  lemma TurnedAwayIff(v: Verb, id: Id, note: nat)
    ensures v != DeskApprove ==>
              (!(Admitted(v, id) && NoteOk(v, note)) <==>
               || |id| < 1 || |id| > 80 || (|id| >= 2 && id[0] == '_' && id[1] == '_')
               || (exists c <- id :: !('A' <= c <= 'Z' || 'a' <= c <= 'z' || '0' <= c <= '9' || c in "._-"))
               || note > 200 || (v == Park && note == 0))
    ensures Admitted(DeskApprove, id) <==> id == "desk-authz-phase-1"
    ensures NoteOk(DeskApprove, note)
  {
    assert |id| >= 2 ==> id[..2] == [id[0], id[1]];
    if c :| c in id && !IdChar(c) {
      assert exists k :: 0 <= k < |id| && id[k] == c;
    }
    assert forall k :: 0 <= k < |id| ==> id[k] in id;
  }

  /** The ledgers, rows and handoffs as the files hold them, and the verbs as the server runs them. */
  class Server {
    var dismissed: Ledger
    var approved: Ledger
    var rows: seq<Entry>
    var handoffs: seq<Entry>

    constructor ()
      ensures Files() == INITIAL
    {
      dismissed, approved, rows, handoffs := map[], map[], [], [];
    }

    /** The files, with no request in flight. */
    function Files(): State
      reads this
    {
      State(dismissed, approved, rows, handoffs, map[])
    }

    /** _report_row / _rq_row: a refusal may have added the row all the same. */
    method ReportRow(v: Verb, id: Id, filing: Filing) returns (ok: bool)
      modifies `rows
      ensures ok == filing.Filed?
      ensures rows == old(rows) + (if filing.Filed? || filing.added then [Entry(v, id)] else [])
    {
      if filing.Filed? || filing.added {
        rows := rows + [Entry(v, id)];
      }
      return filing.Filed?;
    }

    /** _dismiss, _handle, _op_settle and _desk_approve: the ledger, key and row state differ by verb only. */
    method Settle(v: Verb, id: Id, note: nat, readable: bool, filing: Filing, ts: nat) returns (status: nat)
      modifies this
      ensures Files() == if NoteOk(v, note)
                         then Run(old(Files()), Request(0, v, id, readable, filing, ts)).(handlers := map[])
                         else old(Files())
      ensures status == (if !Admitted(v, id) || !NoteOk(v, note) then 400
                         else if filing.Refused? && (!readable || id !in LedgerOf(old(Files()), SideOf(v))) then 500
                         else 201)
      ensures v in {Dismiss, Park, Expire, Suppress} ==>
                approved == old(approved) && (status == 201 ==> id in dismissed && dismissed[id] == ts)
      ensures v in {Acknowledge, Handle, DeskApprove} ==>
                dismissed == old(dismissed) && (status == 201 ==> id in approved && approved[id] == ts)
      ensures status == 201 ==>
                var known := readable && id in if v in {Dismiss, Park, Expire, Suppress} then old(dismissed)
                             else old(approved);
                rows == old(rows) + (if known then [] else [Entry(v, id)]) && handoffs == old(handoffs) + [Entry(v, id)]
      ensures status != 201 ==> dismissed == old(dismissed) && approved == old(approved) && handoffs == old(handoffs)
    {
      ServedIsRun(Files(), 0, v, id, readable, filing, ts);
      hide IdOk;
      hide Run;
      if !Admitted(v, id) || !NoteOk(v, note) {
        return 400;
      }
      var copy := if !readable then map[] else if SideOf(v).DismissedSide? then dismissed else approved;
      if id !in copy {
        var ok := ReportRow(v, id, filing);
        if !ok {
          return 500;
        }
      }
      handoffs := handoffs + [Entry(v, id)];
      copy := copy[id := ts];
      if SideOf(v).DismissedSide? {
        dismissed := copy;
      } else {
        approved := copy;
      }
      return 201;
    }
  }

  // ---------------------------------------------------------------- unreadable ledgers

  /** A request served alone keeps every entry of its ledger if and only if it could read the ledger, was turned
      away, had its filing refused, or found no entry but its own. */
  lemma ServedKeepsEntriesIff(s: State, h: nat, v: Verb, id: Id, readable: bool, filing: Filing, ts: nat)
    ensures LedgerOf(s, SideOf(v)).Keys <= LedgerOf(Served(s, h, v, id, readable, filing, ts), SideOf(v)).Keys <==>
            readable || !Admitted(v, id) || filing.Refused? || LedgerOf(s, SideOf(v)).Keys <= {id}
  {
  }

  /** Every handler but `h` is done. */
  ghost predicate OthersOver(s: State, h: nat) { forall k :: k in s.handlers && k != h ==> s.handlers[k].Over? }

  lemma {:induction false} AloneNeverOverlaps(s: State, h: nat, es: seq<Event>)
    requires OthersOver(s, h) && forall e :: e in es ==> e.h == h
    ensures OthersOver(Run(s, es), h) && NoOverlap(Run(s, es))
  {
    if es != [] {
      var front, e := es[..|es| - 1], es[|es| - 1];
      AloneNeverOverlaps(s, h, front);
      var before, after := Run(s, front), Run(s, es);
      assert after == Next(before, e);
      hide Next;
      hide Run;
      forall k | k in after.handlers && k != h ensures after.handlers[k].Over? {
        OthersUnmoved(before, e, k);
      }
    }
  }

  /** Two requests, the second of which begins when the first is over, never overlap. */
  lemma InTurnNeverOverlap(first: seq<Event>, h: nat, second: seq<Event>, k: nat)
    requires (forall e :: e in first ==> e.h == h) && forall e :: e in second ==> e.h == k
    requires OthersOver(Run(INITIAL, first), k)
    ensures forall n :: 0 <= n <= |first + second| ==> NoOverlap(Run(INITIAL, (first + second)[..n]))
  {
    hide Run;
    forall n | 0 <= n <= |first + second| ensures NoOverlap(Run(INITIAL, (first + second)[..n])) {
      if n <= |first| {
        assert (first + second)[..n] == first[..n];
        AloneNeverOverlaps(INITIAL, h, first[..n]);
      } else {
        assert (first + second)[..n] == first + second[..n - |first|];
        RunSplit(INITIAL, first, second[..n - |first|]);
        AloneNeverOverlaps(Run(INITIAL, first), k, second[..n - |first|]);
      }
    }
  }

  /** Without any overlap, one unreadable ledger is enough: a dismissal of `b` that reads it as empty wipes the
      entry of `a`. */
  lemma UnreadableLedgerLosesEntries(a: Id, b: Id) returns (es: seq<Event>)
    requires IdOk(a) && IdOk(b) && a != b
    ensures es == Request(0, Dismiss, a, true, Filed, 0) + Request(1, Dismiss, b, false, Filed, 0)
    ensures a in Run(INITIAL, es[..5]).dismissed && a !in Run(INITIAL, es).dismissed
    ensures forall n :: 0 <= n <= |es| ==> NoOverlap(Run(INITIAL, es[..n]))
  {
    hide Run;
    hide IdOk;
    hide NoOverlap;
    var first, second := Request(0, Dismiss, a, true, Filed, 0), Request(1, Dismiss, b, false, Filed, 0);
    es := first + second;
    ServedIsRun(INITIAL, 0, Dismiss, a, true, Filed, 0);
    var s := Run(INITIAL, first);
    ServedIsRun(s, 1, Dismiss, b, false, Filed, 0);
    RunSplit(INITIAL, first, second);
    assert es[..5] == first;
    InTurnNeverOverlap(first, 0, second, 1);
  }

  /** A dismissal that dies as soon as its row is filed. */
  function Death(a: Id): seq<Event> { [Accept(0, Dismiss, a), ReadLedger(0, true), SettleRow(0, Filed), Die(0)] }

  lemma DeathLeavesRow(a: Id)
    requires IdOk(a)
    ensures Run(INITIAL, Death(a)) == With(INITIAL.(rows := [Entry(Dismiss, a)]), 0, Over)
  {
    hide Run;
    hide IdOk;
    hide NoOverlap;
    hide IdOk;
    var row := [Entry(Dismiss, a)];
    ReadStep(INITIAL, 0, Dismiss, a, true);
    RowStep(INITIAL, 0, Dismiss, a, map[], Filed);
    assert INITIAL.rows + row == row;
    RunOf(Death(a), [INITIAL, With(INITIAL, 0, Accepted(Dismiss, a)), With(INITIAL, 0, Read(Dismiss, a, map[])),
                     With(INITIAL.(rows := row), 0, RowSettled(Dismiss, a, map[])),
                     With(INITIAL.(rows := row), 0, Over)]);
  }

  lemma TwoRows(e: Entry)
    ensures Count([e] + [e], SideOf(e.verb), e.id) == 2
  {
    assert [e][..0] == [];
    assert Count([e], SideOf(e.verb), e.id) == 1;
    assert ([e] + [e])[..1] == [e];
  }

  /** A request that dies with its row filed, and the same dismissal posted again: two rows for one entry, with no
      overlap. */
  lemma DeathFilesTwice(a: Id) returns (es: seq<Event>)
    requires IdOk(a)
    ensures es == Death(a) + Request(1, Dismiss, a, true, Filed, 0)
    ensures a in Run(INITIAL, es).dismissed && Count(Run(INITIAL, es).rows, DismissedSide, a) == 2
    ensures forall n :: 0 <= n <= |es| ==> NoOverlap(Run(INITIAL, es[..n]))
  {
    hide Run;
    hide IdOk;
    hide NoOverlap;
    hide NoOverlap;
    hide Count;
    hide IdOk;
    hide NoOverlap;
    var second := Request(1, Dismiss, a, true, Filed, 0);
    es := Death(a) + second;
    DeathLeavesRow(a);
    var s := Run(INITIAL, Death(a));
    ServedIsRun(s, 1, Dismiss, a, true, Filed, 0);
    TwoRows(Entry(Dismiss, a));
    assert Served(s, 1, Dismiss, a, true, Filed, 0).rows == [Entry(Dismiss, a)] + [Entry(Dismiss, a)];
    RunSplit(INITIAL, Death(a), second);
    InTurnNeverOverlap(Death(a), 0, second, 1);
  }

  // ---------------------------------------------------------------- lost updates

  /** Two dismissals, of `a` by handler 0 and of `b` by handler 1, that both read before either replaces. */
  lemma RaceReads(a: Id, b: Id) returns (es: seq<Event>)
    requires IdOk(a) && IdOk(b)
    ensures Run(INITIAL, es) == With(With(INITIAL, 1, Read(Dismiss, b, map[])), 0, Read(Dismiss, a, map[]))
  {
    es := [Accept(1, Dismiss, b), ReadLedger(1, true), Accept(0, Dismiss, a), ReadLedger(0, true)];
    var both := With(INITIAL, 1, Read(Dismiss, b, map[]));
    ReadStep(INITIAL, 1, Dismiss, b, true);
    ReadStep(both, 0, Dismiss, a, true);
    RunSnoc(INITIAL, [], es[0]);
    RunSnoc(INITIAL, es[..1], es[1]);
    RunSnoc(INITIAL, es[..2], es[2]);
    RunSnoc(INITIAL, es[..3], es[3]);
    assert es[..1] == [] + [es[0]] && es[..2] == es[..1] + [es[1]] && es[..3] == es[..2] + [es[2]]
           && es == es[..3] + [es[3]];
  }

  /** The rest of a request that has read an empty ledger. */
  lemma RaceFinishes(s: State, h: nat, id: Id, before: seq<Event>, s0: State) returns (es: seq<Event>)
    requires Run(s0, before) == With(s, h, Read(Dismiss, id, map[]))
    ensures before <= es
    ensures Run(s0, es) == With(State(map[id := 0], s.approved, s.rows + [Entry(Dismiss, id)],
                                      s.handoffs + [Entry(Dismiss, id)], s.handlers), h, Over)
  {
    RowStep(s, h, Dismiss, id, map[], Filed);
    NoteStep(s.(rows := s.rows + [Entry(Dismiss, id)]), h, Dismiss, id, map[], 0);
    ReplaceStep(s.(rows := s.rows + [Entry(Dismiss, id)], handoffs := s.handoffs + [Entry(Dismiss, id)]), h,
        Dismiss, id, map[], 0);
    var one, two := before + [SettleRow(h, Filed)], before + [SettleRow(h, Filed)] + [AppendHandoff(h, 0)];
    RunSnoc(s0, before, SettleRow(h, Filed));
    RunSnoc(s0, one, AppendHandoff(h, 0));
    RunSnoc(s0, two, ReplaceLedger(h));
    es := two + [ReplaceLedger(h)];
  }

  lemma CountThree(x: Entry, y: Entry, side: Side, id: Id)
    requires x.id == id && SideOf(x.verb) == side && y.id != id
    ensures Count([x, y, x], side, id) == 2
  {
    assert [x, y, x][..2] == [x, y] && [x, y][..1] == [x] && [x][..0] == [];
    assert Count([x], side, id) == 1;
    assert Count([x, y], side, id) == 1;
  }

  /** Growth and one-row-per-id both need requests that do not overlap: some interleaving of two dismissals
      loses the entry of the first, and the next post of it then files its row a second time. */
  lemma RacesLoseEntries(a: Id, b: Id) returns (won: seq<Event>, lost: seq<Event>, again: seq<Event>)
    requires IdOk(a) && IdOk(b) && a != b
    ensures won <= lost <= again
    ensures a in Run(INITIAL, won).dismissed && a !in Run(INITIAL, lost).dismissed
    ensures Count(Run(INITIAL, again).rows, DismissedSide, a) == 2
  {
    var begun := RaceReads(a, b);
    var base := With(INITIAL, 1, Read(Dismiss, b, map[]));
    won := RaceFinishes(base, 0, a, begun, INITIAL);
    var rest := State(map[a := 0], map[], [Entry(Dismiss, a)], [Entry(Dismiss, a)], map[0 := Over]);
    assert INITIAL.rows + [Entry(Dismiss, a)] == [Entry(Dismiss, a)];
    assert Run(INITIAL, won) == With(rest, 1, Read(Dismiss, b, map[]));
    lost := RaceFinishes(rest, 1, b, won, INITIAL);
    var end := Run(INITIAL, lost);
    var request := Request(2, Dismiss, a, true, Filed, 0);
    again := lost + request;
    RunSplit(INITIAL, lost, request);
    ServedIsRun(end, 2, Dismiss, a, true, Filed, 0);
    CountThree(Entry(Dismiss, a), Entry(Dismiss, b), DismissedSide, a);
    assert Served(end, 2, Dismiss, a, true, Filed, 0).rows == [Entry(Dismiss, a), Entry(Dismiss, b), Entry(Dismiss, a)];
  }
}
