/** Reading session files and choosing which sessions to draw: _read_sessions and the first half of
  _emit_sessions in automation/jobs/graph-data.py. */
module SessionClosure {
  import opened Options
  import opened Sequences

  /** A parsed session record. `parent` is None unless parent_id is a string; `recent` says that
      last_active_at lies within 24 hours; `inRepo` that working_dir resolves inside the repository. */
  datatype Session = Session(id: string, parent: Option<string>, recent: bool, inRepo: bool)

  /** A session_*.json file: its stem, and its record when it parses to an object with a string id. */
  datatype File = File(stem: string, record: Option<Session>)

  datatype Shadow = Shadow(stem: string, id: string)
  datatype Reading = Reading(raw: map<string, Session>, malformed: seq<string>, shadowed: seq<Shadow>)

  // ---------------------------------------------------------------- _read_sessions

  predicate Named(f: File) { f.record.Some? && f.record.value.id != "" }

  /** The stem under which a later file with a loaded id is drawn. */
  function ShadowStem(f: File): string
    requires Named(f)
  {
    if f.stem != f.record.value.id then f.stem else f.stem + "#dup"
  }

  function ReadOne(r: Reading, f: File): Reading {
    if !Named(f) then r.(malformed := r.malformed + [f.stem])
    else if f.record.value.id in r.raw then
      r.(shadowed := r.shadowed + [Shadow(ShadowStem(f), f.record.value.id)])
    else r.(raw := r.raw[f.record.value.id := f.record.value])
  }

  function ReadingOf(files: seq<File>): Reading {
    if files == [] then Reading(map[], [], [])
    else ReadOne(ReadingOf(files[..|files| - 1]), files[|files| - 1])
  }

  /** _read_sessions */
  method ReadSessions(files: seq<File>) returns (r: Reading)
    ensures r == ReadingOf(files)
  {
    r := Reading(map[], [], []);
    for i := 0 to |files|
      invariant r == ReadingOf(files[..i])
    {
      var f := files[i];
      assert files[..i + 1][..i] == files[..i];
      if !Named(f) {
        r := r.(malformed := r.malformed + [f.stem]);
        continue;
      }
      var sid := f.record.value.id;
      if sid in r.raw {
        if f.stem != sid {
          r := r.(shadowed := r.shadowed + [Shadow(f.stem, sid)]);
        } else {
          r := r.(shadowed := r.shadowed + [Shadow(f.stem + "#dup", sid)]);
        }
        continue;
      }
      r := r.(raw := r.raw[sid := f.record.value]);
    }
    assert files[..|files|] == files;
  }

  predicate HasId(f: File, id: string) { Named(f) && f.record.value.id == id }

  /** Some file before index `n` carries the id. */
  predicate Earlier(files: seq<File>, n: nat, id: string)
    requires n <= |files|
  {
    exists j :: 0 <= j < n && HasId(files[j], id)
  }

  /** What becomes of one file: it holds its id, it shadows the holder, or it is malformed. */
  datatype Fate = Holder | ShadowFile | MalformedFile

  function FateOf(files: seq<File>, i: nat): Fate
    requires i < |files|
  {
    if !Named(files[i]) then MalformedFile
    else if Earlier(files, i, files[i].record.value.id) then ShadowFile
    else Holder
  }

  /** How many of the first `n` files have the given fate. */
  function CountFate(files: seq<File>, n: nat, fate: Fate): nat
    requires n <= |files|
  {
    if n == 0 then 0 else CountFate(files, n - 1, fate) + if FateOf(files, n - 1) == fate then 1 else 0
  }

  /** Where the record of file `i` is kept: under its id, or at its own place in one of the two lists. */
  predicate Placed(files: seq<File>, r: Reading, i: nat)
    requires i < |files|
  {
    var f, k := files[i], CountFate(files, i, FateOf(files, i));
    match FateOf(files, i)
    case Holder => f.record.value.id in r.raw && r.raw[f.record.value.id] == f.record.value
    case ShadowFile => k < |r.shadowed| && r.shadowed[k] == Shadow(ShadowStem(f), f.record.value.id)
    case MalformedFile => k < |r.malformed| && r.malformed[k] == f.stem
  }

  /** A file without a record, or with an empty id, is malformed; a shadow is drawn under its stem, marked as a
      duplicate when that is the very id. */
  lemma FateIff(files: seq<File>, i: nat)
    requires i < |files|
    ensures FateOf(files, i) == MalformedFile <==> files[i].record == None || files[i].record.value.id == ""
    ensures FateOf(files, i) == ShadowFile <==>
            && files[i].record.Some? && files[i].record.value.id != ""
            && exists j :: 0 <= j < i && files[j].record.Some? && files[j].record.value.id == files[i].record.value.id
    ensures FateOf(files, i) == ShadowFile ==>
              ShadowStem(files[i]) ==
              if files[i].stem == files[i].record.value.id then files[i].stem + "#dup" else files[i].stem
  {
    if Named(files[i]) {
      var id := files[i].record.value.id;
      assert forall j :: 0 <= j < i && files[j].record.Some? && files[j].record.value.id == id ==> HasId(files[j], id);
    }
  }

  lemma OneMoreRead(files: seq<File>, r: Reading, n: nat)
    requires n < |files| && (forall id :: id in r.raw <==> Earlier(files, n, id))
    ensures var t, fate := ReadOne(r, files[n]), FateOf(files, n);
            && |t.malformed| == |r.malformed| + (if fate == MalformedFile then 1 else 0)
            && |t.shadowed| == |r.shadowed| + (if fate == ShadowFile then 1 else 0)
            && |t.raw| == |r.raw| + (if fate == Holder then 1 else 0)
    ensures forall id :: id in ReadOne(r, files[n]).raw <==> id in r.raw || HasId(files[n], id)
  {
    hide Earlier;
    hide ShadowStem;
  }

  lemma CountStep(files: seq<File>, n: nat)
    requires n < |files|
    ensures forall fate :: CountFate(files, n + 1, fate) ==
                           CountFate(files, n, fate) + if FateOf(files, n) == fate then 1 else 0
  {
  }

  lemma {:induction false} PrefixReading(files: seq<File>, n: nat)
    requires n <= |files|
    ensures var r := ReadingOf(files[..n]);
            && |r.malformed| == CountFate(files, n, MalformedFile) && |r.shadowed| == CountFate(files, n, ShadowFile)
            && |r.raw| == CountFate(files, n, Holder)
    ensures forall id :: id in ReadingOf(files[..n]).raw <==> Earlier(files, n, id)
  {
    if n > 0 {
      PrefixReading(files, n - 1);
      assert files[..n][..n - 1] == files[..n - 1];
      var before, after, f := ReadingOf(files[..n - 1]), ReadingOf(files[..n]), files[n - 1];
      assert after == ReadOne(before, f);
      hide ReadingOf;
      OneMoreRead(files, before, n - 1);
      CountStep(files, n - 1);
      hide ReadOne;
      hide FateOf;
      hide CountFate;
      forall id ensures id in after.raw <==> Earlier(files, n, id) {
        EarlierStep(files, n - 1, id);
      }
    }
  }

  lemma EarlierStep(files: seq<File>, n: nat, id: string)
    requires n < |files|
    ensures Earlier(files, n + 1, id) <==> Earlier(files, n, id) || HasId(files[n], id)
  {
  }

  lemma StaysPlaced(files: seq<File>, r: Reading, f: File, i: nat)
    requires i < |files| && Placed(files, r, i)
    ensures Placed(files, ReadOne(r, f), i)
  {
    hide CountFate;
    hide FateOf;
    hide ShadowStem;
  }

  lemma NewlyPlaced(files: seq<File>, r: Reading, n: nat)
    requires n < |files| && (forall id :: id in r.raw <==> Earlier(files, n, id))
    requires |r.malformed| == CountFate(files, n, MalformedFile) && |r.shadowed| == CountFate(files, n, ShadowFile)
    ensures Placed(files, ReadOne(r, files[n]), n)
  {
    hide CountFate;
    hide Earlier;
    hide ShadowStem;
  }

  lemma {:induction false} PrefixPlaced(files: seq<File>, n: nat, i: nat)
    requires i < n <= |files|
    ensures Placed(files, ReadingOf(files[..n]), i)
    decreases n
  {
    var before := ReadingOf(files[..n - 1]);
    assert files[..n][..n - 1] == files[..n - 1];
    assert ReadingOf(files[..n]) == ReadOne(before, files[n - 1]);
    PrefixReading(files, n - 1);
    hide ReadingOf;
    hide ReadOne;
    hide Placed;
    hide Earlier;
    hide CountFate;
    if i < n - 1 {
      PrefixPlaced(files, n - 1, i);
      StaysPlaced(files, before, files[n - 1], i);
    } else {
      NewlyPlaced(files, before, n - 1);
    }
  }

  /** Every session file ends up in exactly one place, its own: the holders' records under their ids, the others in
      reading order, and nothing else is kept. */
  lemma EveryFileOnce(files: seq<File>)
    ensures var r := ReadingOf(files);
            && (forall i :: 0 <= i < |files| ==> Placed(files, r, i))
            && |r.raw| == CountFate(files, |files|, Holder) && |r.shadowed| == CountFate(files, |files|, ShadowFile)
            && |r.malformed| == CountFate(files, |files|, MalformedFile)
    ensures |ReadingOf(files).raw| + |ReadingOf(files).malformed| + |ReadingOf(files).shadowed| == |files|
  {
    assert files[..|files|] == files;
    PrefixReading(files, |files|);
    forall i | 0 <= i < |files| ensures Placed(files, ReadingOf(files), i) {
      PrefixPlaced(files, |files|, i);
    }
    FatesAddUp(files, |files|);
  }

  lemma {:induction false} FatesAddUp(files: seq<File>, n: nat)
    requires n <= |files|
    ensures CountFate(files, n, Holder) + CountFate(files, n, ShadowFile) + CountFate(files, n, MalformedFile) == n
  {
    if n > 0 {
      FatesAddUp(files, n - 1);
    }
  }

  /** Two files of the same fate have different places in its list. */
  lemma {:induction false} PlacesDiffer(files: seq<File>, i: nat, j: nat, fate: Fate)
    requires i < j <= |files| && FateOf(files, i) == fate
    ensures CountFate(files, i, fate) < CountFate(files, j, fate)
    decreases j
  {
    if i + 1 < j {
      PlacesDiffer(files, i, j - 1, fate);
    }
  }

  /** A loaded id belongs to the first file, in reading order, that carries it. */
  lemma {:induction false} FirstFileWins(files: seq<File>, id: string)
    ensures id in ReadingOf(files).raw <==> exists f :: f in files && HasId(f, id)
    ensures id in ReadingOf(files).raw ==>
              exists i ::
                && 0 <= i < |files| && HasId(files[i], id)
                && ReadingOf(files).raw[id] == files[i].record.value
                && forall j :: 0 <= j < i ==> !HasId(files[j], id)
  {
    if files != [] {
      var n := |files| - 1;
      var front := files[..n];
      FirstFileWins(front, id);
      assert forall f :: f in files <==> f in front || f == files[n];
      if id in ReadingOf(front).raw {
        var i :| 0 <= i < |front| && HasId(front[i], id) && ReadingOf(front).raw[id] == front[i].record.value
                 && forall j :: 0 <= j < i ==> !HasId(front[j], id);
        assert files[i] == front[i] && forall j :: 0 <= j < i ==> files[j] == front[j];
      } else if HasId(files[n], id) {
        forall j | 0 <= j < n ensures !HasId(files[j], id) {
          assert front[j] == files[j];
        }
      }
    }
  }

  // ---------------------------------------------------------------- the default filter

  /** Closed under parent and child links inside the loaded sessions. */
  ghost predicate LinkClosed(raw: map<string, Session>, s: set<string>) {
    forall a, b :: a in raw && b in raw && raw[b].parent == Some(a) ==> (a in s <==> b in s)
  }

  ghost predicate Holds(raw: map<string, Session>, s: set<string>) {
    LinkClosed(raw, s) && forall a :: a in raw && raw[a].recent ==> a in s
  }

  /** children: for each parent id its children, each listed once. */
  method Children(raw: map<string, Session>) returns (children: map<string, seq<string>>)
    ensures forall p, c :: p in children && c in children[p] ==> c in raw && raw[c].parent == Some(p)
    ensures forall c :: c in raw && raw[c].parent.Some? ==>
              raw[c].parent.value in children && c in children[raw[c].parent.value]
    ensures forall p :: p in children ==> Distinct(children[p])
  {
    children := map[];
    var todo := raw.Keys;
    while todo != {}
      invariant todo <= raw.Keys
      invariant forall p, c :: p in children && c in children[p] ==> c in raw && raw[c].parent == Some(p)
      invariant forall c :: c in raw && c !in todo && raw[c].parent.Some? ==>
                  raw[c].parent.value in children && c in children[raw[c].parent.value]
      invariant forall p, c :: p in children && c in children[p] ==> c !in todo
      invariant forall p :: p in children ==> Distinct(children[p])
      decreases todo
    {
      var c :| c in todo;
      todo := todo - {c};
      if raw[c].parent.Some? {
        var p := raw[c].parent.value;
        var siblings := if p in children then children[p] else [];
        children := children[p := siblings + [c]];
      }
    }
  }

  /** Every link of `sid` stays inside `s`. */
  ghost predicate Settled(raw: map<string, Session>, s: set<string>, sid: string)
    requires sid in raw
  {
    && (raw[sid].parent.Some? && raw[sid].parent.value in raw ==> raw[sid].parent.value in s)
    && (forall c :: c in raw && raw[c].parent == Some(sid) ==> c in s)
  }

  /** The default scale filter: exactly the least set of loaded sessions that contains the recent ones and
      is closed under parent and child links. */
  method EmittedByDefault(raw: map<string, Session>) returns (emitted: set<string>)
    ensures emitted <= raw.Keys && Holds(raw, emitted)
    ensures forall s :: Holds(raw, s) ==> emitted <= s
  {
    emitted := set sid | sid in raw && raw[sid].recent;
    var children := Children(raw);
    var queue := Listing(emitted);
    while queue != []
      invariant emitted <= raw.Keys && forall a :: a in raw && raw[a].recent ==> a in emitted
      invariant forall q :: q in queue ==> q in emitted
      invariant forall a :: a in emitted && a !in queue ==> Settled(raw, emitted, a)
      invariant forall s :: Holds(raw, s) ==> emitted <= s
      decreases raw.Keys - emitted, |queue|
    {
      var sid := queue[|queue| - 1];
      ghost var was, emitted0 := queue, emitted;
      queue := queue[..|queue| - 1];
      assert forall a :: a in was ==> a in queue || a == sid;
      emitted, queue := AddLinks(raw, children, emitted, queue, sid);
    }
  }

  /** One turn of the worklist: the unseen parent and children of `sid` join the emitted set and the queue. */
  method AddLinks(raw: map<string, Session>, children: map<string, seq<string>>, before: set<string>,
                  queue0: seq<string>, sid: string)
    returns (emitted: set<string>, queue: seq<string>)
    requires sid in before && before <= raw.Keys
    requires forall p, c :: p in children && c in children[p] ==> c in raw && raw[c].parent == Some(p)
    requires forall c :: c in raw && raw[c].parent.Some? ==>
               raw[c].parent.value in children && c in children[raw[c].parent.value]
    ensures before <= emitted <= raw.Keys && Settled(raw, emitted, sid)
    ensures emitted == before + (set c | c in raw && raw[c].parent == Some(sid))
                       + set p | p in raw && raw[sid].parent == Some(p)
    ensures queue0 <= queue && forall q :: q in queue ==> q in queue0 || q in emitted
    ensures forall a :: a in emitted && a !in before ==> a in queue
    ensures emitted == before ==> queue == queue0
    ensures forall s :: Holds(raw, s) && before <= s ==> emitted <= s
  {
    emitted, queue := before, queue0;
    var pid := raw[sid].parent;
    if pid.Some? && pid.value in raw && pid.value !in emitted {
      emitted, queue := emitted + {pid.value}, queue + [pid.value];
    }
    var cids := if sid in children then children[sid] else [];
    for i := 0 to |cids|
      invariant before <= emitted <= raw.Keys
      invariant pid.Some? && pid.value in raw ==> pid.value in emitted
      invariant forall k :: 0 <= k < i ==> cids[k] in emitted
      invariant forall a :: a in emitted && a !in before ==> raw[a].parent == Some(sid) || raw[sid].parent == Some(a)
      invariant queue0 <= queue && forall q :: q in queue ==> q in queue0 || q in emitted
      invariant forall a :: a in emitted && a !in before ==> a in queue
      invariant emitted == before ==> queue == queue0
      invariant forall s :: Holds(raw, s) && before <= s ==> emitted <= s
    {
      if cids[i] !in emitted {
        assert raw[cids[i]].parent == Some(sid);
        emitted, queue := emitted + {cids[i]}, queue + [cids[i]];
      }
    }
  }

  /** `path` leads along parent and child links from its first session to a recent one. */
  ghost predicate ToRecent(raw: map<string, Session>, path: seq<string>) {
    && path != [] && (forall k :: 0 <= k < |path| ==> path[k] in raw) && raw[path[|path| - 1]].recent
    && forall k :: 0 < k < |path| ==>
         raw[path[k]].parent == Some(path[k - 1]) || raw[path[k - 1]].parent == Some(path[k])
  }

  lemma {:induction false} PathStays(raw: map<string, Session>, emitted: set<string>, path: seq<string>)
    requires Holds(raw, emitted) && ToRecent(raw, path)
    ensures path[0] in emitted
    decreases |path|
  {
    if |path| > 1 {
      PathStays(raw, emitted, path[1..]);
    }
  }

  lemma LinkedPaths(raw: map<string, Session>, a: string, b: string, path: seq<string>)
    requires a in raw && (raw[a].parent == Some(b) || (b in raw && raw[b].parent == Some(a)))
    requires ToRecent(raw, path) && path[0] == b
    ensures ToRecent(raw, [a] + path) && ([a] + path)[0] == a
  {
    forall k | 0 < k < |path| + 1
      ensures raw[([a] + path)[k]].parent == Some(([a] + path)[k - 1])
              || raw[([a] + path)[k - 1]].parent == Some(([a] + path)[k])
    {
      assert ([a] + path)[k] == path[k - 1] && (k > 1 ==> ([a] + path)[k - 1] == path[k - 2]);
    }
  }

  /** The sessions with a path to a recent one. */
  lemma PathsHold(raw: map<string, Session>, s: set<string>)
    requires forall a :: a in s <==> a in raw && exists path :: ToRecent(raw, path) && path[0] == a
    ensures Holds(raw, s)
  {
    forall a | a in raw && raw[a].recent ensures a in s {
      assert ToRecent(raw, [a]) && [a][0] == a;
    }
    forall a, b | a in raw && b in raw && raw[b].parent == Some(a) ensures a in s <==> b in s {
      if a in s {
        var path :| ToRecent(raw, path) && path[0] == a;
        LinkedPaths(raw, b, a, path);
      }
      if b in s {
        var path :| ToRecent(raw, path) && path[0] == b;
        LinkedPaths(raw, a, b, path);
      }
    }
  }

  /** What the default filter emits: exactly the loaded sessions from which parent and child links lead to a session
      active within the last 24 hours. */
  lemma EmittedIff(raw: map<string, Session>, emitted: set<string>, sid: string)
    requires emitted <= raw.Keys && Holds(raw, emitted) && forall s :: Holds(raw, s) ==> emitted <= s
    ensures sid in emitted <==> exists path :: ToRecent(raw, path) && path[0] == sid
  {
    var connected := set a | a in raw && exists path :: ToRecent(raw, path) && path[0] == a;
    PathsHold(raw, connected);
    hide Holds;
    forall path: seq<string> | ToRecent(raw, path) ensures path[0] in emitted {
      PathStays(raw, emitted, path);
    }
  }

  /** Every recent session is emitted, a parent and its child only together, and a session that is not recent and has
      neither parent nor child among the loaded ones is not. */
  lemma EmittedMeans(raw: map<string, Session>, emitted: set<string>, a: string)
    requires emitted <= raw.Keys && Holds(raw, emitted) && forall s :: Holds(raw, s) ==> emitted <= s
    requires a in raw
    ensures raw[a].recent ==> a in emitted
    ensures forall b :: b in raw && raw[b].parent == Some(a) ==> (a in emitted <==> b in emitted)
    ensures (&& !raw[a].recent && (forall b :: b in raw ==> raw[b].parent != Some(a))
             && (raw[a].parent.Some? ==> raw[a].parent.value !in raw)) ==> a !in emitted
  {
    if !raw[a].recent && (forall b :: b in raw ==> raw[b].parent != Some(a))
       && (raw[a].parent.Some? ==> raw[a].parent.value !in raw) {
      assert Holds(raw, emitted - {a});
    }
  }

  /** The elements of a set, each once, in some order. */
  method Listing(s: set<string>) returns (order: seq<string>)
    ensures forall x :: x in order <==> x in s
    ensures |order| == |s| && forall i, j :: 0 <= i < j < |order| ==> order[i] != order[j]
  {
    order := [];
    var todo := s;
    while todo != {}
      invariant todo <= s && forall x :: x in order <==> x in s && x !in todo
      invariant |order| + |todo| == |s|
      invariant forall i, j :: 0 <= i < j < |order| ==> order[i] != order[j]
      decreases todo
    {
      var x :| x in todo;
      todo, order := todo - {x}, order + [x];
    }
  }
}
