/** scripts/verify-candidate.py: when the gate lets a candidate pass, and what a cached test result stands for. */
module CandidateEvidence {
  import opened Framing
  import opened Options
  import opened Sequences
  import opened TextFiles
  import opened TextOrder

  /** What the file system and git say of a path; `ignored` is None when git fails. */
  datatype Facts = Facts(symlink: bool, regular: bool, ignored: Option<bool>)

  datatype EntryError =
    | NotSorted
    | Absolute(entry: string)
    | Escapes(entry: string)
    | Excluded(entry: string)
    | Duplicate(entry: string)
    | Missing(entry: string)
    | Symlink(entry: string)
    | NotRegular(entry: string)
    | GitFailed
    | Ignored(entry: string)

  predicate Sorted(entries: seq<string>) {
    forall i :: 0 < i < |entries| ==> Leq(entries[i - 1], entries[i])
  }

  /** A part ".." of the path stands at `i`. */
  predicate ParentPartAt(entry: string, i: nat) {
    && i + 2 <= |entry| && entry[i] == '.' && entry[i + 1] == '.'
    && (i == 0 || entry[i - 1] == '/') && (i + 2 == |entry| || entry[i + 2] == '/')
  }

  predicate HasParentPart(entry: string) {
    exists i :: 0 <= i < |entry| && ParentPartAt(entry, i)
  }

  /** What is wrong with one entry, in the order the checks are made. */
  function EntryErrorOf(facts: map<string, Facts>, entry: string, seen: bool): Option<EntryError> {
    if "/" <= entry then Some(Absolute(entry))
    else if HasParentPart(entry) then Some(Escapes(entry))
    else if ".hermes/" <= entry then Some(Excluded(entry))
    else if seen then Some(Duplicate(entry))
    else if entry !in facts then Some(Missing(entry))
    else if facts[entry].symlink then Some(Symlink(entry))
    else if !facts[entry].regular then Some(NotRegular(entry))
    else if facts[entry].ignored == None then Some(GitFailed)
    else if facts[entry].ignored.value then Some(Ignored(entry))
    else None
  }

  /** An entry fit for a manifest. */
  predicate Admissible(facts: map<string, Facts>, entry: string) { EntryErrorOf(facts, entry, false) == None }

  /** What an error says of its entry. */
  lemma ErrorMeans(facts: map<string, Facts>, entry: string, seen: bool)
    requires EntryErrorOf(facts, entry, seen).Some?
    ensures match EntryErrorOf(facts, entry, seen).value
            case NotSorted => false
            case Absolute(e) => e == entry && "/" <= entry
            case Escapes(e) => e == entry && HasParentPart(entry)
            case Excluded(e) => e == entry && ".hermes/" <= entry
            case Duplicate(e) => e == entry && seen
            case Missing(e) => e == entry && entry !in facts
            case Symlink(e) => e == entry && entry in facts && facts[entry].symlink
            case NotRegular(e) => e == entry && entry in facts && !facts[entry].regular
            case GitFailed => entry in facts && facts[entry].ignored == None
            case Ignored(e) => e == entry && entry in facts && facts[entry].ignored == Some(true)
  {
  }

  lemma AdmissibleMeans(facts: map<string, Facts>, entry: string)
    ensures Admissible(facts, entry) <==>
            && !("/" <= entry) && !HasParentPart(entry) && !(".hermes/" <= entry)
            && entry in facts && facts[entry] == Facts(false, true, Some(false))
  {
    hide HasParentPart;
    if entry in facts {
      var f := facts[entry];
      assert f == Facts(f.symlink, f.regular, f.ignored);
    }
  }

  /** ".." is a part of a path where a slash or an end of the path stands on either side of it. */
  lemma ParentPartStands(before: string, after: string)
    requires (before == [] || before[|before| - 1] == '/') && (after == [] || after[0] == '/')
    ensures HasParentPart(before + ".." + after)
  {
    var entry := before + ".." + after;
    assert entry[|before|] == '.' && entry[|before| + 1] == '.';
    assert ParentPartAt(entry, |before|);
  }

  lemma ParentPartSplits(entry: string, i: nat)
    requires ParentPartAt(entry, i)
    ensures entry == entry[..i] + ".." + entry[i + 2..]
    ensures (i == 0 || entry[i - 1] == '/') && (i + 2 == |entry| || entry[i + 2] == '/')
  {
    assert entry[i..i + 2] == "..";
  }

  /** What makes a path fit: relative, no ".." among its parts, not under .hermes, an existing regular file that is no
      symlink and that git does not ignore. */
  lemma AdmissibleIff(facts: map<string, Facts>, entry: string)
    ensures Admissible(facts, entry) <==>
            && (entry != [] ==> entry[0] != '/')
            && !(exists i :: 0 <= i < |entry| && ParentPartAt(entry, i))
            && !(|entry| >= 8 && entry[..8] == ".hermes/")
            && entry in facts && facts[entry] == Facts(false, true, Some(false))
  {
    AdmissibleMeans(facts, entry);
    hide Admissible;
    assert "/" <= entry <==> entry != [] && entry[0] == '/';
    assert ".hermes/" <= entry <==> |entry| >= 8 && entry[..8] == ".hermes/";
  }

  /** validate_entries: the first error, or none exactly for sorted lists of distinct admissible paths. */
  method ValidateEntries(facts: map<string, Facts>, entries: seq<string>) returns (r: Option<EntryError>)
    ensures r == None <==> Sorted(entries) && Distinct(entries) && forall e <- entries :: Admissible(facts, e)
    ensures r.Some? && Sorted(entries) ==>
              exists k :: 0 <= k < |entries| && r == EntryErrorOf(facts, entries[k], entries[k] in entries[..k])
                          && Distinct(entries[..k]) && forall e <- entries[..k] :: Admissible(facts, e)
    ensures r == Some(NotSorted) <==> !Sorted(entries)
  {
    for i := 0 to |entries|
      invariant forall j :: 0 < j < i ==> Leq(entries[j - 1], entries[j])
    {
      if i > 0 && !Leq(entries[i - 1], entries[i]) {
        return Some(NotSorted);
      }
    }
    var seen: set<string> := {};
    for i := 0 to |entries|
      invariant Distinct(entries[..i]) && forall e <- entries[..i] :: Admissible(facts, e)
      invariant forall e :: e in seen <==> e in entries[..i]
    {
      var error := EntryErrorOf(facts, entries[i], entries[i] in seen);
      if error.Some? {
        Fails(facts, entries, i);
        return error;
      }
      seen := seen + {entries[i]};
      assert entries[..i + 1] == entries[..i] + [entries[i]];
    }
    assert entries[..|entries|] == entries;
    return None;
  }

  /** An entry that fails where it stands spoils the whole list. */
  lemma Fails(facts: map<string, Facts>, entries: seq<string>, k: nat)
    requires k < |entries| && EntryErrorOf(facts, entries[k], entries[k] in entries[..k]).Some?
    ensures !(Distinct(entries) && forall e <- entries :: Admissible(facts, e))
  {
    if entries[k] in entries[..k] {
      var j :| 0 <= j < k && entries[..k][j] == entries[k];
      assert entries[j] == entries[k];
    } else {
      assert entries[k] in entries && !Admissible(facts, entries[k]);
    }
  }

  // ---------------------------------------------------------------- the test cache

  /** The fields of a marker file that a reader looks at; a write cut short leaves later ones out. */
  datatype Marker = Marker(hash: Option<string>, rc: Option<nat>)

  /** How the write of a marker went: whole, nothing written, or cut after some of its four lines. */
  datatype Write = Whole | Untouched | Cut(lines: nat)

  type Store = map<string, Marker>

  function Written(store: Store, name: string, hash: string, rc: nat, write: Write): Store {
    match write
    case Whole => store[name := Marker(Some(hash), Some(rc))]
    case Untouched => store
    case Cut(n) => store[name := Marker(if n >= 2 then Some(hash) else None, if n >= 3 then Some(rc) else None)]
  }

  predicate CachedPass(store: Store, name: string, hash: string) {
    name in store && store[name].hash == Some(hash) && store[name].rc == Some(0)
  }

  /** A marker cut short reads as a pass only when its hash and its return code, the second and third line, are
      whole. */
  lemma CutMarkerPasses(store: Store, name: string, hash: string, n: nat)
    ensures CachedPass(Written(store, name, hash, 0, Cut(n)), name, hash) <==> n >= 3
    ensures CachedPass(Written(store, name, hash, 0, Whole), name, hash)
    ensures !CachedPass(Written(store, name, hash, 1, Whole), name, hash)
  {
  }

  function PathOf(row: string): string { if |row| >= 3 then row[3..] else [] }

  function TrackedRows(porcelain: seq<string>): seq<string> {
    if porcelain == [] then []
    else
      var rest := TrackedRows(porcelain[1..]);
      if porcelain[0] != [] && !("??" <= porcelain[0]) then [porcelain[0]] + rest else rest
  }

  /** The tracked rows whose path is not that of a tracked row. */
  function OtherRows(rows: seq<string>, tracked: seq<string>): seq<string> {
    if rows == [] then []
    else if exists t <- tracked :: PathOf(t) == PathOf(rows[0]) then OtherRows(rows[1..], tracked)
    else [rows[0]] + OtherRows(rows[1..], tracked)
  }

  lemma {:induction false} NoOtherRows(rows: seq<string>, tracked: seq<string>)
    requires forall r <- rows :: r in tracked
    ensures OtherRows(rows, tracked) == []
  {
    if rows != [] {
      assert rows[0] in tracked;
      NoOtherRows(rows[1..], tracked);
    }
  }

  function Join(rows: seq<string>): string {
    if rows == [] then [] else if |rows| == 1 then rows[0] else rows[0] + "/" + Join(rows[1..])
  }

  /** fast_test_marker: the file that stands for a candidate hash; `digest` is SHA-256. */
  function MarkerName(digest: string -> string, repo: string, hash: string, porcelain: seq<string>): string {
    var tracked := TrackedRows(porcelain);
    repo + "-" + digest(hash + "|" + Join(OtherRows(tracked, tracked)))
  }

  /** The working tree plays no part in the name: the rows meant to carry it are always filtered out. */
  lemma MarkerIgnoresTheTree(digest: string -> string, repo: string, hash: string, porcelain: seq<string>)
    ensures MarkerName(digest, repo, hash, porcelain) == repo + "-" + digest(hash + "|")
  {
    NoOtherRows(TrackedRows(porcelain), TrackedRows(porcelain));
    assert hash + "|" + Join([]) == hash + "|";
  }

  // ---------------------------------------------------------------- one run of the gate

  /** What one run meets: the manifest's lines, the files as stored, what git and the other checks say, and
      how the test command and the marker write would go. */
  datatype World = World(manifest: Option<seq<string>>, facts: map<string, Facts>, files: map<string, string>,
                         gitAnswers: bool, guardPasses: bool, dependencyPasses: bool, contentPasses: bool,
                         linksPass: bool, porcelain: seq<string>, repo: string, testPasses: bool, write: Write)

  datatype Stage = Manifest | GitEvidence | Guard | Dependency | PublicContent | Whitespace | Links | FastTest

  datatype Outcome = Passed | Refused(stage: Stage)

  /** What a run reports, whether it ran the test with success, and the markers it leaves. */
  datatype Report = Report(outcome: Outcome, tested: bool, store: Store)

  lemma {:induction false} NulSurvivesReading(raw: string)
    ensures NulFree(AsText(raw)) ==> NulFree(raw)
    decreases |raw|
  {
    if raw != [] {
      var next := if raw[0] == '\r' && |raw| > 1 && raw[1] == '\n' then raw[2..] else raw[1..];
      NulSurvivesReading(next);
      if NulFree(AsText(raw)) {
        assert AsText(raw)[1..] == AsText(next);
        assert AsText(raw)[0] != NUL;
        forall c <- raw ensures c != NUL {
          assert c == raw[0] || c == '\n' || c in next;
        }
      }
    }
  }

  function Nonempty(lines: seq<string>): seq<string> {
    if lines == [] then []
    else if lines[0] == [] then Nonempty(lines[1..])
    else [lines[0]] + Nonempty(lines[1..])
  }

  ghost predicate ManifestOk(w: World) {
    && w.manifest.Some?
    && var entries := Nonempty(w.manifest.value);
       entries != [] && Sorted(entries) && Distinct(entries) && forall e <- entries :: Admissible(w.facts, e)
  }

  function Entries(w: World): seq<string> { if w.manifest.Some? then Nonempty(w.manifest.value) else [] }

  predicate Readable(w: World) { forall i :: 0 <= i < |Entries(w)| ==> Entries(w)[i] in w.files }

  predicate WhitespaceOk(w: World)
    requires Readable(w)
  {
    forall i :: 0 <= i < |Entries(w)| ==> FaultFrom(AsText(w.files[Entries(w)[i]]), 0, 1) == None
  }

  /** The candidate: its manifest with the bytes of its files. */
  ghost function Candidate(w: World): seq<Item>
    requires Readable(w)
  {
    Items(Entries(w), w.files)
  }

  /** The first check that refuses the candidate before its hash is taken. */
  ghost function EarlyRefusal(w: World): (r: Option<Stage>)
    ensures r == None ==> Readable(w)
  {
    if !ManifestOk(w) then Some(Manifest)
    else if !w.gitAnswers then Some(GitEvidence)
    else if !w.guardPasses then Some(Guard)
    else if !w.dependencyPasses then Some(Dependency)
    else if !Readable(w) || !w.contentPasses then Some(PublicContent)
    else if !WhitespaceOk(w) then Some(Whitespace)
    else if !w.linksPass then Some(Links)
    else None
  }

  /** The lines of a manifest but the empty ones, in their order. */
  lemma {:induction false} NonemptySnoc(lines: seq<string>, x: string)
    ensures Nonempty([]) == [] && Nonempty(lines + [x]) == Nonempty(lines) + if x == "" then [] else [x]
  {
    if lines == [] {
      assert lines + [x] == [x] && [x][1..] == [];
    } else {
      NonemptySnoc(lines[1..], x);
      assert (lines + [x])[1..] == lines[1..] + [x];
    }
  }

  /** A manifest holds when it can be read, is not empty, is sorted and names only fit paths, each once. */
  lemma ManifestIff(w: World)
    ensures ManifestOk(w) <==>
            var es := Entries(w);
            && w.manifest.Some? && es != [] && (forall i :: 0 < i < |es| ==> Leq(es[i - 1], es[i]))
            && (forall i, j :: 0 <= i < j < |es| ==> es[i] != es[j]) && (forall e <- es :: Admissible(w.facts, e))
  {
    hide Admissible;
    hide Leq;
    hide Nonempty;
  }

  /** A run is refused at a stage when that check fails and all before it pass. */
  lemma RefusalIff(w: World)
    ensures var r := EarlyRefusal(w);
            && (r == Some(Manifest) <==> !ManifestOk(w))
            && (r == Some(GitEvidence) <==> ManifestOk(w) && !w.gitAnswers)
            && (r == Some(Guard) <==> ManifestOk(w) && w.gitAnswers && !w.guardPasses)
            && (r == Some(Dependency) <==> ManifestOk(w) && w.gitAnswers && w.guardPasses && !w.dependencyPasses)
            && (r in {Some(PublicContent), Some(Whitespace), Some(Links), None} <==>
                ManifestOk(w) && w.gitAnswers && w.guardPasses && w.dependencyPasses)
            && (r in {Some(Whitespace), Some(Links), None} ==> w.contentPasses)
            && (r == Some(PublicContent) && w.contentPasses ==> exists e <- Entries(w) :: e !in w.files)
            && (r == Some(Links) ==> !w.linksPass) && (r == None ==> w.linksPass) && r != Some(FastTest)
  {
    hide FaultFrom;
    hide AsText;
    hide ManifestOk;
    hide Entries;
    if EarlyRefusal(w) == Some(PublicContent) && w.contentPasses {
      var i :| 0 <= i < |Entries(w)| && Entries(w)[i] !in w.files;
      assert Entries(w)[i] in Entries(w);
    }
  }

  /** Past these checks, the white space of every file is what tells a Whitespace refusal from the rest. */
  lemma WhitespaceIff(w: World)
    requires EarlyRefusal(w) in {Some(Whitespace), Some(Links), None}
    ensures forall i :: 0 <= i < |Entries(w)| ==> Entries(w)[i] in w.files
    ensures EarlyRefusal(w) == Some(Whitespace) <==>
            exists i :: 0 <= i < |Entries(w)| && FaultFrom(AsText(w.files[Entries(w)[i]]), 0, 1).Some?
  {
    hide FaultFrom;
    hide AsText;
    hide ManifestOk;
  }

  /** Past the early checks a run passes when a marker says so or the tests pass, and is refused at the test otherwise;
      a marker that says so saves the tests and stays as it is. */
  lemma PassesIff(digest: string -> string, store: Store, w: World)
    requires EarlyRefusal(w) == None
    ensures var hash := digest(Frame(Candidate(w)));
            var name, v := MarkerName(digest, w.repo, hash, w.porcelain), Verdict(digest, store, w);
            && (v.outcome == Passed <==> CachedPass(store, name, hash) || w.testPasses)
            && (v.outcome != Passed ==> v.outcome == Refused(FastTest))
            && (v.tested <==> !CachedPass(store, name, hash) && w.testPasses)
            && (CachedPass(store, name, hash) ==> v.store == store)
  {
    hide EarlyRefusal;
    hide Frame;
    hide MarkerName;
  }

  ghost function Verdict(digest: string -> string, store: Store, w: World): Report {
    if EarlyRefusal(w).Some? then Report(Refused(EarlyRefusal(w).value), false, store)
    else
      var hash := digest(Frame(Candidate(w)));
      var name := MarkerName(digest, w.repo, hash, w.porcelain);
      if CachedPass(store, name, hash) then Report(Passed, false, store)
      else if w.testPasses then Report(Passed, true, Written(store, name, hash, 0, w.write))
      else Report(Refused(FastTest), false, Written(store, name, hash, 1, w.write))
  }

  /** The checks before the test, in order; the bytes for the digest when all pass. */
  method EarlyChecks(w: World) returns (refusal: Option<Stage>, fed: string)
    ensures refusal == EarlyRefusal(w)
    ensures refusal == None ==> fed == Frame(Candidate(w))
  {
    hide FaultFrom;
    hide AsText;
    hide Frame;
    fed := "";
    if w.manifest == None || Nonempty(w.manifest.value) == [] {
      return Some(Manifest), fed;
    }
    var entries := Nonempty(w.manifest.value);
    var error := ValidateEntries(w.facts, entries);
    if error.Some? {
      return Some(Manifest), fed;
    }
    if !w.gitAnswers {
      return Some(GitEvidence), fed;
    }
    if !w.guardPasses {
      return Some(Guard), fed;
    }
    if !w.dependencyPasses {
      return Some(Dependency), fed;
    }
    var bytes := FrameFiles(entries, w.files);
    assert Entries(w) == entries;
    assert Readable(w) <==> bytes.Some?;
    if bytes == None || !w.contentPasses {
      return Some(PublicContent), fed;
    }
    var clean := WhitespaceScan(w);
    if !clean {
      return Some(Whitespace), fed;
    }
    if !w.linksPass {
      return Some(Links), fed;
    }
    return None, bytes.value;
  }

  /** whitespace_scan_error: the scan of every file of the manifest. */
  method WhitespaceScan(w: World) returns (clean: bool)
    requires Readable(w)
    ensures clean <==> WhitespaceOk(w)
  {
    var entries := Entries(w);
    for i := 0 to |entries|
      invariant forall j :: 0 <= j < i ==> FaultFrom(AsText(w.files[entries[j]]), 0, 1) == None
    {
      var fault := WhitespaceError(AsText(w.files[entries[i]]));
      if fault.Some? {
        return false;
      }
    }
    return true;
  }

  /** The markers in the temporary directory, and main() working on them. */
  class Gate {
    var store: Store

    constructor (store: Store)
      ensures this.store == store
    {
      this.store := store;
    }

    method Run(digest: string -> string, w: World) returns (outcome: Outcome, tested: bool)
      modifies this
      ensures Report(outcome, tested, store) == Verdict(digest, old(store), w)
    {
      hide EarlyRefusal;
      hide Frame;
      hide MarkerName;
      var refusal, fed := EarlyChecks(w);
      if refusal.Some? {
        return Refused(refusal.value), false;
      }
      var hash := digest(fed);
      var name := MarkerName(digest, w.repo, hash, w.porcelain);
      if CachedPass(store, name, hash) {
        return Passed, false;
      }
      if !w.testPasses {
        store := Written(store, name, hash, 1, w.write);
        return Refused(FastTest), false;
      }
      store := Written(store, name, hash, 0, w.write);
      return Passed, true;
    }
  }

  // ---------------------------------------------------------------- all runs

  /** The markers after the first `n` runs, starting from none. */
  ghost function StoreAt(digest: string -> string, ws: seq<World>, n: nat): Store
    requires n <= |ws|
  {
    if n == 0 then map[] else Verdict(digest, StoreAt(digest, ws, n - 1), ws[n - 1]).store
  }

  /** Run `n` ran the tests with success on this candidate. */
  ghost predicate TestedAt(digest: string -> string, ws: seq<World>, n: nat, candidate: seq<Item>)
    requires n < |ws|
  {
    && EarlyRefusal(ws[n]) == None && Candidate(ws[n]) == candidate
    && ws[n].testPasses && Verdict(digest, StoreAt(digest, ws, n), ws[n]).tested
  }

  /** Assumed of SHA-256 (FIPS 180-4). */
  ghost predicate CollisionFree(digest: string -> string) {
    forall x, y :: digest(x) == digest(y) ==> x == y
  }

  /** No path with a NUL in it exists. */
  ghost predicate PathsAreNulFree(ws: seq<World>) {
    forall i :: 0 <= i < |ws| ==> forall p <- ws[i].facts :: NulFree(p)
  }

  /** Every marker that reads as a pass was written after a successful test of a candidate with that hash. */
  ghost predicate MarkersEarned(digest: string -> string, ws: seq<World>, n: nat, store: Store)
    requires n <= |ws|
  {
    forall name <- store :: store[name].rc == Some(0) && store[name].hash.Some? ==>
      exists j :: 0 <= j < n && EarlyRefusal(ws[j]) == None
                  && TestedAt(digest, ws, j, Candidate(ws[j]))
                     && digest(Frame(Candidate(ws[j]))) == store[name].hash.value
  }

  lemma NoMarkers(digest: string -> string, ws: seq<World>)
    ensures MarkersEarned(digest, ws, 0, StoreAt(digest, ws, 0))
  {
  }

  lemma {:induction false} MarkersAreEarned(digest: string -> string, ws: seq<World>, n: nat)
    requires n <= |ws|
    ensures MarkersEarned(digest, ws, n, StoreAt(digest, ws, n))
  {
    NoMarkers(digest, ws);
    hide EarlyRefusal;
    hide Verdict;
    hide StoreAt;
    hide Frame;
    hide MarkersEarned;
    if n > 0 {
      MarkersAreEarned(digest, ws, n - 1);
      MarkersStayEarned(digest, ws, n - 1);
    }
  }

  lemma {:induction false} StoreSteps(digest: string -> string, ws: seq<World>, n: nat)
    requires n < |ws|
    ensures StoreAt(digest, ws, n + 1) == Verdict(digest, StoreAt(digest, ws, n), ws[n]).store
  {
  }

  /** A run adds no marker that reads as a pass but its own, after a successful test. */
  lemma {:induction false} NewMarker(digest: string -> string, store: Store, w: World, name: string)
    requires name in Verdict(digest, store, w).store && Verdict(digest, store, w).store[name].rc == Some(0)
    requires Verdict(digest, store, w).store[name].hash.Some?
    ensures || (name in store && Verdict(digest, store, w).store[name] == store[name])
            || (&& EarlyRefusal(w) == None && w.testPasses && Verdict(digest, store, w).tested
                && digest(Frame(Candidate(w))) == Verdict(digest, store, w).store[name].hash.value)
  {
    hide FaultFrom;
    hide Frame;
    hide MarkerName;
  }

  lemma {:induction false} MarkersStayEarned(digest: string -> string, ws: seq<World>, n: nat)
    requires n < |ws| && MarkersEarned(digest, ws, n, StoreAt(digest, ws, n))
    ensures MarkersEarned(digest, ws, n + 1, StoreAt(digest, ws, n + 1))
  {
    hide EarlyRefusal;
    hide Frame;
    hide Verdict;
    hide StoreAt;
    StoreSteps(digest, ws, n);
    var before, w := StoreAt(digest, ws, n), ws[n];
    var after := StoreAt(digest, ws, n + 1);
    forall name <- after | after[name].rc == Some(0) && after[name].hash.Some?
      ensures exists j :: 0 <= j < n + 1 && EarlyRefusal(ws[j]) == None
                  && TestedAt(digest, ws, j, Candidate(ws[j]))
                     && digest(Frame(Candidate(ws[j]))) == after[name].hash.value
    {
      NewMarker(digest, before, w, name);
      if name in before && after[name] == before[name] {
        var j :| 0 <= j < n && EarlyRefusal(ws[j]) == None
                  && TestedAt(digest, ws, j, Candidate(ws[j]))
                     && digest(Frame(Candidate(ws[j]))) == before[name].hash.value;
      } else {
        assert TestedAt(digest, ws, n, Candidate(w)) && digest(Frame(Candidate(w))) == after[name].hash.value;
      }
    }
  }

  /** What passes the early checks holds no NUL, in paths or contents. */
  lemma {:induction false} CandidateIsNulFree(w: World)
    requires EarlyRefusal(w) == None && forall p <- w.facts :: NulFree(p)
    ensures Readable(w) && AllNulFree(Candidate(w))
  {
    var entries := Entries(w);
    forall i | 0 <= i < |entries| ensures NulFree(Candidate(w)[i].path) && NulFree(Candidate(w)[i].bytes) {
      assert Admissible(w.facts, entries[i]);
      assert entries[i] in w.facts;
      AcceptedTextHasNoNul(AsText(w.files[entries[i]]));
      NulSurvivesReading(w.files[entries[i]]);
    }
  }

  /** When the gate passes a candidate, this run or an earlier one ran the tests with success on the same
      manifest with the same bytes. */
  lemma {:induction false} PassedMeansTested(digest: string -> string, ws: seq<World>, n: nat)
    requires n < |ws| && CollisionFree(digest) && PathsAreNulFree(ws)
    requires Verdict(digest, StoreAt(digest, ws, n), ws[n]).outcome == Passed
    ensures EarlyRefusal(ws[n]) == None
    ensures exists j :: 0 <= j <= n && TestedAt(digest, ws, j, Candidate(ws[n]))
  {
    var store, w := StoreAt(digest, ws, n), ws[n];
    if Verdict(digest, store, w).tested {
      assert TestedAt(digest, ws, n, Candidate(w));
    } else {
      MarkersAreEarned(digest, ws, n);
      var hash := digest(Frame(Candidate(w)));
      var name := MarkerName(digest, w.repo, hash, w.porcelain);
      assert CachedPass(store, name, hash);
      var j :| 0 <= j < n && EarlyRefusal(ws[j]) == None
               && TestedAt(digest, ws, j, Candidate(ws[j])) && digest(Frame(Candidate(ws[j]))) == hash;
      SameFrameSameCandidate(digest, ws[j], w);
      assert TestedAt(digest, ws, j, Candidate(w));
    }
  }

  lemma {:induction false} SameFrameSameCandidate(digest: string -> string, v: World, w: World)
    requires CollisionFree(digest) && EarlyRefusal(v) == None && EarlyRefusal(w) == None
    requires (forall p <- v.facts :: NulFree(p)) && forall p <- w.facts :: NulFree(p)
    requires digest(Frame(Candidate(v))) == digest(Frame(Candidate(w)))
    ensures Candidate(v) == Candidate(w)
  {
    CandidateIsNulFree(v);
    CandidateIsNulFree(w);
    FrameIsInjective(Candidate(v), Candidate(w));
  }

  /** A failed test leaves no pass behind, however its marker write goes. */
  lemma FailureIsNeverCached(digest: string -> string, store: Store, w: World)
    requires Verdict(digest, store, w).outcome == Refused(FastTest)
    ensures var hash := digest(Frame(Candidate(w)));
            !CachedPass(Verdict(digest, store, w).store, MarkerName(digest, w.repo, hash, w.porcelain), hash)
  {
    hide FaultFrom;
    hide Frame;
    hide MarkerName;
  }

  /** The cached result says nothing of the rest of the tree: after one successful run whose marker was written,
      the same candidate passes in the same repository whatever else changed, even where the tests would fail. */
  lemma CachedPassIgnoresTheTree(digest: string -> string, store: Store, v: World, w: World)
    requires Verdict(digest, store, v).tested && v.write == Whole && v.repo == w.repo
    requires EarlyRefusal(w) == None && Candidate(v) == Candidate(w)
    ensures Verdict(digest, Verdict(digest, store, v).store, w) ==
            Report(Passed, false, Verdict(digest, store, v).store)
  {
    var hash := digest(Frame(Candidate(v)));
    MarkerIgnoresTheTree(digest, v.repo, hash, v.porcelain);
    MarkerIgnoresTheTree(digest, w.repo, hash, w.porcelain);
  }
}
