/**
 Many runs of the backfill script over one database and one directory: applies that may die in any durable state,
 rollbacks from the manifests they left, and the application's own postings in between. Is every posted entry that the
 script made named by a manifest that can undo it?
 */
module BackfillHistory {
  import opened Wrappers
  import opened CompletionGl
  import opened Backfill
  import opened BackfillRun

  /** `made` are the entries that committed applies have made. */
  datatype World = World(db: Db, files: Files, made: set<EntryId>)

  datatype Event =
    | ApplyRun(path: string, poIds: seq<OrderId>, ending: Ending, stop: nat)  // may die in state `stop` of its trace
    | RollbackRun(path: string, commits: bool)
    | Between(op: Op)                                                          // the application, not the script

  predicate Allowed(e: Event)
  {
    match e
    case ApplyRun(_, _, ending, _) => ending != CommitRaises(Committed)
    case Between(op) => !op.ApplyOp? && !op.RollbackOp?
    case _ => true
  }

  /** Any rollback may happen, any ending of an apply, and every operation that is not the script's. */
  lemma EverythingIsAllowed(path: string, poIds: seq<OrderId>, ending: Ending, stop: nat, commits: bool, op: Op)
    ensures Allowed(RollbackRun(path, commits))
    ensures ending != CommitRaises(Committed) ==> Allowed(ApplyRun(path, poIds, ending, stop))
    ensures op.CompleteOp? || op.RecordOp? || op.FlagOp? || op.ScrapOp? || op.OperationScrapOp? || op.JournalOp? ==>
              Allowed(Between(op))
  {}

  /** The run gets as far as writing a manifest. */
  predicate Posts(w: World, e: Event)
  {
    e.ApplyRun? && Apply(w.db, e.poIds).Success? && Apply(w.db, e.poIds).value.1 != []
  }

  function TraceOf(w: World, e: Event): (t: seq<Durable>)
    requires Posts(w, e)
    ensures t != []
  {
    var (after, m) := Apply(w.db, e.poIds).value;
    Trace(w.db, after, m, e.path, w.files, e.ending)
  }

  /** The durable state in which the run ends or dies. */
  function Reached(w: World, e: Event): Durable
    requires Posts(w, e)
  {
    var t := TraceOf(w, e);
    if e.stop < |t| then t[e.stop] else Last(t)
  }

  /** The database's sequence never gives out an id twice: the ids of an uncommitted run stay blank. */
  function Burn(db: Db, n: nat): Db
  {
    db.(entries := db.entries + seq(n, i => Entry(Voided, None, [], [], Other)))
  }

  function Next(w: World, e: Event): World
  {
    match e
    case ApplyRun(_, poIds, _, _) =>
      if !Posts(w, e) then w
      else (
        var d, m := Reached(w, e), Apply(w.db, poIds).value.1;
        if d.db == w.db then World(Burn(w.db, |m|), d.files, w.made) else World(d.db, d.files, w.made + Named(m))
      )
    case RollbackRun(path, commits) =>
      if commits && path in w.files && w.files[path].Whole? then w.(db := Rollback(w.db, w.files[path].manifest)) else w
    case Between(op) => w.(db := Do(w.db, op))
  }

  /** A rollback does what its manifest says and the application what it does, and neither touches the files. */
  lemma OtherEvents(w: World, path: string, m: Manifest, op: Op)
    ensures path in w.files && w.files[path] == Whole(m) ==>
              Next(w, RollbackRun(path, true)) == World(Rollback(w.db, m), w.files, w.made)
    ensures path !in w.files || w.files[path] == Partial ==> Next(w, RollbackRun(path, true)) == w
    ensures Next(w, RollbackRun(path, false)) == w
    ensures Next(w, Between(op)) == World(Do(w.db, op), w.files, w.made)
  {}

  /** An apply that runs through leaves the last state of its trace, and its entries count as made if it committed. */
  lemma ApplyRunsThrough(w: World, path: string, poIds: seq<OrderId>, stop: nat)
    requires Apply(w.db, poIds).Success? && Apply(w.db, poIds).value.1 != [] && stop >= 4
    ensures var (after, m) := Apply(w.db, poIds).value;
            Next(w, ApplyRun(path, poIds, Completes, stop))
            == World(after, (w.files - {TmpPath(path)})[path := Whole(m)], w.made + Named(m))
  {
    var (after, m) := Apply(w.db, poIds).value;
    ManifestNames(w.db, poIds);
    TmpIsOther(path);
    assert |after.entries| > |w.db.entries|;
    assert w.files[TmpPath(path) := Whole(m)] - {TmpPath(path)} == w.files - {TmpPath(path)};
  }

  function Run(w: World, events: seq<Event>): World
    decreases |events|
  {
    if events == [] then w else Run(Next(w, events[0]), events[1..])
  }

  // ---------------------------------------------------------------------------------------------
  // Covered by a manifest
  // ---------------------------------------------------------------------------------------------

  predicate NamesAt(files: Files, p: string, e: EntryId)
  {
    p in files && files[p].Whole? && e in Named(files[p].manifest)
  }

  predicate NamedIn(files: Files, e: EntryId)
  {
    exists p :: p in files && NamesAt(files, p, e)
  }

  predicate IsPosted(db: Db, e: EntryId)
  {
    e < |db.entries| && db.entries[e].status == Posted
  }

  /** Every posted entry that the script made is named by some whole manifest. */
  predicate Covered(w: World)
  {
    forall e :: e in w.made && IsPosted(w.db, e) ==> NamedIn(w.files, e)
  }

  /** Manifests name only ids that were given out. */
  ghost predicate Ok(w: World)
  {
    && Valid(w.db)
    && (forall e :: e in w.made ==> e < |w.db.entries|)
    && (forall p, e: EntryId :: NamesAt(w.files, p, e) ==> e < |w.db.entries|)
  }

  /** The run finds neither its manifest nor the temporary one. */
  predicate Fresh(w: World, e: Event)
  {
    e.ApplyRun? ==> e.path !in w.files && TmpPath(e.path) !in w.files
  }

  /** The run commits, is told otherwise, and lives to delete its manifest. */
  predicate Loses(w: World, e: Event)
  {
    Posts(w, e) && Unclear(e.ending) && e.stop >= |TraceOf(w, e)| - 1
  }

  // ---------------------------------------------------------------------------------------------
  // One apply
  // ---------------------------------------------------------------------------------------------

  /** No file is lost or changed, and what is new is this run's manifest, or part of it. */
  predicate Grown(files: Files, later: Files, m: Manifest)
  {
    && (forall p :: p in files ==> p in later && later[p] == files[p])
    && (forall p :: p in later && p !in files ==> later[p] == Partial || later[p] == Whole(m))
  }

  predicate Holds(files: Files, m: Manifest)
  {
    exists p :: p in files && files[p] == Whole(m)
  }

  lemma FilesOnTheWay(files: Files, path: string, m: Manifest)
    requires path !in files && TmpPath(path) !in files
    ensures var tmp := TmpPath(path);
            var written := files[tmp := Whole(m)];
            var renamed := (written - {tmp})[path := Whole(m)];
            && Grown(files, files[tmp := Partial], m) && Grown(files, written, m) && Grown(files, renamed, m)
            && written - {tmp} == files && Holds(written, m) && Holds(renamed, m)
  {
    var tmp := TmpPath(path);
    var written := files[tmp := Whole(m)];
    assert written[tmp] == Whole(m);
    assert (written - {tmp})[path := Whole(m)][path] == Whole(m);
  }

  /**
   A state of a trace is not committed, or committed with the manifest somewhere, or the last of an unclear commit.
   */
  lemma TraceState(before: Db, after: Db, m: Manifest, path: string, files: Files, ending: Ending, k: nat)
    requires path !in files && TmpPath(path) !in files && ending != CommitRaises(Committed)
    requires k < |Trace(before, after, m, path, files, ending)|
    ensures var t := Trace(before, after, m, path, files, ending);
            && (t[k].db == before || t[k].db == after) && Grown(files, t[k].files, m)
            && (t[k].db == before || Holds(t[k].files, m) || (Unclear(ending) && k == |t| - 1))
            && (Unclear(ending) && k == |t| - 1 ==> t[k] == Durable(after, files))
  {
    FilesOnTheWay(files, path, m);
  }

  lemma ReachedCases(w: World, e: Event)
    requires Posts(w, e) && Allowed(e) && Fresh(w, e)
    ensures var (after, m) := Apply(w.db, e.poIds).value;
            var d := Reached(w, e);
            && after != w.db && (d.db == w.db || d.db == after) && Grown(w.files, d.files, m)
            && (Loses(w, e) ==> d == Durable(after, w.files))
            && (!Loses(w, e) && d.db == after ==> Holds(d.files, m))
  {
    var (after, m) := Apply(w.db, e.poIds).value;
    var t := TraceOf(w, e);
    ManifestNames(w.db, e.poIds);
    assert |after.entries| > |w.db.entries|;
    TraceState(w.db, after, m, e.path, w.files, e.ending, if e.stop < |t| then e.stop else |t| - 1);
  }

  lemma ManifestNames(db: Db, poIds: seq<OrderId>)
    requires Apply(db, poIds).Success?
    ensures var (after, m) := Apply(db, poIds).value;
            && |after.entries| == |db.entries| + |m|
            && (forall e :: e in Named(m) <==> |db.entries| <= e < |after.entries|)
            && (forall e :: 0 <= e < |db.entries| ==> after.entries[e] == db.entries[e])
            && (forall e :: |db.entries| <= e < |after.entries| ==> after.entries[e].status == Posted)
  {
    var (after, m) := Apply(db, poIds).value;
    PostAllAppends(db, Candidates(db.rows, poIds, db.orders));
    NamedRange(db, after, m);
    forall e | 0 <= e < |db.entries| ensures after.entries[e] == db.entries[e] {
      assert after.entries[..|db.entries|][e] == db.entries[e];
    }
    forall e | |db.entries| <= e < |after.entries| ensures after.entries[e].status == Posted {
      assert Names(m[e - |db.entries|], after.entries[|db.entries| + (e - |db.entries|)]);
    }
  }

  /** What an apply run does to the entries: it keeps the old ones, and the new ones are posted or blank. */
  lemma ApplyEntries(w: World, e: Event)
    requires Posts(w, e) && Allowed(e) && Fresh(w, e)
    ensures var w', n := Next(w, e), |w.db.entries|;
            && |w'.db.entries| == n + |Apply(w.db, e.poIds).value.1|
            && (forall k :: 0 <= k < n ==> w'.db.entries[k] == w.db.entries[k])
            && (Reached(w, e).db != w.db ==> forall k :: n <= k < |w'.db.entries| ==> IsPosted(w'.db, k))
            && (forall k :: k in w'.made <==>
                  k in w.made || (Reached(w, e).db != w.db && n <= k < |w'.db.entries|))
  {
    ReachedCases(w, e);
    ManifestNames(w.db, e.poIds);
  }

  lemma BurnKeepsValid(db: Db, n: nat)
    requires Valid(db)
    ensures Valid(Burn(db, n))
  {
    var d := Burn(db, n);
    assert forall e: EntryId, i: nat :: Owns(d, e, i) <==> Owns(db, e, i);
  }

  lemma ApplyKeepsOk(w: World, e: Event)
    requires Ok(w) && Posts(w, e) && Allowed(e) && Fresh(w, e)
    ensures Ok(Next(w, e))
  {
    var w', m := Next(w, e), Apply(w.db, e.poIds).value.1;
    ReachedCases(w, e);
    ApplyEntries(w, e);
    ManifestNames(w.db, e.poIds);
    BurnKeepsValid(w.db, |m|);
    PostAllKeepsValid(w.db, Candidates(w.db.rows, e.poIds, w.db.orders));
    forall p, k: EntryId | NamesAt(w'.files, p, k) ensures k < |w'.db.entries| {
      if p in w.files { assert NamesAt(w.files, p, k); }
    }
  }

  /** Old entries are named after the run exactly when they were before. */
  lemma OldNames(w: World, e: Event, k: EntryId)
    requires Ok(w) && Posts(w, e) && Allowed(e) && Fresh(w, e) && k < |w.db.entries|
    ensures NamedIn(Next(w, e).files, k) <==> NamedIn(w.files, k)
  {
    var w' := Next(w, e);
    ReachedCases(w, e);
    ManifestNames(w.db, e.poIds);
    if p :| p in w.files && NamesAt(w.files, p, k) { assert NamesAt(w'.files, p, k); }
    if p :| p in w'.files && NamesAt(w'.files, p, k) { assert NamesAt(w.files, p, k); }
  }

  lemma ApplyCovers(w: World, e: Event)
    requires Ok(w) && Posts(w, e) && Allowed(e) && Fresh(w, e)
    ensures Covered(Next(w, e)) <==> Covered(w) && !Loses(w, e)
  {
    var w', n := Next(w, e), |w.db.entries|;
    ReachedCases(w, e);
    ApplyEntries(w, e);
    ManifestNames(w.db, e.poIds);
    forall k | 0 <= k < n ensures NamedIn(w'.files, k) <==> NamedIn(w.files, k) { OldNames(w, e, k); }
    if Covered(w) && !Loses(w, e) {
      forall k | k in w'.made && IsPosted(w'.db, k) ensures NamedIn(w'.files, k) {
        if k >= n { NewIsNamed(w, e, k); }
      }
    }
    if Covered(w') {
      forall k | k in w.made && IsPosted(w.db, k) ensures NamedIn(w.files, k) { assert IsPosted(w'.db, k); }
      if Loses(w, e) { NewIsNotNamed(w, e); }
    }
  }

  lemma NewIsNamed(w: World, e: Event, k: EntryId)
    requires Ok(w) && Posts(w, e) && Allowed(e) && Fresh(w, e) && !Loses(w, e)
    requires k in Next(w, e).made && |w.db.entries| <= k < |Next(w, e).db.entries|
    ensures NamedIn(Next(w, e).files, k)
  {
    var w', m := Next(w, e), Apply(w.db, e.poIds).value.1;
    ReachedCases(w, e);
    ApplyEntries(w, e);
    ManifestNames(w.db, e.poIds);
    var p :| p in w'.files && w'.files[p] == Whole(m);
    assert NamesAt(w'.files, p, k);
  }

  lemma NewIsNotNamed(w: World, e: Event)
    requires Ok(w) && Posts(w, e) && Allowed(e) && Fresh(w, e) && Loses(w, e)
    ensures var k := |w.db.entries|;
            k in Next(w, e).made && IsPosted(Next(w, e).db, k) && !NamedIn(Next(w, e).files, k)
  {
    ReachedCases(w, e);
    ApplyEntries(w, e);
  }

  // ---------------------------------------------------------------------------------------------
  // Rollbacks and the application
  // ---------------------------------------------------------------------------------------------

  lemma RollbackCovers(w: World, e: Event)
    requires Ok(w) && e.RollbackRun?
    ensures Ok(Next(w, e)) && (Covered(Next(w, e)) <==> Covered(w))
  {
    var w' := Next(w, e);
    if w' != w {
      var path, m := e.path, w.files[e.path].manifest;
      RollbackMeaning(w.db, m);
      RollbackKeepsValid(w.db, m);
      assert |w'.db.entries| == |w.db.entries|;
      forall k | IsPosted(w.db, k) && !NamedIn(w.files, k) ensures IsPosted(w'.db, k) {
        assert k in Named(m) ==> NamesAt(w.files, path, k);
      }
      forall k | IsPosted(w'.db, k) ensures IsPosted(w.db, k) {}
    }
  }

  lemma BetweenCovers(w: World, e: Event)
    requires Ok(w) && e.Between? && Allowed(e)
    ensures Ok(Next(w, e)) && (Covered(Next(w, e)) <==> Covered(w))
  {
    var w' := Next(w, e);
    var ops := [e.op];
    assert ops[..0] == [];
    assert RunOps(w.db, ops) == Do(RunOps(w.db, []), e.op) && RunOps(w.db, []) == w.db;
    EveryHistoryKeepsValid(w.db, ops);
    EntriesKept(w.db, e.op);
    forall k | k in w.made ensures IsPosted(w'.db, k) <==> IsPosted(w.db, k) {}
  }

  lemma EntriesKept(db: Db, op: Op)
    requires !op.ApplyOp? && !op.RollbackOp?
    ensures |Do(db, op).entries| >= |db.entries|
    ensures forall k :: 0 <= k < |db.entries| ==> Do(db, op).entries[k] == db.entries[k]
  {}

  // ---------------------------------------------------------------------------------------------
  // Histories
  // ---------------------------------------------------------------------------------------------

  /** Every apply is made on a fresh path. */
  predicate AllFresh(w: World, events: seq<Event>)
    decreases |events|
  {
    events == [] || (Allowed(events[0]) && Fresh(w, events[0]) && AllFresh(Next(w, events[0]), events[1..]))
  }

  predicate NoneLoses(w: World, events: seq<Event>)
    decreases |events|
  {
    events == [] || (!Loses(w, events[0]) && NoneLoses(Next(w, events[0]), events[1..]))
  }

  lemma NextCovers(w: World, e: Event)
    requires Ok(w) && Allowed(e) && Fresh(w, e)
    ensures Ok(Next(w, e)) && (Covered(Next(w, e)) <==> Covered(w) && !Loses(w, e))
  {
    match e
    case ApplyRun(_, _, _, _) =>
      if Posts(w, e) {
        ApplyKeepsOk(w, e);
        ApplyCovers(w, e);
      }
    case RollbackRun(_, _) => RollbackCovers(w, e);
    case Between(_) => BetweenCovers(w, e);
  }

  /**
   Over any history of applies on fresh paths, dying in any state, rollbacks from the files and application activity,
   every posted entry that the script made is named by a whole manifest exactly when that was so at the start and no run
   ended with a commit that raised after committing.
   */
  lemma {:induction false} CoveredExactly(w: World, events: seq<Event>)
    requires Ok(w) && AllFresh(w, events)
    ensures Ok(Run(w, events)) && (Covered(Run(w, events)) <==> Covered(w) && NoneLoses(w, events))
    decreases |events|
  {
    if events != [] {
      NextCovers(w, events[0]);
      CoveredExactly(Next(w, events[0]), events[1..]);
    }
  }

  /** On a path that is not fresh, an old entry stays named by a completed run exactly when another file names it. */
  lemma ReuseForgets(w: World, e: Event, k: EntryId)
    requires Ok(w) && Posts(w, e) && e.ending == Completes && e.stop >= |TraceOf(w, e)| && k < |w.db.entries|
    ensures NamedIn(Next(w, e).files, k)
       <==> exists p :: p in w.files && p != e.path && p != TmpPath(e.path) && NamesAt(w.files, p, k)
  {
    var w', tmp := Next(w, e), TmpPath(e.path);
    var (after, m) := Apply(w.db, e.poIds).value;
    ManifestNames(w.db, e.poIds);
    TmpIsOther(e.path);
    assert |after.entries| > |w.db.entries|;
    assert Last(TraceOf(w, e)) == Durable(after, (w.files[tmp := Whole(m)] - {tmp})[e.path := Whole(m)]);
    assert w'.files == (w.files[tmp := Whole(m)] - {tmp})[e.path := Whole(m)];
    if p :| p in w.files && p != e.path && p != tmp && NamesAt(w.files, p, k) { assert NamesAt(w'.files, p, k); }
    if p :| p in w'.files && NamesAt(w'.files, p, k) {
      assert p != e.path && p != tmp;
      assert NamesAt(w.files, p, k);
    }
  }
}
