/**
 The backfill script as it runs: one database session, one commit, and a manifest written around that commit. Every
 durable state the script passes through is recorded in `seen`, because the process may die in any of them.
 */
module BackfillRun {
  import opened Wrappers
  import opened CompletionGl
  import opened Backfill

  /** A manifest file may be cut short by a crash during its write. */
  datatype FileText = Partial | Whole(manifest: Manifest)

  type Files = map<string, FileText>

  /** What survives the process: the committed database and the files. */
  datatype Durable = Durable(db: Db, files: Files)

  /** The --backup-marker argument and the age of the file it names. */
  datatype Marker = NotGiven | NotAFile | Aged(seconds: int)

  const BACKUP_MARKER_MAX_AGE_SECONDS := 24 * 60 * 60

  predicate MarkerIsFresh(marker: Marker)
  {
    marker.Aged? && marker.seconds <= BACKUP_MARKER_MAX_AGE_SECONDS
  }

  /** A marker is accepted for a day, to the second, and only if it is a file. */
  lemma FreshForADay(marker: Marker)
    ensures MarkerIsFresh(marker) <==> marker != NotGiven && marker != NotAFile && marker.seconds <= 86_400
  {}

  function TmpPath(path: string): string
  {
    path + ".tmp"
  }

  /** Nothing is committed, or everything is and a complete manifest of it is at the final path or beside it. */
  predicate Recoverable(before: Db, after: Db, m: Manifest, path: string, d: Durable)
  {
    || d.db == before
    || (d.db == after && ((path in d.files && d.files[path] == Whole(m))
                          || (TmpPath(path) in d.files && d.files[TmpPath(path)] == Whole(m))))
  }

  // ---------------------------------------------------------------------------------------------
  // How a run ends, and the durable states on the way
  // ---------------------------------------------------------------------------------------------

  /** What a commit does. It may raise although the server committed: a connection lost, or an interrupt, after that. */
  datatype CommitOutcome = Committed | NotCommitted | CommittedButRaised

  datatype Ending =
    | WriteFails                          // the temporary file cannot be written
    | CommitRaises(outcome: CommitOutcome) // NotCommitted or CommittedButRaised
    | RenameFails
    | Completes

  /** The commit raises although the entries are committed. */
  predicate Unclear(ending: Ending)
  {
    ending == CommitRaises(CommittedButRaised)
  }

  /** Every durable state of the end of an apply, in order: temporary file, commit, rename. */
  function Trace(before: Db, after: Db, m: Manifest, path: string, files: Files, ending: Ending): (t: seq<Durable>)
    ensures t != []
  {
    var tmp := TmpPath(path);
    var written := files[tmp := Whole(m)];
    [Durable(before, files[tmp := Partial])]
    + match ending
      case WriteFails => []
      case CommitRaises(CommittedButRaised) =>
        [Durable(before, written), Durable(after, written), Durable(after, written - {tmp})]
      case CommitRaises(_) => [Durable(before, written), Durable(before, written - {tmp})]
      case RenameFails => [Durable(before, written), Durable(after, written)]
      case Completes =>
        [Durable(before, written), Durable(after, written), Durable(after, (written - {tmp})[path := Whole(m)])]
  }

  function Last(t: seq<Durable>): Durable
    requires t != []
  {
    t[|t| - 1]
  }

  function ResultOf(m: Manifest, ending: Ending): Result<Manifest, Error>
  {
    match ending
    case WriteFails => Failure(WriteFailed)
    case CommitRaises(_) => Failure(CommitFailed)
    case RenameFails => Failure(RenameFailed)
    case Completes => Success(m)
  }

  /** The loop that sets `journal_entry_id` on every swept row. */
  method LinkSwept(rows: seq<Row>, o: OrderId, e: EntryId) returns (linked: seq<Row>)
    ensures linked == Link(rows, o, e)
  {
    var ids := Sweep(rows, o);
    linked := rows;
    for k := 0 to |ids|
      invariant |linked| == |rows|
      invariant forall i :: 0 <= i < |rows| ==>
                  linked[i] == if i in ids[..k] then rows[i].(link := Some(e)) else rows[i]
    {
      assert ids[k] in ids;
      linked := linked[ids[k] := linked[ids[k]].(link := Some(e))];
      assert ids[..k + 1] == ids[..k] + [ids[k]];
    }
    assert ids[..|ids|] == ids;
  }

  class Script {
    var committed: Db      // what other sessions and later runs see
    var session: Db        // this session's uncommitted view
    var files: Files
    ghost var seen: seq<Durable>

    constructor (db: Db, files: Files)
      ensures committed == db && session == db && this.files == files && seen == [Durable(db, files)]
    {
      committed := db;
      session := db;
      this.files := files;
      seen := [Durable(db, files)];
    }

    /** Sweep, build the entry, link every swept row to it. */
    method PostCompletion(o: OrderId) returns (r: Result<Manifest, Error>)
      modifies this`session
      ensures Post(old(session), o).Success? ==>
                session == Post(old(session), o).value.0 && r == Success(Post(old(session), o).value.1)
      ensures Post(old(session), o).Failure? ==> r == Failure(Post(old(session), o).error)
    {
      var ids := Sweep(session.rows, o);
      if ids == [] {
        return Success([]);
      }
      var preview := BuildPreview(SweptRows(session.rows, o), ScrapCredits(session, o, |session.entries|));
      if preview.lines == [] {
        return Success([]);
      }
      if !Accepted(preview.lines) {
        return Failure(Unbalanced);
      }
      var e := |session.entries|;
      assert !Idle(session, o) && Accepted(OrderLines(session, o));
      var origin := OriginOf(preview.scrap, SweptRows(session.rows, o));
      session := session.(entries := session.entries + [Entry(Posted, Some(o), preview.lines, ids, origin)]);
      var rows := LinkSwept(session.rows, o, e);
      session := session.(rows := rows);
      r := Success([Item(o, e, ids, preview.lines, preview.scrap)]);
    }

    /** The posting loop of `run_apply`: nothing durable changes. */
    method PostEvery(os: seq<OrderId>) returns (r: Result<Manifest, Error>)
      modifies this`session
      ensures PostAll(old(session), os).Success? ==>
                session == PostAll(old(session), os).value.0 && r == Success(PostAll(old(session), os).value.1)
      ensures PostAll(old(session), os).Failure? ==> r == Failure(PostAll(old(session), os).error)
    {
      var manifest: Manifest := [];
      for i := 0 to |os|
        invariant PostAll(old(session), os[..i]) == Success((session, manifest))
      {
        assert os[..i + 1][..i] == os[..i];
        var posted := PostCompletion(os[i]);
        if posted.Failure? {
          PostAllFails(old(session), os, i + 1);
          return Failure(posted.error);
        }
        manifest := manifest + posted.value;
      }
      assert os[..|os|] == os;
      r := Success(manifest);
    }

    /** One durable state more. */
    method Record()
      modifies this`seen
      ensures seen == old(seen) + [Durable(committed, files)]
    {
      seen := seen + [Durable(committed, files)];
    }

    /** The end of `run_apply`. After any exception the caller closes the session. */
    method WriteAndCommit(path: string, manifest: Manifest, ending: Ending) returns (r: Result<Manifest, Error>)
      requires ending.CommitRaises? ==> ending.outcome != Committed
      modifies this
      ensures var trace := Trace(old(committed), old(session), manifest, path, old(files), ending);
              seen == old(seen) + trace && Durable(committed, files) == Last(trace)
      ensures session == committed && r == ResultOf(manifest, ending)
    {
      var tmp := TmpPath(path);
      files := files[tmp := Partial];
      Record();
      if ending == WriteFails {
        session := committed;
        return Failure(WriteFailed);
      }
      files := files[tmp := Whole(manifest)];
      assert files == old(files)[tmp := Whole(manifest)];
      Record();
      if ending != CommitRaises(NotCommitted) {
        committed := session;
        Record();
      }
      if ending.CommitRaises? {
        files := files - {tmp};
        session := committed;
        Record();
        return Failure(CommitFailed);
      }
      if ending == RenameFails {
        return Failure(RenameFailed);
      }
      // os.replace is one step.
      files := (files - {tmp})[path := Whole(manifest)];
      Record();
      r := Success(manifest);
    }

    /**
     `run_apply`. A stale marker, a failed posting or nothing to post leave everything as it was; otherwise the run goes
     through exactly the states of its trace, whose recoverability is the subject of the lemmas below.
     */
    method RunApply(path: string, marker: Marker, poIds: seq<OrderId>, ending: Ending)
      returns (r: Result<Manifest, Error>)
      requires session == committed && (ending.CommitRaises? ==> ending.outcome != Committed)
      modifies this
      ensures session == committed
      ensures var applied := Apply(old(committed), poIds);
              if !MarkerIsFresh(marker) then
                r == Failure(StaleMarker) && committed == old(committed) && files == old(files) && seen == old(seen)
              else if applied.Failure? then
                r == Failure(applied.error) && committed == old(committed) && files == old(files) && seen == old(seen)
              else if applied.value.1 == [] then
                r == Success([]) && committed == old(committed) && files == old(files) && seen == old(seen)
              else (
                var trace := Trace(old(committed), applied.value.0, applied.value.1, path, old(files), ending);
                && r == ResultOf(applied.value.1, ending)
                && seen == old(seen) + trace && Durable(committed, files) == Last(trace)
              )
    {
      if !MarkerIsFresh(marker) {
        return Failure(StaleMarker);
      }
      var posted := PostEvery(Candidates(session.rows, poIds, session.orders));
      if posted.Failure? || posted.value == [] {
        session := committed;
        return posted;
      }
      r := WriteAndCommit(path, posted.value, ending);
    }

    /** `run_rollback`: one transaction over the manifest's entries; the count is of those not voided before. */
    method RunRollback(path: string, commit: CommitOutcome) returns (r: Result<nat, Error>)
      requires session == committed
      modifies this
      ensures session == committed && files == old(files)
      ensures forall k :: |old(seen)| <= k < |seen| ==> seen[k] == Durable(committed, files)
      ensures |old(seen)| <= |seen| && seen[..|old(seen)|] == old(seen)
      ensures if path !in files || files[path].Partial? then
                r == Failure(ManifestUnreadable) && committed == old(committed)
              else if files[path].manifest == [] then
                r == Success(0) && committed == old(committed)
              else
                && committed == (if commit == NotCommitted then old(committed)
                                 else Rollback(old(committed), files[path].manifest))
                && r == (if commit == Committed then Success(VoidCount(old(committed), files[path].manifest))
                         else Failure(CommitFailed))
    {
      if path !in files || files[path].Partial? {
        return Failure(ManifestUnreadable);
      }
      var manifest := files[path].manifest;
      if manifest == [] {
        return Success(0);
      }
      var voided := 0;
      for i := 0 to |manifest|
        invariant committed == old(committed) && files == old(files) && seen == old(seen)
        invariant session == Rollback(old(committed), manifest[..i])
        invariant voided == VoidCount(old(committed), manifest[..i])
      {
        assert manifest[..i + 1][..i] == manifest[..i];
        var e := manifest[i].entry;
        if e < |session.entries| && session.entries[e].status != Voided {
          session := session.(entries := session.entries[e := session.entries[e].(status := Voided)]);
          session := session.(rows := Unlink(session.rows, e));
          voided := voided + 1;
        }
      }
      assert manifest[..|manifest|] == manifest;
      if commit == NotCommitted {
        session := committed;
        return Failure(CommitFailed);
      }
      committed := session;
      Record();
      if commit == CommittedButRaised {
        return Failure(CommitFailed);
      }
      r := Success(voided);
    }
  }

  /** How many entries a rollback voids. */
  function VoidCount(db: Db, m: Manifest): nat
  {
    if m == [] then 0
    else (
      var d, e := Rollback(db, m[..|m| - 1]), m[|m| - 1].entry;
      VoidCount(db, m[..|m| - 1]) + (if e < |d.entries| && d.entries[e].status != Voided then 1 else 0)
    )
  }

  lemma {:induction false} PostAllFails(db: Db, os: seq<OrderId>, k: nat)
    requires k <= |os| && PostAll(db, os[..k]).Failure?
    ensures PostAll(db, os) == PostAll(db, os[..k])
    decreases |os|
  {
    if k < |os| {
      assert os[..|os| - 1][..k] == os[..k];
      PostAllFails(db, os[..|os| - 1], k);
    } else {
      assert os[..k] == os;
    }
  }

  // ---------------------------------------------------------------------------------------------
  // What a crash leaves
  // ---------------------------------------------------------------------------------------------

  lemma TmpIsOther(path: string)
    ensures TmpPath(path) != path
  {
    assert |TmpPath(path)| == |path| + 4;
  }

  predicate AllRecoverable(before: Db, after: Db, m: Manifest, path: string, t: seq<Durable>)
  {
    forall k :: 0 <= k < |t| ==> Recoverable(before, after, m, path, t[k])
  }

  /** Whatever the commit does except raise after committing, the manifest is beside every committed state. */
  lemma ClearTraceIsRecoverable(before: Db, after: Db, m: Manifest, path: string, files: Files, ending: Ending)
    requires !Unclear(ending)
    ensures AllRecoverable(before, after, m, path, Trace(before, after, m, path, files, ending))
  {
    var tmp, written := TmpPath(path), files[TmpPath(path) := Whole(m)];
    assert tmp in written && written[tmp] == Whole(m);
    assert path in (written - {tmp})[path := Whole(m)];
  }

  /** The run has committed, and neither the final path nor the temporary one holds the manifest. */
  predicate ManifestLost(after: Db, m: Manifest, path: string, d: Durable)
  {
    && d.db == after
    && (path in d.files ==> d.files[path] != Whole(m))
    && TmpPath(path) !in d.files
  }

  /** If the commit raises after committing, the run ends without its manifest, unless an old copy of it is there. */
  lemma UnclearCommitLosesManifest(before: Db, after: Db, m: Manifest, path: string, files: Files, ending: Ending)
    requires Unclear(ending) && before != after && (path in files ==> files[path] != Whole(m))
    ensures var last := Last(Trace(before, after, m, path, files, ending));
            ManifestLost(after, m, path, last) && !Recoverable(before, after, m, path, last)
  {
    TmpIsOther(path);
  }

  lemma TraceIsRecoverableExactly(before: Db, after: Db, m: Manifest, path: string, files: Files, ending: Ending)
    requires before != after
    ensures AllRecoverable(before, after, m, path, Trace(before, after, m, path, files, ending))
       <==> !Unclear(ending) || (path in files && files[path] == Whole(m))
  {
    var trace := Trace(before, after, m, path, files, ending);
    if !Unclear(ending) {
      ClearTraceIsRecoverable(before, after, m, path, files, ending);
    } else if path in files && files[path] == Whole(m) {
      TmpIsOther(path);
    } else {
      UnclearCommitLosesManifest(before, after, m, path, files, ending);
      assert Last(trace) == trace[|trace| - 1];
    }
  }

  /**
   Every durable state of a run that posts something is recoverable exactly when a commit that raises has not committed
   (or a copy of this very manifest happened to be at the path before). On a fresh path: exactly when it has not.
   */
  lemma RecoverableExactly(before: Db, poIds: seq<OrderId>, path: string, files: Files, ending: Ending)
    requires Apply(before, poIds).Success? && Apply(before, poIds).value.1 != []
    ensures var (after, m) := Apply(before, poIds).value;
            var recoverable := AllRecoverable(before, after, m, path, Trace(before, after, m, path, files, ending));
            && (recoverable <==> !Unclear(ending) || (path in files && files[path] == Whole(m)))
            && (path !in files ==> (recoverable <==> !Unclear(ending)))
  {
    var (after, m) := Apply(before, poIds).value;
    PostAllAppends(before, Candidates(before.rows, poIds, before.orders));
    assert |after.entries| > |before.entries|;
    TraceIsRecoverableExactly(before, after, m, path, files, ending);
  }

  /**
   If a run dies after its commit, in any state of its trace, the manifest that survives names exactly the entries that
   were committed, and rolling back with it restores every link and every posted balance.
   */
  lemma CrashIsRecoverable(before: Db, poIds: seq<OrderId>, path: string, files: Files, ending: Ending, k: nat)
    requires Valid(before) && Apply(before, poIds).Success? && !Unclear(ending)
    requires var (after, m) := Apply(before, poIds).value;
             k < |Trace(before, after, m, path, files, ending)|
    ensures var (after, m) := Apply(before, poIds).value;
            var d := Trace(before, after, m, path, files, ending)[k];
            d.db == before || exists p :: Recovers(before, d, m, path, p)
  {
    var (after, m) := Apply(before, poIds).value;
    var d := Trace(before, after, m, path, files, ending)[k];
    ClearTraceIsRecoverable(before, after, m, path, files, ending);
    assert Recoverable(before, after, m, path, d);
    if d.db != before {
      ManifestRecovers(before, poIds);
      assert Recovers(before, d, m, path, if path in d.files && d.files[path] == Whole(m) then path else TmpPath(path));
    }
  }

  /** The manifest at p, the final path or the temporary one, undoes what was committed. */
  ghost predicate Recovers(before: Db, d: Durable, m: Manifest, path: string, p: string)
  {
    && (p == path || p == TmpPath(path)) && p in d.files && d.files[p] == Whole(m)
    && Undoes(before, d.db, m)
  }

  ghost predicate Undoes(before: Db, after: Db, m: Manifest)
  {
    && |before.entries| <= |after.entries|
    && (forall e :: e in Named(m) <==> |before.entries| <= e < |after.entries|)
    && Rollback(after, m).rows == before.rows
    && (forall a :: PostedBalance(Rollback(after, m).entries, a) == PostedBalance(before.entries, a))
  }

  lemma ManifestRecovers(before: Db, poIds: seq<OrderId>)
    requires Valid(before) && Apply(before, poIds).Success?
    ensures var (after, m) := Apply(before, poIds).value; Undoes(before, after, m)
  {
    var (after, m) := Apply(before, poIds).value;
    PostAllAppends(before, Candidates(before.rows, poIds, before.orders));
    NamedRange(before, after, m);
    ApplyThenRollback(before, poIds);
  }

  /**
   After such a loss the entries stay posted and running the script again does not bring the manifest back: it finds
   nothing to post.
   */
  lemma LostManifestStaysLost(before: Db, poIds: seq<OrderId>, path: string, files: Files)
    requires Valid(before) && Apply(before, poIds).Success? && Apply(before, poIds).value.1 != [] && path !in files
    ensures var (after, m) := Apply(before, poIds).value;
            var d := Last(Trace(before, after, m, path, files, CommitRaises(CommittedButRaised)));
            && ManifestLost(after, m, path, d) && path !in d.files
            && |d.db.entries| == |before.entries| + |m|
            && Apply(d.db, poIds) == Success((d.db, []))
  {
    var (after, m) := Apply(before, poIds).value;
    PostAllAppends(before, Candidates(before.rows, poIds, before.orders));
    UnclearCommitLosesManifest(before, after, m, path, files, CommitRaises(CommittedButRaised));
    SecondApplyPostsNothing(before, poIds);
  }

  /** One received unit of one order is enough to get there. */
  lemma ManifestCanBeLost(path: string)
    ensures var row := Row(Some(0), Receipt, FinishedGoodItem, false, 500, false, false, None);
            var before := Db([row], [], 1, {});
            && Valid(before) && Apply(before, []).Success?
            && var (after, m) := Apply(before, []).value;
               var trace := Trace(before, after, m, path, map[], CommitRaises(CommittedButRaised));
               |m| == 1 && ManifestLost(after, m, path, Last(trace))
  {
    var row := Row(Some(0), Receipt, FinishedGoodItem, false, 500, false, false, None);
    var before := Db([row], [], 1, {});
    OneReceipt(row, before);
    LostManifestStaysLost(before, [], path, map[]);
  }

  lemma OnePosting(db: Db, o: OrderId)
    requires Post(db, o).Success?
    ensures PostAll(db, [o]) == Post(db, o)
  {
    assert [o][..0] == [];
    assert PostAll(db, []) == Success((db, []));
    var none: Manifest := [];
    assert none + Post(db, o).value.1 == Post(db, o).value.1;
  }

  lemma OneReceipt(row: Row, db: Db)
    requires row == Row(Some(0), Receipt, FinishedGoodItem, false, 500, false, false, None)
    requires db == Db([row], [], 1, {})
    ensures Apply(db, []).Success? && |Apply(db, []).value.1| == 1
  {
    var o: OrderId, n := 0, db.orders;
    OneSwept(row, o);
    OneRowPosts(db, row, o);
    OnePosting(db, o);
    assert Candidates(db.rows, [], n) == [o] by {
      var keep := CandidateTest(db.rows, []);
      assert keep(o) && Filtered(keep, n - 1) == [];
    }
  }
}
