/**
 The completion poster statement by statement: concurrent transactions (completions of one order, backfills of many)
 that take the order's advisory lock, sweep, link, and commit, on a READ COMMITTED store, with rollbacks and new rows
 in between. A sweep sees committed rows and the transaction's own links; a link overwrites whatever is there at
 commit.
 */
module PostingLock {
  import opened Wrappers

  type OrderId = nat

  type RowId = nat

  type EntryId = nat

  /** A consumption or receipt row: its production order and its committed `journal_entry_id`. */
  datatype Row = Row(order: OrderId, link: Option<EntryId>)

  datatype Status = InFlight(txn: nat) | Posted | Voided | Gone

  datatype Entry = Entry(order: OrderId, swept: set<RowId>, status: Status)

  datatype Phase = Ready | Holding(order: OrderId) | Swept(order: OrderId, rows: set<RowId>) | Finished

  /** A transaction: the locks it holds until it ends, and the links it has written but not committed. */
  datatype Txn = Txn(phase: Phase, locks: set<OrderId>, links: map<RowId, EntryId>)

  datatype World = World(rows: seq<Row>, entries: seq<Entry>, txns: seq<Txn>)

  datatype Action =
    | Lock(t: nat, order: OrderId)
    | Sweep(t: nat, rows: set<RowId>)
    | Link(t: nat)                   // insert the entry, set the swept rows' journal_entry_id
    | Commit(t: nat)
    | Abort(t: nat)
    | Void(e: EntryId)               // a rollback's transaction voids a posted entry and unlinks its rows
    | Record(order: OrderId)         // a new inventory transaction

  predicate LockIsFree(w: World, t: nat, o: OrderId)
  {
    forall u :: 0 <= u < |w.txns| && u != t ==> o !in w.txns[u].locks
  }

  /** What transaction t sees as unjournaled; void and approval flags may hide any of it from a sweep. */
  predicate Sees(w: World, t: nat, o: OrderId, r: RowId)
    requires t < |w.txns|
  {
    r < |w.rows| && w.rows[r].order == o && w.rows[r].link.None? && r !in w.txns[t].links
  }

  function Become(w: World, t: nat, x: Txn): World
    requires t < |w.txns|
  {
    w.(txns := w.txns[t := x])
  }

  function LinkRows(rows: seq<Row>, links: map<RowId, EntryId>): seq<Row>
  {
    seq(|rows|, r requires 0 <= r < |rows| => if r in links then rows[r].(link := Some(links[r])) else rows[r])
  }

  function Unlink(rows: seq<Row>, e: EntryId): seq<Row>
  {
    seq(|rows|, r requires 0 <= r < |rows| => if rows[r].link == Some(e) then rows[r].(link := None) else rows[r])
  }

  /** The entries of transaction t get their final status. */
  function Settle(entries: seq<Entry>, t: nat, status: Status): seq<Entry>
  {
    seq(|entries|, e requires 0 <= e < |entries| =>
      if entries[e].status == InFlight(t) then entries[e].(status := status) else entries[e])
  }

  /** One statement, or None when it cannot happen here. `locking` is the poster with its advisory lock. */
  function Step(locking: bool, w: World, a: Action): Option<World>
  {
    match a
    case Lock(t, o) =>
      if t < |w.txns| && w.txns[t].phase.Ready? && (locking ==> LockIsFree(w, t, o))
      then Some(Become(w, t, w.txns[t].(phase := Holding(o), locks := w.txns[t].locks + {o}))) else None
    case Sweep(t, rows) =>
      if t < |w.txns| && w.txns[t].phase.Holding? && forall r :: r in rows ==> Sees(w, t, w.txns[t].phase.order, r)
      then Some(Become(w, t, w.txns[t].(phase := if rows == {} then Ready else Swept(w.txns[t].phase.order, rows))))
      else None
    case Link(t) =>
      if t < |w.txns| && w.txns[t].phase.Swept? then
        var x, e := w.txns[t], |w.entries|;
        Some(Become(w.(entries := w.entries + [Entry(x.phase.order, x.phase.rows, InFlight(t))]), t,
                    x.(phase := Ready, links := x.links + map r | r in x.phase.rows :: e)))
      else None
    case Commit(t) =>
      if t < |w.txns| && w.txns[t].phase.Ready? then
        Some(Become(w.(rows := LinkRows(w.rows, w.txns[t].links), entries := Settle(w.entries, t, Posted)), t,
                    Txn(Finished, {}, map[])))
      else None
    case Abort(t) =>
      if t < |w.txns| && !w.txns[t].phase.Finished?
      then Some(Become(w.(entries := Settle(w.entries, t, Gone)), t, Txn(Finished, {}, map[]))) else None
    case Void(e) =>
      if e < |w.entries| && w.entries[e].status == Posted
      then Some(w.(rows := Unlink(w.rows, e), entries := w.entries[e := w.entries[e].(status := Voided)])) else None
    case Record(o) => Some(w.(rows := w.rows + [Row(o, None)]))
  }

  /**
    A transaction that has ended does nothing; every other one can be given up, and then its entries count for
    nothing.
    */
  lemma EndedIsIdle(locking: bool, w: World, t: nat, o: OrderId, rows: set<RowId>)
    requires t < |w.txns|
    ensures w.txns[t].phase == Finished ==>
              && Step(locking, w, Lock(t, o)) == None && Step(locking, w, Sweep(t, rows)) == None
              && Step(locking, w, Link(t)) == None && Step(locking, w, Commit(t)) == None
              && Step(locking, w, Abort(t)) == None
    ensures w.txns[t].phase != Finished ==>
              && Step(locking, w, Abort(t)).Some?
              && var w' := Step(locking, w, Abort(t)).value;
                 && w'.rows == w.rows && w'.txns == w.txns[t := Txn(Finished, {}, map[])]
                 && |w'.entries| == |w.entries|
                 && forall e :: 0 <= e < |w.entries| ==>
                      w'.entries[e] == if w.entries[e].status == InFlight(t) then w.entries[e].(status := Gone)
                                       else w.entries[e]
    ensures Step(locking, w, Commit(t)).Some? ==> Step(locking, w, Commit(t)).value.txns[t] == Txn(Finished, {}, map[])
    ensures w.txns[t].phase == Holding(o) && Step(locking, w, Sweep(t, {})).Some? ==>
              Step(locking, w, Sweep(t, {})).value == w.(txns := w.txns[t := w.txns[t].(phase := Ready)])
    ensures w.txns[t].phase == Holding(o) ==> Step(locking, w, Sweep(t, {})).Some?
  {}

  /** A new row is seen by the next sweep of its order, whoever does it. */
  lemma RecordedIsSeen(locking: bool, w: World, o: OrderId, t: nat)
    requires t < |w.txns| && |w.rows| !in w.txns[t].links
    ensures Step(locking, w, Record(o)).Some?
    ensures var w' := Step(locking, w, Record(o)).value;
            && |w'.rows| == |w.rows| + 1 && w'.rows[..|w.rows|] == w.rows
            && w'.entries == w.entries && w'.txns == w.txns && Sees(w', t, o, |w.rows|)
  {}

  /** Exactly a posted entry can be voided: it stays, voided, and exactly its rows are unlinked. */
  lemma Voiding(locking: bool, w: World, e: EntryId)
    ensures Step(locking, w, Void(e)).Some? <==> e < |w.entries| && w.entries[e].status == Posted
    ensures Step(locking, w, Void(e)).Some? ==>
              var w' := Step(locking, w, Void(e)).value;
              && w'.txns == w.txns && w'.entries == w.entries[e := w.entries[e].(status := Voided)]
              && |w'.rows| == |w.rows|
              && forall r :: 0 <= r < |w.rows| ==>
                   w'.rows[r] == if w.rows[r].link == Some(e) then Row(w.rows[r].order, None) else w.rows[r]
  {}

  function Run(locking: bool, w: World, schedule: seq<Action>): Option<World>
    decreases |schedule|
  {
    if schedule == [] then Some(w)
    else match Step(locking, w, schedule[0])
      case None => None
      case Some(next) => Run(locking, next, schedule[1..])
  }

  /** No transaction has started; links and posted sweeps agree. */
  ghost predicate Initial(w: World)
  {
    && (forall t :: 0 <= t < |w.txns| ==> w.txns[t] == Txn(Ready, {}, map[]))
    && (forall e :: 0 <= e < |w.entries| ==> !w.entries[e].status.InFlight?)
    && LinksAgree(w)
  }

  predicate Sweeps(w: World, e: EntryId, r: RowId)
  {
    e < |w.entries| && w.entries[e].status == Posted && r in w.entries[e].swept
  }

  ghost predicate LinksAgree(w: World)
  {
    && (forall e: EntryId, r: RowId :: Sweeps(w, e, r) ==> r < |w.rows| && w.rows[r].link == Some(e))
    && (forall r :: 0 <= r < |w.rows| && w.rows[r].link.Some? ==> Sweeps(w, w.rows[r].link.value, r))
  }

  // ---------------------------------------------------------------------------------------------
  // The invariant under the lock
  // ---------------------------------------------------------------------------------------------

  /** Row r awaits t's commit: t holds its order's lock and nobody has linked it. */
  predicate Reserved(w: World, t: nat, o: OrderId, r: RowId)
    requires t < |w.txns|
  {
    r < |w.rows| && w.rows[r] == Row(o, None) && o in w.txns[t].locks
  }

  predicate TxnOk(w: World, t: nat)
    requires t < |w.txns|
  {
    var x := w.txns[t];
    && (x.phase.Holding? ==> x.phase.order in x.locks)
    && (x.phase.Swept? ==> forall r :: r in x.phase.rows ==> Reserved(w, t, x.phase.order, r) && r !in x.links)
    && (forall r :: r in x.links ==> Pending(w, t, x.links[r], r))
  }

  /** Entry e of t sweeps r and is not committed yet. */
  predicate Pending(w: World, t: nat, e: EntryId, r: RowId)
    requires t < |w.txns|
  {
    && e < |w.entries| && w.entries[e].status == InFlight(t) && r in w.entries[e].swept
    && Reserved(w, t, w.entries[e].order, r)
  }

  /** An entry in flight belongs to a transaction that has linked all it swept. */
  predicate EntryOk(w: World, e: EntryId)
    requires e < |w.entries|
  {
    w.entries[e].status.InFlight? ==>
      var t := w.entries[e].status.txn;
      t < |w.txns| && forall r :: r in w.entries[e].swept ==> r in w.txns[t].links && w.txns[t].links[r] == e
  }

  ghost predicate Inv(w: World)
  {
    && LinksAgree(w)
    && (forall t :: 0 <= t < |w.txns| ==> TxnOk(w, t))
    && (forall e :: 0 <= e < |w.entries| ==> EntryOk(w, e))
    && (forall t, u, o: OrderId ::
          0 <= t < |w.txns| && 0 <= u < |w.txns| && o in w.txns[t].locks && o in w.txns[u].locks ==> t == u)
  }

  lemma LockKeepsInv(w: World, a: Action)
    requires Inv(w) && (a.Lock? || a.Sweep?) && Step(true, w, a).Some?
    ensures Inv(Step(true, w, a).value)
  {
    var w' := Step(true, w, a).value;
    forall u | 0 <= u < |w'.txns| ensures TxnOk(w', u) { assert TxnOk(w, u); }
    forall e | 0 <= e < |w'.entries| ensures EntryOk(w', e) { assert EntryOk(w, e); }
    assert forall e: EntryId, r: RowId :: Sweeps(w', e, r) ==> Sweeps(w, e, r);
    forall r | 0 <= r < |w'.rows| && w'.rows[r].link.Some? ensures Sweeps(w', w'.rows[r].link.value, r) {
      assert Sweeps(w, w.rows[r].link.value, r);
    }
  }

  lemma LinkKeepsInv(w: World, a: Action)
    requires Inv(w) && a.Link? && Step(true, w, a).Some?
    ensures Inv(Step(true, w, a).value)
  {
    var w', n := Step(true, w, a).value, |w.entries|;
    assert TxnOk(w, a.t);
    assert forall e :: 0 <= e < n ==> w'.entries[e] == w.entries[e];
    forall u | 0 <= u < |w'.txns| ensures TxnOk(w', u) {
      assert TxnOk(w, u);
      forall r | r in w'.txns[u].links ensures Pending(w', u, w'.txns[u].links[r], r) {
        if u != a.t || r !in w.txns[u].phase.rows { assert Pending(w, u, w.txns[u].links[r], r); }
      }
    }
    forall e | 0 <= e < |w'.entries| ensures EntryOk(w', e) {
      if e < n { assert EntryOk(w, e); }
    }
    assert forall e: EntryId, r: RowId :: Sweeps(w', e, r) ==> Sweeps(w, e, r);
    forall r | 0 <= r < |w'.rows| && w'.rows[r].link.Some? ensures Sweeps(w', w'.rows[r].link.value, r) {
      assert Sweeps(w, w.rows[r].link.value, r);
    }
  }

  /** When t commits, no other transaction has its eye on a row that t links. */
  lemma OthersUnaffected(w: World, t: nat, u: nat, r: RowId)
    requires Inv(w) && t < |w.txns| && u < |w.txns| && u != t && r in w.txns[t].links
    ensures r !in w.txns[u].links
    ensures w.txns[u].phase.Swept? ==> r !in w.txns[u].phase.rows
  {
    assert TxnOk(w, t) && TxnOk(w, u);
    assert Pending(w, t, w.txns[t].links[r], r);
    assert r in w.txns[u].links ==> Pending(w, u, w.txns[u].links[r], r);
  }

  lemma CommitKeepsTxns(w: World, t: nat, u: nat)
    requires Inv(w) && Step(true, w, Commit(t)).Some? && u < |w.txns|
    ensures u < |Step(true, w, Commit(t)).value.txns| && TxnOk(Step(true, w, Commit(t)).value, u)
  {
    var w' := Step(true, w, Commit(t)).value;
    assert TxnOk(w, u);
    if u != t {
      forall r | r in w.txns[u].links ensures Pending(w', u, w.txns[u].links[r], r) {
        assert Pending(w, u, w.txns[u].links[r], r);
        if r in w.txns[t].links { OthersUnaffected(w, t, u, r); }
      }
      if w.txns[u].phase.Swept? {
        forall r | r in w.txns[u].phase.rows ensures Reserved(w', u, w.txns[u].phase.order, r) {
          if r in w.txns[t].links { OthersUnaffected(w, t, u, r); }
        }
      }
    }
  }

  lemma CommitKeepsLinks(w: World, t: nat)
    requires Inv(w) && Step(true, w, Commit(t)).Some?
    ensures LinksAgree(Step(true, w, Commit(t)).value)
  {
    var w' := Step(true, w, Commit(t)).value;
    assert TxnOk(w, t);
    forall e: EntryId, r: RowId | Sweeps(w', e, r) ensures r < |w'.rows| && w'.rows[r].link == Some(e) {
      if w.entries[e].status == Posted {
        assert Sweeps(w, e, r);
        assert r in w.txns[t].links ==> Pending(w, t, w.txns[t].links[r], r);
      } else {
        assert EntryOk(w, e);
        assert Pending(w, t, w.txns[t].links[r], r);
      }
    }
    forall r | 0 <= r < |w'.rows| && w'.rows[r].link.Some? ensures Sweeps(w', w'.rows[r].link.value, r) {
      if r in w.txns[t].links {
        assert Pending(w, t, w.txns[t].links[r], r);
      } else {
        assert Sweeps(w, w.rows[r].link.value, r);
      }
    }
  }

  lemma CommitKeepsInv(w: World, t: nat)
    requires Inv(w) && Step(true, w, Commit(t)).Some?
    ensures Inv(Step(true, w, Commit(t)).value)
  {
    var w' := Step(true, w, Commit(t)).value;
    CommitKeepsLinks(w, t);
    forall u | 0 <= u < |w'.txns| ensures TxnOk(w', u) { CommitKeepsTxns(w, t, u); }
    forall e | 0 <= e < |w'.entries| ensures EntryOk(w', e) { assert EntryOk(w, e); }
  }

  lemma AbortKeepsInv(w: World, t: nat)
    requires Inv(w) && Step(true, w, Abort(t)).Some?
    ensures Inv(Step(true, w, Abort(t)).value)
  {
    var w' := Step(true, w, Abort(t)).value;
    forall u | 0 <= u < |w'.txns| ensures TxnOk(w', u) {
      assert TxnOk(w, u);
      forall r | r in w'.txns[u].links ensures Pending(w', u, w'.txns[u].links[r], r) {
        assert Pending(w, u, w.txns[u].links[r], r);
      }
    }
    forall e | 0 <= e < |w'.entries| ensures EntryOk(w', e) { assert EntryOk(w, e); }
    assert forall e: EntryId, r: RowId :: Sweeps(w', e, r) ==> Sweeps(w, e, r);
    forall r | 0 <= r < |w'.rows| && w'.rows[r].link.Some? ensures Sweeps(w', w'.rows[r].link.value, r) {
      assert Sweeps(w, w.rows[r].link.value, r);
    }
  }

  lemma VoidKeepsInv(w: World, e: EntryId)
    requires Inv(w) && Step(true, w, Void(e)).Some?
    ensures Inv(Step(true, w, Void(e)).value)
  {
    var w' := Step(true, w, Void(e)).value;
    forall u | 0 <= u < |w'.txns| ensures TxnOk(w', u) {
      assert TxnOk(w, u);
      forall r | r in w'.txns[u].links ensures Pending(w', u, w'.txns[u].links[r], r) {
        assert Pending(w, u, w.txns[u].links[r], r);
      }
    }
    forall f | 0 <= f < |w'.entries| ensures EntryOk(w', f) { assert EntryOk(w, f); }
    forall f: EntryId, r: RowId | Sweeps(w', f, r) ensures r < |w'.rows| && w'.rows[r].link == Some(f) {
      assert Sweeps(w, f, r);
    }
    forall r | 0 <= r < |w'.rows| && w'.rows[r].link.Some? ensures Sweeps(w', w'.rows[r].link.value, r) {
      assert Sweeps(w, w.rows[r].link.value, r);
    }
  }

  lemma RecordKeepsInv(w: World, o: OrderId)
    requires Inv(w)
    ensures Inv(Step(true, w, Record(o)).value)
  {
    var w' := Step(true, w, Record(o)).value;
    forall u | 0 <= u < |w'.txns| ensures TxnOk(w', u) {
      assert TxnOk(w, u);
      forall r | r in w'.txns[u].links ensures Pending(w', u, w'.txns[u].links[r], r) {
        assert Pending(w, u, w.txns[u].links[r], r);
      }
    }
    forall f | 0 <= f < |w'.entries| ensures EntryOk(w', f) { assert EntryOk(w, f); }
    forall f: EntryId, r: RowId | Sweeps(w', f, r) ensures r < |w'.rows| && w'.rows[r].link == Some(f) {
      assert Sweeps(w, f, r);
    }
    forall r | 0 <= r < |w'.rows| && w'.rows[r].link.Some? ensures Sweeps(w', w'.rows[r].link.value, r) {
      assert Sweeps(w, w.rows[r].link.value, r);
    }
  }

  lemma StepKeepsInv(w: World, a: Action)
    requires Inv(w) && Step(true, w, a).Some?
    ensures Inv(Step(true, w, a).value)
  {
    match a
    case Link(_) => LinkKeepsInv(w, a);
    case Commit(t) => CommitKeepsInv(w, t);
    case Abort(t) => AbortKeepsInv(w, t);
    case Void(e) => VoidKeepsInv(w, e);
    case Record(o) => RecordKeepsInv(w, o);
    case _ => LockKeepsInv(w, a);
  }

  lemma {:induction false} RunKeepsInv(w: World, schedule: seq<Action>)
    requires Inv(w) && Run(true, w, schedule).Some?
    ensures Inv(Run(true, w, schedule).value)
    decreases |schedule|
  {
    if schedule != [] {
      StepKeepsInv(w, schedule[0]);
      RunKeepsInv(Step(true, w, schedule[0]).value, schedule[1..]);
    }
  }

  // ---------------------------------------------------------------------------------------------
  // Main results
  // ---------------------------------------------------------------------------------------------

  /** No row is swept by two posted entries, and links say which one swept it. */
  ghost predicate SweptOnce(w: World)
  {
    && (forall e: EntryId, f: EntryId, r: RowId :: Sweeps(w, e, r) && Sweeps(w, f, r) ==> e == f)
    && LinksAgree(w)
  }

  /** Under any interleaving of statements of completions, backfills and rollbacks, no row is posted twice. */
  lemma NoRowIsPostedTwice(w0: World, schedule: seq<Action>)
    requires Initial(w0) && Run(true, w0, schedule).Some?
    ensures SweptOnce(Run(true, w0, schedule).value)
  {
    RunKeepsInv(w0, schedule);
    var w := Run(true, w0, schedule).value;
    forall e: EntryId, f: EntryId, r: RowId | Sweeps(w, e, r) && Sweeps(w, f, r) ensures e == f {
      assert w.rows[r].link == Some(e) && w.rows[r].link == Some(f);
    }
  }

  lemma RunStep(locking: bool, w: World, a: Action, rest: seq<Action>, next: World)
    requires Step(locking, w, a) == Some(next)
    ensures Run(locking, w, [a] + rest) == Run(locking, next, rest)
  {
    assert ([a] + rest)[1..] == rest;
  }

  function OneRow(): World
  {
    World([Row(0, None)], [], [Txn(Ready, {}, map[]), Txn(Ready, {}, map[])])
  }

  function PostBoth(): seq<Action>
  {
    [Link(0)] + ([Link(1)] + ([Commit(0)] + ([Commit(1)] + [])))
  }

  /** Both transactions sweep before either commits. */
  function Race(): seq<Action>
  {
    [Lock(0, 0)] + ([Lock(1, 0)] + ([Sweep(0, {0})] + ([Sweep(1, {0})] + PostBoth())))
  }

  function BothSwept(): World
  {
    var x := Txn(Swept(0, {0}), {0}, map[]);
    World([Row(0, None)], [], [x, x])
  }

  lemma RaceSweeps()
    ensures Run(false, OneRow(), Race()) == Run(false, BothSwept(), PostBoth())
  {
    var start, held, swept := Txn(Ready, {}, map[]), Txn(Holding(0), {0}, map[]), Txn(Swept(0, {0}), {0}, map[]);
    var w1 := World([Row(0, None)], [], [held, start]);
    var w2 := World([Row(0, None)], [], [held, held]);
    var w3 := World([Row(0, None)], [], [swept, held]);
    assert {} + {0} == {0};
    assert [start, start][0 := held] == [held, start] && [held, start][1 := held] == [held, held];
    assert [held, held][0 := swept] == [swept, held] && [swept, held][1 := swept] == [swept, swept];
    RunStep(false, OneRow(), Lock(0, 0), [Lock(1, 0)] + ([Sweep(0, {0})] + ([Sweep(1, {0})] + PostBoth())), w1);
    RunStep(false, w1, Lock(1, 0), [Sweep(0, {0})] + ([Sweep(1, {0})] + PostBoth()), w2);
    RunStep(false, w2, Sweep(0, {0}), [Sweep(1, {0})] + PostBoth(), w3);
    RunStep(false, w3, Sweep(1, {0}), PostBoth(), BothSwept());
  }

  lemma RacePosts() returns (w: World)
    ensures Run(false, BothSwept(), PostBoth()) == Some(w) && Sweeps(w, 0, 0) && Sweeps(w, 1, 0)
  {
    var w5 := Step(false, BothSwept(), Link(0)).value;
    var w6 := Step(false, w5, Link(1)).value;
    var w7 := Step(false, w6, Commit(0)).value;
    w := Step(false, w7, Commit(1)).value;
    RunStep(false, w7, Commit(1), [], w);
    RunStep(false, w6, Commit(0), [Commit(1)] + [], w7);
    RunStep(false, w5, Link(1), [Commit(0)] + ([Commit(1)] + []), w6);
    RunStep(false, BothSwept(), Link(0), [Link(1)] + ([Commit(0)] + ([Commit(1)] + [])), w5);
  }

  /** Without the lock two completions of one order can both post its row. */
  lemma UnlockedRacePostsTwice()
    ensures Initial(OneRow()) && Run(false, OneRow(), Race()).Some? && !SweptOnce(Run(false, OneRow(), Race()).value)
  {
    RaceSweeps();
    var w := RacePosts();
  }

  ghost predicate AlwaysSweptOnce(locking: bool)
  {
    forall w0: World, schedule: seq<Action> :: Initial(w0) && Run(locking, w0, schedule).Some? ==>
      SweptOnce(Run(locking, w0, schedule).value)
  }

  /** The advisory lock is what makes posting safe: every schedule is safe exactly when it is taken. */
  lemma SafeExactlyUnderTheLock(locking: bool)
    ensures AlwaysSweptOnce(locking) <==> locking
  {
    if locking {
      forall w0: World, schedule: seq<Action> | Initial(w0) && Run(true, w0, schedule).Some?
        ensures SweptOnce(Run(true, w0, schedule).value)
      {
        NoRowIsPostedTwice(w0, schedule);
      }
    } else {
      UnlockedRacePostsTwice();
    }
  }
}
