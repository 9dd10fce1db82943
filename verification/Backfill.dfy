/**
 The production-completion GL backfill as a ledger state machine: apply, roll back, apply again, in any order and with
 any manifests. Database ids are positions: row i is `rows[i]`, entry e is `entries[e]`, and a new entry is appended.
 */
module Backfill {
  import opened Wrappers
  import opened CompletionGl

  datatype Status = Draft | Posted | Voided

  /**
   What posted an entry: a completion that counted S, let something slip on WIP and is off balance by a gap (both zero
   when no total is negative), a scrap of one item, an operation scrap of these
   material and labor amounts (in cents, before they were rounded into the columns), or anything else.
   */
  datatype Origin =
    | Completion(counted: int, slip: int, gap: int)
    | Scrap
    | OperationScrap(material: real, labor: real)
    | Other

  /** `source` is the production order an entry was posted for; `swept` the rows it was linked to when posted. */
  datatype Entry = Entry(status: Status, source: Option<OrderId>, lines: seq<Line>, swept: seq<nat>, origin: Origin)

  /** Production orders are 0..orders; `scrapRecords` pairs an order with a journal entry that a scrap record names. */
  datatype Db = Db(rows: seq<Row>, entries: seq<Entry>, orders: nat, scrapRecords: set<(OrderId, EntryId)>)

  datatype Item = Item(order: OrderId, entry: EntryId, ids: seq<nat>, lines: seq<Line>, scrap: int)

  type Manifest = seq<Item>

  datatype Error = StaleMarker | Unbalanced | WriteFailed | CommitFailed | RenameFailed | ManifestUnreadable

  // ---------------------------------------------------------------------------------------------
  // The sweep
  // ---------------------------------------------------------------------------------------------

  function Sweep(rows: seq<Row>, o: OrderId): (ids: seq<nat>)
    ensures forall i :: i in ids <==> 0 <= i < |rows| && Sweepable(rows[i], o)
  {
    if rows == [] then []
    else Sweep(rows[..|rows| - 1], o) + (if Sweepable(rows[|rows| - 1], o) then [|rows| - 1] else [])
  }

  predicate Ascending(s: seq<nat>)
  {
    forall j, k :: 0 <= j < k < |s| ==> s[j] < s[k]
  }

  lemma AppendAscending(s: seq<nat>, x: nat)
    requires Ascending(s) && forall y :: y in s ==> y < x
    ensures Ascending(s + [x])
  {
    forall j, k | 0 <= j < k < |s| + 1 ensures (s + [x])[j] < (s + [x])[k] {
      assert s[j] in s;
    }
  }

  lemma {:induction false} SweepAscending(rows: seq<Row>, o: OrderId)
    ensures Ascending(Sweep(rows, o))
  {
    if rows != [] {
      SweepAscending(rows[..|rows| - 1], o);
      AppendAscending(Sweep(rows[..|rows| - 1], o), |rows| - 1);
    }
  }

  function SweptRows(rows: seq<Row>, o: OrderId): seq<Row>
  {
    if rows == [] then []
    else SweptRows(rows[..|rows| - 1], o) + (if Sweepable(rows[|rows| - 1], o) then [rows[|rows| - 1]] else [])
  }

  /** The swept rows are the rows at the swept positions. */
  lemma {:induction false} SweptRowsAre(rows: seq<Row>, o: OrderId)
    ensures |SweptRows(rows, o)| == |Sweep(rows, o)|
    ensures forall k :: 0 <= k < |Sweep(rows, o)| ==>
              Sweep(rows, o)[k] in Sweep(rows, o) && SweptRows(rows, o)[k] == rows[Sweep(rows, o)[k]]
  {
    if rows != [] {
      SweptRowsAre(rows[..|rows| - 1], o);
      assert forall k :: 0 <= k < |Sweep(rows, o)| ==> Sweep(rows, o)[k] in Sweep(rows, o);
    }
  }

  function WipCredits(lines: seq<Line>): nat
  {
    if lines == [] then 0
    else (
      var l := lines[|lines| - 1];
      WipCredits(lines[..|lines| - 1]) + (if l.account == Wip && l.side == Credit then Positive(l.amount) else 0)
    )
  }

  /** S: WIP credits of the order's scrap entries, among the first k entries. */
  function ScrapCredits(db: Db, o: OrderId, k: nat): int
    requires k <= |db.entries|
  {
    if k == 0 then 0
    else (
      var e := db.entries[k - 1];
      ScrapCredits(db, o, k - 1)
      + (if (o, k - 1) in db.scrapRecords && e.source == Some(o) && e.status != Voided then WipCredits(e.lines) else 0)
    )
  }

  function ScrapOf(db: Db, o: OrderId): int
  {
    ScrapCredits(db, o, |db.entries|)
  }

  function OrderLines(db: Db, o: OrderId): seq<Line>
  {
    Lines(SweptRows(db.rows, o), ScrapOf(db, o))
  }

  /** Nothing to post: no sweepable row, or only zero-cost ones. */
  predicate Idle(db: Db, o: OrderId)
  {
    Sweep(db.rows, o) == [] || OrderLines(db, o) == []
  }

  function Link(rows: seq<Row>, o: OrderId, e: EntryId): seq<Row>
  {
    seq(|rows|, i requires 0 <= i < |rows| => if Sweepable(rows[i], o) then rows[i].(link := Some(e)) else rows[i])
  }

  function OriginOf(counted: int, rows: seq<Row>): Origin
  {
    Completion(counted, Slip(rows), EntryGap(rows))
  }

  /** `create_production_completion_gl_entry_with_preview` for one order. */
  function Post(db: Db, o: OrderId): Result<(Db, seq<Item>), Error>
  {
    var ids, lines, e := Sweep(db.rows, o), OrderLines(db, o), |db.entries|;
    if Idle(db, o) then Success((db, []))
    else if !Accepted(lines) then Failure(Unbalanced)
    else (
      var entry := Entry(Posted, Some(o), lines, ids, OriginOf(ScrapOf(db, o), SweptRows(db.rows, o)));
      Success((db.(rows := Link(db.rows, o, e), entries := db.entries + [entry]),
               [Item(o, e, ids, lines, ScrapOf(db, o))]))
    )
  }

  // ---------------------------------------------------------------------------------------------
  // Apply and rollback
  // ---------------------------------------------------------------------------------------------

  /** The numbers below k that pass a test, ascending. */
  function Filtered(keep: nat -> bool, k: nat): seq<nat>
  {
    if k == 0 then [] else Filtered(keep, k - 1) + (if keep(k - 1) then [k - 1] else [])
  }

  lemma {:induction false} FilteredMeaning(keep: nat -> bool, k: nat)
    ensures forall x: nat :: x in Filtered(keep, k) <==> x < k && keep(x)
    ensures Ascending(Filtered(keep, k))
  {
    if k > 0 {
      FilteredMeaning(keep, k - 1);
      if keep(k - 1) { AppendAscending(Filtered(keep, k - 1), k - 1); }
    }
  }

  predicate IsCandidate(rows: seq<Row>, poIds: seq<OrderId>, o: OrderId)
  {
    Sweep(rows, o) != [] && (poIds == [] || o in poIds)
  }

  function CandidateTest(rows: seq<Row>, poIds: seq<OrderId>): OrderId -> bool
  {
    (o: OrderId) => IsCandidate(rows, poIds, o)
  }

  /** The orders below k that have a sweepable row and pass the --po-id filter, ascending. */
  function Candidates(rows: seq<Row>, poIds: seq<OrderId>, k: nat): (os: seq<OrderId>)
    ensures forall o :: o in os <==> 0 <= o < k && IsCandidate(rows, poIds, o)
  {
    var keep := CandidateTest(rows, poIds);
    FilteredMeaning(keep, k);
    Filtered(keep, k)
  }

  lemma CandidatesAscending(rows: seq<Row>, poIds: seq<OrderId>, k: nat)
    ensures Ascending(Candidates(rows, poIds, k))
  {
    FilteredMeaning(CandidateTest(rows, poIds), k);
  }

  /** Post every order in turn, all in one transaction. */
  function PostAll(db: Db, os: seq<OrderId>): Result<(Db, Manifest), Error>
  {
    if os == [] then Success((db, []))
    else match PostAll(db, os[..|os| - 1])
      case Failure(e) => Failure(e)
      case Success((d, m)) =>
        match Post(d, os[|os| - 1])
        case Failure(e) => Failure(e)
        case Success((d', m')) => Success((d', m + m'))
  }

  function Apply(db: Db, poIds: seq<OrderId>): Result<(Db, Manifest), Error>
  {
    PostAll(db, Candidates(db.rows, poIds, db.orders))
  }

  function Unlink(rows: seq<Row>, e: EntryId): seq<Row>
  {
    seq(|rows|, i requires 0 <= i < |rows| => if rows[i].link == Some(e) then rows[i].(link := None) else rows[i])
  }

  function VoidOne(db: Db, e: EntryId): Db
  {
    if e >= |db.entries| || db.entries[e].status == Voided then db
    else db.(rows := Unlink(db.rows, e), entries := db.entries[e := db.entries[e].(status := Voided)])
  }

  /** Rolling back any manifest: the one just written, an old one, one used before, or one from elsewhere. */
  function Rollback(db: Db, m: Manifest): Db
  {
    if m == [] then db else VoidOne(Rollback(db, m[..|m| - 1]), m[|m| - 1].entry)
  }

  /** The script's two operations, and what the application does to the same tables in between. */
  datatype Op =
    | ApplyOp(poIds: seq<OrderId>)
    | RollbackOp(manifest: Manifest)
    | CompleteOp(order: OrderId)                          // the application posts one order's completion
    | RecordOp(row: Row)                                  // a new inventory transaction, not linked yet
    | FlagOp(i: nat, voided: bool, held: bool)            // a transaction is voided, held or approved
    | ScrapOp(order: OrderId, cost: real, fromStock: bool) // scrap from WIP, or of finished goods in stock
    | OperationScrapOp(order: OrderId, materials: seq<real>, labor: real)
    | JournalOp(source: Option<OrderId>, lines: seq<Line>, rows: seq<Row>)  // any other entry, with rows of its own

  /** A Numeric(10, 2) column: rounded to cents, half away from zero. */
  function RoundCents(x: real): (n: int)
    ensures x >= 0.0 ==> n >= 0
  {
    if x >= 0.0 then (x + 0.5).Floor else -(0.5 - x).Floor
  }

  /** Append a posted entry and the rows that are linked to it. */
  function AppendEntry(db: Db, source: Option<OrderId>, lines: seq<Line>, rows: seq<Row>, origin: Origin): Db
  {
    var n, e := |db.rows|, |db.entries|;
    var linked := seq(|rows|, i requires 0 <= i < |rows| => rows[i].(link := Some(e)));
    var ids := seq(|rows|, i requires 0 <= i < |rows| => n + i);
    db.(rows := db.rows + linked, entries := db.entries + [Entry(Posted, source, lines, ids, origin)])
  }

  function ScrapLines(cost: real, fromStock: bool): seq<Line>
  {
    [Line(ScrapExpense, RoundCents(cost), Debit),
     Line(if fromStock then FinishedGoods else Wip, RoundCents(cost), Credit)]
  }

  /**
   `scrap_materials` and `scrap_finished_goods`: a row, and for a positive cost an entry that the scrap record names.
   */
  function RecordScrap(db: Db, o: OrderId, cost: real, fromStock: bool): Db
  {
    var row := Row(Some(o), OtherMovement, OtherItem, false, RoundCents(cost), false, false, None);
    if cost <= 0.0 then db.(rows := db.rows + [row])
    else AppendEntry(db, Some(o), ScrapLines(cost, fromStock), [row], Scrap)
         .(scrapRecords := db.scrapRecords + {(o, |db.entries|)})
  }

  function TotalOf(xs: seq<real>): real
  {
    if xs == [] then 0.0 else TotalOf(xs[..|xs| - 1]) + xs[|xs| - 1]
  }

  function DebitIf(x: real): seq<Line>
  {
    if x > 0.0 then [Line(ScrapExpense, RoundCents(x), Debit)] else []
  }

  function OperationScrapLines(material: real, labor: real): seq<Line>
  {
    DebitIf(material) + DebitIf(labor) + [Line(Wip, RoundCents(material + labor), Credit)]
  }

  function PositivePart(x: real): real
  {
    if x > 0.0 then x else 0.0
  }

  /** The entry is wanted, and its amounts, before rounding, are within a cent of balance. */
  predicate OperationScrapPosts(material: real, labor: real)
  {
    material + labor > 0.0 && -1.0 <= PositivePart(material) + PositivePart(labor) - (material + labor) <= 1.0
  }

  /**
   `process_operation_scrap`: one entry for material and labor together, and a scrap record for each material row. With
   no material row the entry is posted and nothing records it. An entry that does not balance is a ValueError.
   */
  function RecordOperationScrap(db: Db, o: OrderId, materials: seq<real>, labor: real): Db
  {
    var material := TotalOf(materials);
    if !OperationScrapPosts(material, labor) then db
    else AppendEntry(db, Some(o), OperationScrapLines(material, labor), [], OperationScrap(material, labor))
         .(scrapRecords := if materials == [] then db.scrapRecords else db.scrapRecords + {(o, |db.entries|)})
  }

  function Do(db: Db, op: Op): Db
  {
    match op
    case ApplyOp(poIds) => (match Apply(db, poIds) case Success((d, _)) => d case Failure(_) => db)
    case RollbackOp(m) => Rollback(db, m)
    case CompleteOp(o) => (match Post(db, o) case Success((d, _)) => d case Failure(_) => db)
    case RecordOp(row) => db.(rows := db.rows + [row.(link := None)])
    case ScrapOp(o, cost, fromStock) => RecordScrap(db, o, cost, fromStock)
    case OperationScrapOp(o, materials, labor) => RecordOperationScrap(db, o, materials, labor)
    case JournalOp(source, lines, rows) => if Accepted(lines) then AppendEntry(db, source, lines, rows, Other) else db
    case FlagOp(i, voided, held) =>
      if i < |db.rows| then db.(rows := db.rows[i := db.rows[i].(voided := voided, held := held)]) else db
  }

  /** A new row arrives unlinked at the end; a flag changes one row's void and hold marks and nothing else. */
  lemma RowsChange(db: Db, row: Row, i: nat, voided: bool, held: bool)
    ensures Do(db, RecordOp(row)) == db.(rows := db.rows + [row.(link := None)])
    ensures i >= |db.rows| ==> Do(db, FlagOp(i, voided, held)) == db
    ensures i < |db.rows| ==>
              var r := db.rows[i];
              Do(db, FlagOp(i, voided, held))
              == db.(rows := db.rows[i := Row(r.order, r.kind, r.item, r.labor, r.cost, voided, held, r.link)])
  {}

  function RunOps(db: Db, ops: seq<Op>): Db
  {
    if ops == [] then db else Do(RunOps(db, ops[..|ops| - 1]), ops[|ops| - 1])
  }

  // ---------------------------------------------------------------------------------------------
  // The ledger invariant
  // ---------------------------------------------------------------------------------------------

  /** Entry e is posted and swept row i. */
  predicate Owns(db: Db, e: EntryId, i: nat)
  {
    e < |db.entries| && db.entries[e].status == Posted && i in db.entries[e].swept
  }

  /** Links and posted sweeps say the same thing. */
  ghost predicate Valid(db: Db)
  {
    && (forall i :: 0 <= i < |db.rows| && db.rows[i].link.Some? ==> Owns(db, db.rows[i].link.value, i))
    && (forall e: EntryId, i: nat :: Owns(db, e, i) ==> i < |db.rows| && db.rows[i].link == Some(e))
    && (forall p :: p in db.scrapRecords ==> p.1 < |db.entries|)
  }

  /** What Valid means: each linked row is in exactly one posted entry's sweep, and no row links to a voided entry. */
  lemma SweptExactlyOnce(db: Db, i: nat)
    requires Valid(db) && i < |db.rows|
    ensures db.rows[i].link.Some? <==> exists e: EntryId :: Owns(db, e, i)
    ensures forall e: EntryId, e': EntryId :: Owns(db, e, i) && Owns(db, e', i) ==> e == e'
    ensures forall e :: db.rows[i].link == Some(e) ==> e < |db.entries| && db.entries[e].status == Posted
  {
    if db.rows[i].link.Some? { assert Owns(db, db.rows[i].link.value, i); }
  }

  lemma PostKeepsValid(db: Db, o: OrderId)
    requires Valid(db) && Post(db, o).Success?
    ensures Valid(Post(db, o).value.0)
  {
    var d := Post(db, o).value.0;
    if !Idle(db, o) {
      var n := |db.entries|;
      assert forall e :: 0 <= e < n ==> d.entries[e] == db.entries[e];
      forall e: EntryId, i: nat | Owns(d, e, i) ensures i < |d.rows| && d.rows[i].link == Some(e) {
        if e < n { assert Owns(db, e, i); }
      }
      forall i | 0 <= i < |d.rows| && d.rows[i].link.Some? ensures Owns(d, d.rows[i].link.value, i) {
        if !Sweepable(db.rows[i], o) { assert Owns(db, db.rows[i].link.value, i); }
      }
    }
  }

  lemma VoidOneKeepsValid(db: Db, e: EntryId)
    requires Valid(db)
    ensures Valid(VoidOne(db, e))
  {
    var d := VoidOne(db, e);
    if d != db {
      forall f: EntryId, i: nat | Owns(d, f, i) ensures i < |d.rows| && d.rows[i].link == Some(f) {
        assert Owns(db, f, i);
      }
      forall i | 0 <= i < |d.rows| && d.rows[i].link.Some? ensures Owns(d, d.rows[i].link.value, i) {
        assert Owns(db, db.rows[i].link.value, i);
      }
    }
  }

  lemma {:induction false} PostAllKeepsValid(db: Db, os: seq<OrderId>)
    requires Valid(db) && PostAll(db, os).Success?
    ensures Valid(PostAll(db, os).value.0)
  {
    if os != [] {
      PostAllKeepsValid(db, os[..|os| - 1]);
      PostKeepsValid(PostAll(db, os[..|os| - 1]).value.0, os[|os| - 1]);
    }
  }

  lemma {:induction false} RollbackKeepsValid(db: Db, m: Manifest)
    requires Valid(db)
    ensures Valid(Rollback(db, m))
  {
    if m != [] {
      RollbackKeepsValid(db, m[..|m| - 1]);
      VoidOneKeepsValid(Rollback(db, m[..|m| - 1]), m[|m| - 1].entry);
    }
  }

  lemma AppendKeepsValid(db: Db, source: Option<OrderId>, lines: seq<Line>, rows: seq<Row>, origin: Origin)
    requires Valid(db)
    ensures Valid(AppendEntry(db, source, lines, rows, origin))
  {
    var d, n := AppendEntry(db, source, lines, rows, origin), |db.entries|;
    assert forall e :: 0 <= e < n ==> d.entries[e] == db.entries[e];
    assert d.entries[n].swept == seq(|rows|, i requires 0 <= i < |rows| => |db.rows| + i);
    forall e: EntryId, i: nat | Owns(d, e, i) ensures i < |d.rows| && d.rows[i].link == Some(e) {
      if e < n { assert Owns(db, e, i); }
    }
    forall i | 0 <= i < |d.rows| && d.rows[i].link.Some? ensures Owns(d, d.rows[i].link.value, i) {
      if i < |db.rows| {
        assert Owns(db, db.rows[i].link.value, i);
      } else {
        assert d.entries[n].swept[i - |db.rows|] == i;
      }
    }
  }

  lemma NamingKeepsValid(db: Db, records: set<(OrderId, EntryId)>)
    requires Valid(db) && forall p :: p in records ==> p.1 < |db.entries|
    ensures Valid(db.(scrapRecords := records))
  {
    var d := db.(scrapRecords := records);
    assert forall e: EntryId, i: nat :: Owns(d, e, i) <==> Owns(db, e, i);
  }

  lemma ScrapKeepsValid(db: Db, o: OrderId, cost: real, fromStock: bool)
    requires Valid(db)
    ensures Valid(RecordScrap(db, o, cost, fromStock))
  {
    var row := Row(Some(o), OtherMovement, OtherItem, false, RoundCents(cost), false, false, None);
    if cost <= 0.0 {
      RecordKeepsValid(db, RecordOp(row));
    } else {
      var lines := ScrapLines(cost, fromStock);
      AppendKeepsValid(db, Some(o), lines, [row], Scrap);
      NamingKeepsValid(AppendEntry(db, Some(o), lines, [row], Scrap), db.scrapRecords + {(o, |db.entries|)});
    }
  }

  lemma OperationScrapKeepsValid(db: Db, o: OrderId, materials: seq<real>, labor: real)
    requires Valid(db)
    ensures Valid(RecordOperationScrap(db, o, materials, labor))
  {
    var material := TotalOf(materials);
    var lines, origin := OperationScrapLines(material, labor), OperationScrap(material, labor);
    AppendKeepsValid(db, Some(o), lines, [], origin);
    NamingKeepsValid(AppendEntry(db, Some(o), lines, [], origin), db.scrapRecords + {(o, |db.entries|)});
  }

  lemma RecordKeepsValid(db: Db, op: Op)
    requires Valid(db) && (op.RecordOp? || op.FlagOp?)
    ensures Valid(Do(db, op))
  {
    var d := Do(db, op);
    forall e: EntryId, i: nat | Owns(d, e, i) ensures i < |d.rows| && d.rows[i].link == Some(e) {
      assert Owns(db, e, i);
    }
    forall i | 0 <= i < |d.rows| && d.rows[i].link.Some? ensures Owns(d, d.rows[i].link.value, i) {
      assert Owns(db, db.rows[i].link.value, i);
    }
  }

  /** Over any sequence of applies, rollbacks and application activity, whatever the manifests, the invariant holds. */
  lemma {:induction false} EveryHistoryKeepsValid(db: Db, ops: seq<Op>)
    requires Valid(db)
    ensures Valid(RunOps(db, ops))
  {
    if ops != [] {
      var before, op := RunOps(db, ops[..|ops| - 1]), ops[|ops| - 1];
      EveryHistoryKeepsValid(db, ops[..|ops| - 1]);
      match op
      case RollbackOp(m) => RollbackKeepsValid(before, m);
      case ApplyOp(poIds) =>
        if Apply(before, poIds).Success? { PostAllKeepsValid(before, Candidates(before.rows, poIds, before.orders)); }
      case CompleteOp(o) => if Post(before, o).Success? { PostKeepsValid(before, o); }
      case RecordOp(_) => RecordKeepsValid(before, op);
      case FlagOp(_, _, _) => RecordKeepsValid(before, op);
      case ScrapOp(o, cost, fromStock) => ScrapKeepsValid(before, o, cost, fromStock);
      case OperationScrapOp(o, materials, labor) => OperationScrapKeepsValid(before, o, materials, labor);
      case JournalOp(source, lines, rows) => AppendKeepsValid(before, source, lines, rows, Other);
    }
  }

  // ---------------------------------------------------------------------------------------------
  // Balances of the posted entries
  // ---------------------------------------------------------------------------------------------

  /** Debits minus credits over the posted entries: in all, and on one account. */
  function PostedImbalance(entries: seq<Entry>): int
  {
    if entries == [] then 0
    else (
      var e := entries[|entries| - 1];
      PostedImbalance(entries[..|entries| - 1]) + (if e.status == Posted then Imbalance(e.lines) else 0)
    )
  }

  function PostedBalance(entries: seq<Entry>, a: Account): int
  {
    if entries == [] then 0
    else (
      var e := entries[|entries| - 1];
      PostedBalance(entries[..|entries| - 1], a) + (if e.status == Posted then Net(e.lines, a) else 0)
    )
  }

  lemma {:induction false} SweptCosts(rows: seq<Row>, o: OrderId)
    requires CostsNonNegative(rows)
    ensures CostsNonNegative(SweptRows(rows, o))
  {
    if rows != [] {
      SweptCosts(rows[..|rows| - 1], o);
    }
  }

  /** With non-negative costs a posting succeeds, and what it posts is a balanced entry that leaves its S on WIP. */
  lemma PostSucceeds(db: Db, o: OrderId)
    requires CostsNonNegative(db.rows)
    ensures Post(db, o).Success? && CostsNonNegative(Post(db, o).value.0.rows)
    ensures Imbalance(OrderLines(db, o)) == 0 && Net(OrderLines(db, o), Wip) == ScrapOf(db, o)
  {
    SweptCosts(db.rows, o);
    CompletionEntry(SweptRows(db.rows, o), ScrapOf(db, o));
  }

  // ---------------------------------------------------------------------------------------------
  // What a rollback does, for any manifest
  // ---------------------------------------------------------------------------------------------

  function Named(m: Manifest): set<EntryId>
  {
    set k | 0 <= k < |m| :: m[k].entry
  }

  /** Exactly the named entries are voided, and exactly the rows linked to them are unlinked. */
  function RolledBack(db: Db, named: set<EntryId>): Db
  {
    db.(rows := seq(|db.rows|, i requires 0 <= i < |db.rows| =>
                  if db.rows[i].link.Some? && db.rows[i].link.value in named
                  then db.rows[i].(link := None) else db.rows[i]),
        entries := seq(|db.entries|, e requires 0 <= e < |db.entries| =>
                     if e in named then db.entries[e].(status := Voided) else db.entries[e]))
  }

  lemma VoidOneMeaning(db: Db, e: EntryId)
    requires Valid(db)
    ensures VoidOne(db, e) == RolledBack(db, {e})
  {
    forall i | 0 <= i < |db.rows| && db.rows[i].link == Some(e)
      ensures e < |db.entries| && db.entries[e].status == Posted
    {
      assert Owns(db, e, i);
    }
    assert VoidOne(db, e).rows == RolledBack(db, {e}).rows;
    assert VoidOne(db, e).entries == RolledBack(db, {e}).entries;
  }

  lemma RolledBackTwice(db: Db, named: set<EntryId>, e: EntryId)
    ensures RolledBack(RolledBack(db, named), {e}) == RolledBack(db, named + {e})
  {
    assert RolledBack(RolledBack(db, named), {e}).rows == RolledBack(db, named + {e}).rows;
    assert RolledBack(RolledBack(db, named), {e}).entries == RolledBack(db, named + {e}).entries;
  }

  lemma {:induction false} RollbackMeaning(db: Db, m: Manifest)
    requires Valid(db)
    ensures Rollback(db, m) == RolledBack(db, Named(m))
  {
    if m == [] {
      assert RolledBack(db, {}).rows == db.rows && RolledBack(db, {}).entries == db.entries;
    } else {
      var rest, e := m[..|m| - 1], m[|m| - 1].entry;
      RollbackMeaning(db, rest);
      RollbackKeepsValid(db, rest);
      var d := Rollback(db, rest);
      NamedStep(m);
      VoidOneMeaning(d, e);
      RolledBackTwice(db, Named(rest), e);
    }
  }

  lemma NamedStep(m: Manifest)
    requires m != []
    ensures Named(m) == Named(m[..|m| - 1]) + {m[|m| - 1].entry}
  {
    var rest := m[..|m| - 1];
    forall x ensures x in Named(m) <==> x in Named(rest) + {m[|m| - 1].entry} {
      if x in Named(m) {
        var k :| 0 <= k < |m| && m[k].entry == x;
        if k < |rest| { assert rest[k].entry == x; }
      }
      if x in Named(rest) {
        var k :| 0 <= k < |rest| && rest[k].entry == x;
        assert m[k].entry == x;
      }
    }
  }

  /** A manifest whose entries are all voided (or unknown) already does nothing: later postings are not disturbed. */
  lemma StaleManifestIsHarmless(db: Db, m: Manifest)
    requires Valid(db)
    requires forall e :: e in Named(m) && e < |db.entries| ==> db.entries[e].status == Voided
    ensures Rollback(db, m) == db
  {
    RollbackMeaning(db, m);
    forall i | 0 <= i < |db.rows| && db.rows[i].link.Some? ensures db.rows[i].link.value !in Named(m) {
      assert Owns(db, db.rows[i].link.value, i);
    }
    assert RolledBack(db, Named(m)).rows == db.rows && RolledBack(db, Named(m)).entries == db.entries;
  }

  /** Rolling back twice is rolling back once, so a rollback whose commit ended unclear can simply be run again. */
  lemma RollbackTwice(db: Db, m: Manifest)
    requires Valid(db)
    ensures Rollback(Rollback(db, m), m) == Rollback(db, m)
  {
    RollbackKeepsValid(db, m);
    RollbackMeaning(db, m);
    StaleManifestIsHarmless(Rollback(db, m), m);
  }

  /** Voiding is for good: no history un-voids an entry or removes one. */
  lemma {:induction false} VoidedStaysVoided(db: Db, ops: seq<Op>, e: EntryId)
    requires Valid(db) && e < |db.entries| && db.entries[e].status == Voided
    ensures e < |RunOps(db, ops).entries| && RunOps(db, ops).entries[e].status == Voided
  {
    if ops != [] {
      var before, op := RunOps(db, ops[..|ops| - 1]), ops[|ops| - 1];
      VoidedStaysVoided(db, ops[..|ops| - 1], e);
      EveryHistoryKeepsValid(db, ops[..|ops| - 1]);
      match op
      case RollbackOp(m) => RollbackMeaning(before, m);
      case ApplyOp(poIds) =>
        if Apply(before, poIds).Success? { PostAllAppends(before, Candidates(before.rows, poIds, before.orders)); }
      case _ =>
    }
  }

  // ---------------------------------------------------------------------------------------------
  // What an apply does
  // ---------------------------------------------------------------------------------------------

  /** Row r' is row r, possibly linked by one of the entries from n on. */
  predicate OnlyLinked(r: Row, r': Row, n: EntryId)
  {
    r' == r || (r.link.None? && r'.link.Some? && r'.link.value >= n && r' == r.(link := r'.link))
  }

  /** What the manifest says of a posted completion is so. */
  predicate Names(item: Item, e: Entry)
  {
    && e.status == Posted && e.source == Some(item.order) && e.lines == item.lines && e.swept == item.ids
    && e.origin.Completion? && e.origin.counted == item.scrap
  }

  /** The manifest names exactly the appended entries, in order, with their orders, sweeps and lines. */
  predicate Extends(db: Db, d: Db, m: Manifest)
  {
    && d.orders == db.orders && d.scrapRecords == db.scrapRecords
    && |d.entries| == |db.entries| + |m| && d.entries[..|db.entries|] == db.entries
    && (forall k :: 0 <= k < |m| ==>
          && m[k].entry == |db.entries| + k
          && Names(m[k], d.entries[|db.entries| + k]))
    && |d.rows| == |db.rows|
    && (forall i :: 0 <= i < |d.rows| ==> OnlyLinked(db.rows[i], d.rows[i], |db.entries|))
  }

  lemma {:induction false} PostAllAppends(db: Db, os: seq<OrderId>)
    requires PostAll(db, os).Success?
    ensures var (d, m) := PostAll(db, os).value; Extends(db, d, m)
  {
    if os != [] {
      PostAllAppends(db, os[..|os| - 1]);
      var (d0, m0) := PostAll(db, os[..|os| - 1]).value;
      var (d, m1) := Post(d0, os[|os| - 1]).value;
      assert Extends(db, d0, m0);
      forall i | 0 <= i < |d.rows| ensures OnlyLinked(db.rows[i], d.rows[i], |db.entries|) {
        assert OnlyLinked(db.rows[i], d0.rows[i], |db.entries|);
      }
      assert d.entries[..|db.entries|] == d0.entries[..|db.entries|];
    }
  }

  function Void(e: Entry): Entry { e.(status := Voided) }

  function VoidFrom(entries: seq<Entry>, n: nat): seq<Entry>
  {
    seq(|entries|, e requires 0 <= e < |entries| => if e < n then entries[e] else Void(entries[e]))
  }

  /**
   Apply then rollback with its own manifest restores every link and every earlier entry; the new entries stay, voided,
   so every posted balance is what it was.
   */
  lemma ApplyThenRollback(db: Db, poIds: seq<OrderId>)
    requires Valid(db) && Apply(db, poIds).Success?
    ensures var (d, m) := Apply(db, poIds).value;
            && |d.entries| >= |db.entries|
            && Rollback(d, m) == db.(entries := VoidFrom(d.entries, |db.entries|))
            && Rollback(d, m).entries[..|db.entries|] == db.entries
            && forall a :: PostedBalance(Rollback(d, m).entries, a) == PostedBalance(db.entries, a)
  {
    var (d, m) := Apply(db, poIds).value;
    var os := Candidates(db.rows, poIds, db.orders);
    PostAllAppends(db, os);
    PostAllKeepsValid(db, os);
    RollbackMeaning(d, m);
    var back := RolledBack(d, Named(m));
    NamedRange(db, d, m);
    LinksRestored(db, d, m);
    assert back.entries == VoidFrom(d.entries, |db.entries|);
    assert back.entries[..|db.entries|] == db.entries;
    forall a ensures PostedBalance(back.entries, a) == PostedBalance(db.entries, a) {
      VoidedTailCountsNothing(back.entries, |db.entries|, a);
    }
  }

  lemma LinksRestored(db: Db, d: Db, m: Manifest)
    requires Valid(db) && Valid(d) && Extends(db, d, m)
    ensures RolledBack(d, Named(m)).rows == db.rows
  {
    var back := RolledBack(d, Named(m));
    NamedRange(db, d, m);
    forall i | 0 <= i < |db.rows| ensures back.rows[i] == db.rows[i] {
      assert OnlyLinked(db.rows[i], d.rows[i], |db.entries|);
      if db.rows[i].link.Some? {
        assert Owns(db, db.rows[i].link.value, i);
      } else if d.rows[i].link.Some? {
        assert Owns(d, d.rows[i].link.value, i);
      }
    }
  }

  lemma NamedRange(db: Db, d: Db, m: Manifest)
    requires Extends(db, d, m)
    ensures forall e :: e in Named(m) <==> |db.entries| <= e < |d.entries|
  {
    forall e | |db.entries| <= e < |d.entries| ensures e in Named(m) {
      assert m[e - |db.entries|].entry == e;
    }
  }

  lemma {:induction false} VoidedTailCountsNothing(entries: seq<Entry>, n: nat, a: Account)
    requires n <= |entries| && forall e :: n <= e < |entries| ==> entries[e].status == Voided
    ensures PostedBalance(entries, a) == PostedBalance(entries[..n], a)
    decreases |entries|
  {
    if n == |entries| {
      assert entries[..n] == entries;
    } else {
      var rest := entries[..|entries| - 1];
      VoidedTailCountsNothing(rest, n, a);
      assert rest[..n] == entries[..n];
    }
  }

  // ---------------------------------------------------------------------------------------------
  // Orders do not interfere: the dry run shows what apply posts, and a second apply posts nothing
  // ---------------------------------------------------------------------------------------------

  lemma {:induction false} LinkFrame(rows: seq<Row>, o: OrderId, e: EntryId, o': OrderId)
    ensures o' != o ==> Sweep(Link(rows, o, e), o') == Sweep(rows, o')
                        && SweptRows(Link(rows, o, e), o') == SweptRows(rows, o')
    ensures Sweep(Link(rows, o, e), o) == []
  {
    if rows != [] {
      var k := |rows| - 1;
      LinkFrame(rows[..k], o, e, o');
      assert Link(rows, o, e)[..k] == Link(rows[..k], o, e);
    } else {
      assert Link(rows, o, e) == [];
    }
  }

  lemma {:induction false} ScrapFrame(db: Db, d: Db, o: OrderId, k: nat)
    requires k <= |db.entries| && k <= |d.entries| && d.scrapRecords == db.scrapRecords
    requires d.entries[..k] == db.entries[..k]
    ensures ScrapCredits(d, o, k) == ScrapCredits(db, o, k)
  {
    if k > 0 {
      assert d.entries[k - 1] == d.entries[..k][k - 1] && db.entries[k - 1] == db.entries[..k][k - 1];
      assert d.entries[..k - 1] == d.entries[..k][..k - 1] && db.entries[..k - 1] == db.entries[..k][..k - 1];
      ScrapFrame(db, d, o, k - 1);
    }
  }

  lemma {:induction false} NoScrapBeyond(db: Db, o: OrderId, n: nat, k: nat)
    requires n <= k <= |db.entries| && forall p :: p in db.scrapRecords ==> p.1 < n
    ensures ScrapCredits(db, o, k) == ScrapCredits(db, o, n)
    decreases k
  {
    if k > n {
      NoScrapBeyond(db, o, n, k - 1);
    }
  }

  lemma SameScrap(db: Db, d: Db, o: OrderId)
    requires Valid(db) && d.scrapRecords == db.scrapRecords
    requires |db.entries| <= |d.entries| && d.entries[..|db.entries|] == db.entries
    ensures ScrapOf(d, o) == ScrapOf(db, o)
  {
    assert db.entries[..|db.entries|] == db.entries;
    ScrapFrame(db, d, o, |db.entries|);
    NoScrapBeyond(d, o, |db.entries|, |d.entries|);
  }

  /** The two databases agree on what order o sweeps and posts. */
  predicate Undisturbed(db: Db, d: Db, o: OrderId)
  {
    && Sweep(d.rows, o) == Sweep(db.rows, o)
    && SweptRows(d.rows, o) == SweptRows(db.rows, o)
    && ScrapOf(d, o) == ScrapOf(db, o)
  }

  lemma PostFrame(db: Db, last: OrderId, o: OrderId)
    requires Valid(db) && Post(db, last).Success?
    ensures Framed(db, Post(db, last).value.0, [last], o)
  {
    if !Idle(db, last) {
      SameScrap(db, Post(db, last).value.0, o);
      LinkFrame(db.rows, last, |db.entries|, o);
    }
  }

  /** What an apply from db to d that posted `os` does to order o. */
  predicate Framed(db: Db, d: Db, os: seq<OrderId>, o: OrderId)
  {
    && (o !in os ==> Undisturbed(db, d, o))
    && (o in os ==> Idle(d, o))
    && (Sweep(db.rows, o) == [] ==> Sweep(d.rows, o) == [])
  }

  lemma FramedThen(db: Db, d0: Db, d: Db, rest: seq<OrderId>, last: OrderId, o: OrderId)
    requires Framed(db, d0, rest, o) && Framed(d0, d, [last], o)
    ensures Framed(db, d, rest + [last], o)
  {}

  lemma SplitLast<T>(s: seq<T>)
    requires s != []
    ensures s == s[..|s| - 1] + [s[|s| - 1]]
  {}

  lemma PostAllLast(db: Db, os: seq<OrderId>)
    requires os != [] && PostAll(db, os).Success?
    ensures PostAll(db, os[..|os| - 1]).Success?
    ensures Post(PostAll(db, os[..|os| - 1]).value.0, os[|os| - 1]).Success?
    ensures PostAll(db, os).value.0 == Post(PostAll(db, os[..|os| - 1]).value.0, os[|os| - 1]).value.0
  {}

  /** Posting a set of orders leaves every other order's sweep and lines alone, and leaves the posted ones idle. */
  lemma {:induction false} PostAllFrame(db: Db, os: seq<OrderId>, o: OrderId)
    requires Valid(db) && PostAll(db, os).Success?
    ensures Framed(db, PostAll(db, os).value.0, os, o)
  {
    if os == [] {
    } else {
      var rest, last := os[..|os| - 1], os[|os| - 1];
      SplitLast(os);
      PostAllLast(db, os);
      var d0 := PostAll(db, rest).value.0;
      var d := Post(d0, last).value.0;
      assert Framed(db, d0, rest, o) by { PostAllFrame(db, rest, o); }
      assert Framed(d0, d, [last], o) by {
        PostAllKeepsValid(db, rest);
        PostFrame(d0, last, o);
      }
      FramedThen(db, d0, d, rest, last, o);
    }
  }

  /** What a manifest or a dry run reports for one order. */
  datatype Shown = Shown(order: OrderId, ids: seq<nat>, lines: seq<Line>, scrap: int)

  function Reported(m: Manifest): seq<Shown>
  {
    if m == [] then []
    else (var i := m[|m| - 1]; Reported(m[..|m| - 1]) + [Shown(i.order, i.ids, i.lines, i.scrap)])
  }

  function Preview(db: Db, o: OrderId): Shown
  {
    Shown(o, Sweep(db.rows, o), OrderLines(db, o), ScrapOf(db, o))
  }

  /** The dry run's previews that carry lines, computed order by order on the unchanged database. */
  function DryRun(db: Db, os: seq<OrderId>): seq<Shown>
  {
    if os == [] then []
    else (
      var o := os[|os| - 1];
      DryRun(db, os[..|os| - 1]) + (if Idle(db, o) then [] else [Preview(db, o)])
    )
  }

  lemma ReportedConcat(m: Manifest, next: Manifest)
    requires |next| <= 1
    ensures Reported(m + next)
         == Reported(m) + if next == [] then [] else [Shown(next[0].order, next[0].ids, next[0].lines, next[0].scrap)]
  {
    if next == [] {
      assert m + next == m;
    } else {
      assert (m + next)[..|m|] == m;
    }
  }

  lemma SamePosting(db: Db, d: Db, o: OrderId)
    requires Undisturbed(db, d, o)
    ensures Post(d, o).Success? <==> Idle(db, o) || Accepted(OrderLines(db, o))
    ensures Post(d, o).Success? ==>
              Post(d, o).value.1 ==
              if Idle(db, o) then [] else [Item(o, |d.entries|, Sweep(db.rows, o), OrderLines(db, o), ScrapOf(db, o))]
  {}

  lemma {:induction false} ApplyPostsWhatDryRunShows(db: Db, os: seq<OrderId>)
    requires Valid(db)
    requires Ascending(os)
    ensures PostAll(db, os).Success? <==> forall o :: o in os && !Idle(db, o) ==> Accepted(OrderLines(db, o))
    ensures PostAll(db, os).Success? ==> Reported(PostAll(db, os).value.1) == DryRun(db, os)
  {
    if os != [] {
      var rest, last := os[..|os| - 1], os[|os| - 1];
      ApplyPostsWhatDryRunShows(db, rest);
      SplitLast(os);
      if PostAll(db, rest).Success? {
        PostAllFrame(db, rest, last);
        var (d0, m0) := PostAll(db, rest).value;
        SamePosting(db, d0, last);
        if Post(d0, last).Success? {
          ReportedConcat(m0, Post(d0, last).value.1);
        }
      }
    }
  }

  predicate AllBalanced(entries: seq<Entry>)
  {
    forall e :: 0 <= e < |entries| && entries[e].status == Posted ==> Imbalance(entries[e].lines) == 0
  }

  /** What the entry of order o drops from its two sides is the same amount. */
  predicate DropsAgree(db: Db, o: OrderId)
  {
    Excess(SweptRows(db.rows, o), true) == Excess(SweptRows(db.rows, o), false)
  }

  /**
   Whatever the costs, posting keeps all posted entries balanced exactly when every posted order drops alike on both
   sides.
   */
  lemma {:induction false} PostingBalancedExactly(db: Db, os: seq<OrderId>)
    requires Valid(db) && Ascending(os) && AllBalanced(db.entries) && PostAll(db, os).Success?
    ensures AllBalanced(PostAll(db, os).value.0.entries) <==> forall o :: o in os && !Idle(db, o) ==> DropsAgree(db, o)
  {
    if os != [] {
      var rest, last := os[..|os| - 1], os[|os| - 1];
      SplitLast(os);
      PostAllLast(db, os);
      PostingBalancedExactly(db, rest);
      PostAllFrame(db, rest, last);
      var d0 := PostAll(db, rest).value.0;
      PostBalanced(d0, last);
      assert Idle(d0, last) <==> Idle(db, last);
      assert DropsAgree(d0, last) <==> DropsAgree(db, last);
      assert forall o :: o in os <==> o in rest || o == last;
    }
  }

  lemma PostBalanced(db: Db, o: OrderId)
    requires Post(db, o).Success?
    ensures AllBalanced(Post(db, o).value.0.entries) <==> AllBalanced(db.entries) && (Idle(db, o) || DropsAgree(db, o))
  {
    if !Idle(db, o) {
      var n, after := |db.entries|, Post(db, o).value.0.entries;
      LinesImbalance(SweptRows(db.rows, o), ScrapOf(db, o));
      assert after[n].status == Posted && after[n].lines == OrderLines(db, o);
      assert forall e :: 0 <= e < n ==> after[e] == db.entries[e];
    }
  }

  /** The same for a whole apply. */
  lemma ApplyBalancedExactly(db: Db, poIds: seq<OrderId>)
    requires Valid(db) && AllBalanced(db.entries) && Apply(db, poIds).Success?
    ensures AllBalanced(Apply(db, poIds).value.0.entries)
       <==> forall o :: o in Candidates(db.rows, poIds, db.orders) && !Idle(db, o) ==> DropsAgree(db, o)
  {
    CandidatesAscending(db.rows, poIds, db.orders);
    PostingBalancedExactly(db, Candidates(db.rows, poIds, db.orders));
  }

  lemma {:induction false} IdleOrdersPostNothing(db: Db, os: seq<OrderId>)
    requires forall o :: o in os ==> Idle(db, o)
    ensures PostAll(db, os) == Success((db, []))
  {
    if os != [] {
      IdleOrdersPostNothing(db, os[..|os| - 1]);
      assert Idle(db, os[|os| - 1]);
      var none: Manifest := [];
      assert none + none == none;
    }
  }

  /** Running the same apply again posts nothing and changes nothing. */
  lemma SecondApplyPostsNothing(db: Db, poIds: seq<OrderId>)
    requires Valid(db) && Apply(db, poIds).Success?
    ensures var d := Apply(db, poIds).value.0; Apply(d, poIds) == Success((d, []))
  {
    var os := Candidates(db.rows, poIds, db.orders);
    var d := Apply(db, poIds).value.0;
    CandidatesAscending(db.rows, poIds, db.orders);
    PostAllAppends(db, os);
    var os' := Candidates(d.rows, poIds, d.orders);
    forall o | o in os' ensures Idle(d, o) {
      PostAllFrame(db, os, o);
    }
    IdleOrdersPostNothing(d, os');
  }

  // ---------------------------------------------------------------------------------------------
  // What an apply posts, and for whom
  // ---------------------------------------------------------------------------------------------

  /** The dry run for a filter. */
  function DryRunOf(db: Db, poIds: seq<OrderId>): seq<Shown>
  {
    DryRun(db, Candidates(db.rows, poIds, db.orders))
  }

  /** The filter lets the order through. */
  predicate Wanted(poIds: seq<OrderId>, o: OrderId)
  {
    |poIds| == 0 || exists j :: 0 <= j < |poIds| && poIds[j] == o
  }

  /** Row i is an unlinked consumption or receipt of order o, neither voided nor held. */
  predicate Unjournaled(db: Db, i: nat, o: OrderId)
    requires i < |db.rows|
  {
    var r := db.rows[i];
    && r.order.Some? && r.order.value == o && (r.kind == Consumption || r.kind == Receipt)
    && r.link.None? && !r.voided && !r.held
  }

  predicate HasUnjournaled(db: Db, o: OrderId)
  {
    exists i: nat :: i < |db.rows| && Unjournaled(db, i, o)
  }

  /** The orders of a report, in order. */
  function OrdersOf(shown: seq<Shown>): seq<OrderId>
  {
    seq(|shown|, k requires 0 <= k < |shown| => shown[k].order)
  }

  lemma SweepIsUnjournaled(db: Db, o: OrderId)
    ensures forall i: nat :: i < |db.rows| ==> (i in Sweep(db.rows, o) <==> Unjournaled(db, i, o))
    ensures Sweep(db.rows, o) != [] <==> HasUnjournaled(db, o)
  {
    if Sweep(db.rows, o) != [] {
      var i := Sweep(db.rows, o)[0];
      assert i in Sweep(db.rows, o);
      assert Unjournaled(db, i, o);
    }
    if i: nat :| i < |db.rows| && Unjournaled(db, i, o) { assert i in Sweep(db.rows, o); }
  }

  /** What the report shows of an order is its own unjournaled rows, in id order, and its lines. */
  ghost predicate ShowsOrder(db: Db, x: Shown)
  {
    && Ascending(x.ids)
    && (forall i: nat :: i in x.ids <==> i < |db.rows| && Unjournaled(db, i, x.order))
    && x.lines == Lines(SweptRows(db.rows, x.order), x.scrap) && x.lines != [] && x.scrap == ScrapOf(db, x.order)
  }

  lemma PreviewShows(db: Db, o: OrderId)
    requires !Idle(db, o)
    ensures ShowsOrder(db, Preview(db, o))
  {
    SweepIsUnjournaled(db, o);
    SweepAscending(db.rows, o);
  }

  lemma {:induction false} DryRunItems(db: Db, os: seq<OrderId>)
    ensures forall k :: 0 <= k < |DryRun(db, os)| ==> ShowsOrder(db, DryRun(db, os)[k])
  {
    if os != [] {
      var last := os[|os| - 1];
      DryRunItems(db, os[..|os| - 1]);
      if !Idle(db, last) { PreviewShows(db, last); }
    }
  }

  lemma {:induction false} DryRunShows(db: Db, os: seq<OrderId>)
    requires Ascending(os)
    ensures Ascending(OrdersOf(DryRun(db, os)))
    ensures forall o :: o in OrdersOf(DryRun(db, os)) <==> o in os && !Idle(db, o)
  {
    if os != [] {
      var rest, last := os[..|os| - 1], os[|os| - 1];
      var before := OrdersOf(DryRun(db, rest));
      SplitLast(os);
      DryRunShows(db, rest);
      assert OrdersOf(DryRun(db, os)) == before + if Idle(db, last) then [] else [last];
      if !Idle(db, last) { AppendAscending(before, last); }
    }
  }

  /**
   The dry run shows exactly the existing orders that the filter lets through (all, if there is none), that have an
   unlinked consumption or receipt that is neither voided nor held, and that have lines to post: each once, by id.
   */
  lemma DryRunShowsWanted(db: Db, poIds: seq<OrderId>)
    ensures Ascending(OrdersOf(DryRunOf(db, poIds)))
    ensures forall o: OrderId :: o in OrdersOf(DryRunOf(db, poIds)) <==> ShouldShow(db, poIds, o)
    ensures forall k :: 0 <= k < |DryRunOf(db, poIds)| ==> ShowsOrder(db, DryRunOf(db, poIds)[k])
  {
    CandidatesAscending(db.rows, poIds, db.orders);
    DryRunShows(db, Candidates(db.rows, poIds, db.orders));
    DryRunItems(db, Candidates(db.rows, poIds, db.orders));
    forall o: OrderId ensures o in OrdersOf(DryRunOf(db, poIds)) <==> ShouldShow(db, poIds, o) {
      CandidatesWanted(db, poIds, o);
    }
  }

  predicate ShouldShow(db: Db, poIds: seq<OrderId>, o: OrderId)
  {
    o < db.orders && Wanted(poIds, o) && HasUnjournaled(db, o) && OrderLines(db, o) != []
  }

  lemma CandidatesWanted(db: Db, poIds: seq<OrderId>, o: OrderId)
    ensures o in Candidates(db.rows, poIds, db.orders) && !Idle(db, o) <==> ShouldShow(db, poIds, o)
  {
    SweepIsUnjournaled(db, o);
    assert Wanted(poIds, o) <==> poIds == [] || o in poIds;
  }

  lemma {:induction false} ReportedAt(m: Manifest)
    ensures |Reported(m)| == |m|
    ensures forall k :: 0 <= k < |m| ==> Reported(m)[k] == Shown(m[k].order, m[k].ids, m[k].lines, m[k].scrap)
  {
    if m != [] {
      ReportedAt(m[..|m| - 1]);
    }
  }

  lemma ItemsShow(db: Db, poIds: seq<OrderId>)
    requires Valid(db) && Apply(db, poIds).Success?
    ensures var (d, m) := Apply(db, poIds).value;
            && Reported(m) == DryRunOf(db, poIds) && Extends(db, d, m) && Valid(d)
            && (forall k, i: nat :: 0 <= k < |m| && i < |db.rows| ==>
                 (i in m[k].ids <==> Unjournaled(db, i, m[k].order)))
            && (forall k :: 0 <= k < |m| ==> m[k].order in OrdersOf(DryRunOf(db, poIds)))
  {
    var os := Candidates(db.rows, poIds, db.orders);
    var (d, m) := Apply(db, poIds).value;
    CandidatesAscending(db.rows, poIds, db.orders);
    ApplyPostsWhatDryRunShows(db, os);
    PostAllAppends(db, os);
    PostAllKeepsValid(db, os);
    DryRunShowsWanted(db, poIds);
    ReportedAt(m);
    forall k | 0 <= k < |m|
      ensures m[k].order in OrdersOf(DryRunOf(db, poIds))
      ensures forall i: nat :: i < |db.rows| ==> (i in m[k].ids <==> Unjournaled(db, i, m[k].order))
    {
      var x := DryRunOf(db, poIds)[k];
      assert ShowsOrder(db, x) && x.order == m[k].order && x.ids == m[k].ids;
      assert OrdersOf(DryRunOf(db, poIds))[k] == m[k].order;
    }
  }

  /** Row i is linked to the entry of its order if the manifest swept it, and otherwise as it was. */
  predicate LinkedAsNamed(db: Db, d: Db, m: Manifest, i: nat)
    requires i < |db.rows| && |d.rows| == |db.rows|
  {
    && (forall k :: 0 <= k < |m| && Unjournaled(db, i, m[k].order) ==>
          d.rows[i] == db.rows[i].(link := Some(m[k].entry)))
    && ((forall k :: 0 <= k < |m| ==> !Unjournaled(db, i, m[k].order)) ==> d.rows[i] == db.rows[i])
  }

  lemma LinkedTo(db: Db, d: Db, m: Manifest, i: nat)
    requires Valid(db) && Valid(d) && Extends(db, d, m) && i < |db.rows|
    requires forall k :: 0 <= k < |m| ==> (i in m[k].ids <==> Unjournaled(db, i, m[k].order))
    ensures LinkedAsNamed(db, d, m, i)
  {
    var n := |db.entries|;
    assert OnlyLinked(db.rows[i], d.rows[i], n);
    forall k | 0 <= k < |m| && Unjournaled(db, i, m[k].order)
      ensures d.rows[i] == db.rows[i].(link := Some(m[k].entry))
    {
      assert Names(m[k], d.entries[n + k]);
      assert Owns(d, n + k, i);
    }
    if d.rows[i] != db.rows[i] {
      var e := d.rows[i].link.value;
      assert Owns(d, e, i);
      assert Names(m[e - n], d.entries[n + (e - n)]);
      assert Unjournaled(db, i, m[e - n].order);
    }
  }

  lemma KeptOut(db: Db, d: Db, m: Manifest, poIds: seq<OrderId>, i: nat)
    requires i < |db.rows| && |d.rows| == |db.rows| && LinkedAsNamed(db, d, m, i)
    requires forall k :: 0 <= k < |m| ==> Wanted(poIds, m[k].order)
    ensures db.rows[i].order.Some? && !Wanted(poIds, db.rows[i].order.value) ==> d.rows[i] == db.rows[i]
  {}

  /**
   An apply posts exactly what that dry run shows, and links exactly the rows shown to the entry of their order; every
   other row stays as it is, in particular every row of an order that the filter keeps out.
   */
  lemma ApplyPostsWanted(db: Db, poIds: seq<OrderId>)
    requires Valid(db) && Apply(db, poIds).Success?
    ensures var (d, m) := Apply(db, poIds).value;
            && Reported(m) == DryRunOf(db, poIds)
            && |d.rows| == |db.rows|
            && (forall k :: 0 <= k < |m| ==> Wanted(poIds, m[k].order) && m[k].order < db.orders)
            && (forall i: nat :: i < |db.rows| ==> LinkedAsNamed(db, d, m, i))
            && (forall i: nat :: i < |db.rows| && db.rows[i].order.Some? && !Wanted(poIds, db.rows[i].order.value) ==>
                  d.rows[i] == db.rows[i])
  {
    var (d, m) := Apply(db, poIds).value;
    ItemsShow(db, poIds);
    DryRunShowsWanted(db, poIds);
    assert forall k :: 0 <= k < |m| ==> ShouldShow(db, poIds, m[k].order);
    forall i: nat | i < |db.rows|
      ensures LinkedAsNamed(db, d, m, i)
      ensures db.rows[i].order.Some? && !Wanted(poIds, db.rows[i].order.value) ==> d.rows[i] == db.rows[i]
    {
      LinkedTo(db, d, m, i);
      KeptOut(db, d, m, poIds, i);
    }
  }

  /**
   Apply, roll back, apply again: the second apply reports the same orders, rows and lines as the first, and rolling
   back the first manifest once more leaves the new postings untouched.
   */
  lemma ReapplyAfterRollback(db: Db, poIds: seq<OrderId>)
    requires Valid(db) && Apply(db, poIds).Success?
    ensures var (d, m) := Apply(db, poIds).value;
            var again := Apply(Rollback(d, m), poIds);
            && again.Success?
            && Reported(again.value.1) == Reported(m)
            && Rollback(again.value.0, m) == again.value.0
  {
    var (d, m) := Apply(db, poIds).value;
    var os := Candidates(db.rows, poIds, db.orders);
    ApplyThenRollback(db, poIds);
    CandidatesAscending(db.rows, poIds, db.orders);
    PostAllAppends(db, os);
    PostAllKeepsValid(db, os);
    RollbackKeepsValid(d, m);
    var back := Rollback(d, m);
    forall o ensures ScrapOf(back, o) == ScrapOf(db, o) { SameScrap(db, back, o); }
    ApplyPostsWhatDryRunShows(db, os);
    ApplyPostsWhatDryRunShows(back, os);
    SameDryRun(db, back, os);
    var d2 := Apply(back, poIds).value.0;
    PostAllAppends(back, os);
    PostAllKeepsValid(back, os);
    NamedRange(db, d, m);
    forall e | e in Named(m) && e < |d2.entries| ensures d2.entries[e].status == Voided {
      assert d2.entries[e] == d2.entries[..|back.entries|][e];
    }
    StaleManifestIsHarmless(d2, m);
  }

  lemma {:induction false} SameDryRun(db: Db, d: Db, os: seq<OrderId>)
    requires d.rows == db.rows && forall o :: ScrapOf(d, o) == ScrapOf(db, o)
    ensures DryRun(d, os) == DryRun(db, os)
  {
    if os != [] {
      SameDryRun(db, d, os[..|os| - 1]);
    }
  }

  // ---------------------------------------------------------------------------------------------
  // One received row, for examples
  // ---------------------------------------------------------------------------------------------

  lemma OneRowTotal(row: Row)
    requires row.kind == Receipt && row.item == FinishedGoodItem && row.cost > 0
    ensures Total([row], true) == row.cost && Lines([row], 0) != []
  {
    AmountOfOne(row, true, RawMaterials);
    AmountOfOne(row, true, FinishedGoods);
    AmountOfOne(row, true, Packaging);
    AmountOfOne(row, true, DirectLabor);
    assert |LineIf(Wip, row.cost, Credit)| == 1;
  }

  lemma OneSwept(row: Row, o: OrderId)
    requires Sweepable(row, o)
    ensures SweptRows([row], o) == [row] && Sweep([row], o) == [0]
  {
    assert [row][..0] == [];
    assert SweptRows([], o) == [] && Sweep([], o) == [];
  }

  lemma OneRowPosts(db: Db, row: Row, o: OrderId)
    requires db.rows == [row] && Sweepable(row, o) && ScrapOf(db, o) == 0
    requires row.kind == Receipt && row.item == FinishedGoodItem && row.cost > 0
    ensures Post(db, o).Success? && |Post(db, o).value.1| == 1
  {
    OneSwept(row, o);
    OneRowTotal(row);
    PostSucceeds(db, o);
  }
}
