/**
 The books over any history of the ledger: whether posted debits equal posted credits, and what is left on WIP for one
 order. Both come from one invariant that says of every entry what its origin does to the books.
 */
module OrderBooks {
  import opened Wrappers
  import opened CompletionGl
  import opened Backfill

  // ---------------------------------------------------------------------------------------------
  // What each kind of entry does
  // ---------------------------------------------------------------------------------------------

  /** How far rounding material and labor one by one is from rounding their sum, in cents. */
  function SplitGap(material: real, labor: real): int
  {
    Parted(material) + Parted(labor) - RoundCents(material + labor)
  }

  function Parted(x: real): int
  {
    if x > 0.0 then RoundCents(x) else 0
  }

  /** An entry's debits minus credits, by its origin. */
  function Gap(e: Entry): int
  {
    match e.origin
    case Completion(_, _, gap) => gap
    case Scrap => 0
    case OperationScrap(material, labor) => SplitGap(material, labor)
    case Other => Imbalance(e.lines)
  }

  predicate IsScrap(e: Entry)
  {
    e.origin.Scrap? || e.origin.OperationScrap?
  }

  predicate EntryOk(e: Entry)
  {
    && Imbalance(e.lines) == Gap(e)
    && (e.origin.Completion? ==> Net(e.lines, Wip) == e.origin.counted + e.origin.slip)
    && (IsScrap(e) ==> Net(e.lines, Wip) == 0 - WipCredits(e.lines))
  }

  /** Only posted or voided scrap entries are named by scrap records. */
  predicate RecordOk(db: Db, k: EntryId)
  {
    k < |db.entries| && IsScrap(db.entries[k]) && db.entries[k].status != Draft
  }

  predicate Accounted(db: Db)
  {
    && (forall k :: 0 <= k < |db.entries| ==> EntryOk(db.entries[k]))
    && (forall p :: p in db.scrapRecords ==> RecordOk(db, p.1))
  }

  lemma ScrapLinesNet(cost: real, fromStock: bool)
    requires cost >= 0.0
    ensures Imbalance(ScrapLines(cost, fromStock)) == 0
    ensures Net(ScrapLines(cost, fromStock), Wip) == if fromStock then 0 else 0 - RoundCents(cost)
    ensures WipCredits(ScrapLines(cost, fromStock)) == if fromStock then 0 else RoundCents(cost)
    ensures Net(ScrapLines(cost, fromStock), ScrapExpense) == RoundCents(cost)
    ensures Net(ScrapLines(cost, fromStock), FinishedGoods) == if fromStock then 0 - RoundCents(cost) else 0
  {
    forall a ensures Net(ScrapLines(cost, fromStock), a)
                  == Net([ScrapLines(cost, fromStock)[0]], a) + Net([ScrapLines(cost, fromStock)[1]], a)
    {
      assert ScrapLines(cost, fromStock) == [ScrapLines(cost, fromStock)[0]] + [ScrapLines(cost, fromStock)[1]];
      NetConcat([ScrapLines(cost, fromStock)[0]], [ScrapLines(cost, fromStock)[1]], a);
    }
    OneLine(ScrapLines(cost, fromStock)[0], ScrapExpense);
    OneLine(ScrapLines(cost, fromStock)[1], ScrapExpense);
    OneLine(ScrapLines(cost, fromStock)[0], FinishedGoods);
    OneLine(ScrapLines(cost, fromStock)[1], FinishedGoods);
    var lines := ScrapLines(cost, fromStock);
    assert lines[..1] == [lines[0]] && [lines[0]][..0] == [];
    assert lines == [lines[0]] + [lines[1]];
    OneLine(lines[0], Wip);
    OneLine(lines[1], Wip);
    NetConcat([lines[0]], [lines[1]], Wip);
    ImbalanceConcat([lines[0]], [lines[1]]);
    assert WipCredits([lines[0]]) == 0;
  }

  lemma {:induction false} WipCreditsConcat(x: seq<Line>, y: seq<Line>)
    ensures WipCredits(x + y) == WipCredits(x) + WipCredits(y)
  {
    if y == [] {
      assert x + y == x;
    } else {
      assert (x + y)[..|x + y| - 1] == x + y[..|y| - 1];
      WipCreditsConcat(x, y[..|y| - 1]);
    }
  }

  lemma DebitIfNet(x: real)
    ensures Imbalance(DebitIf(x)) == Parted(x) && Net(DebitIf(x), Wip) == 0 && WipCredits(DebitIf(x)) == 0
    ensures Net(DebitIf(x), ScrapExpense) == Parted(x) && (DebitIf(x) == [] <==> x <= 0.0)
  {
    if x > 0.0 {
      var l := Line(ScrapExpense, RoundCents(x), Debit);
      OneLine(l, Wip);
      OneLine(l, ScrapExpense);
      assert [l][..0] == [];
    }
  }

  lemma WipLineNet(amount: int)
    requires amount >= 0
    ensures WipCredits([Line(Wip, amount, Credit)]) == amount
  {
    assert [Line(Wip, amount, Credit)][..0] == [];
  }

  lemma OperationScrapExpense(material: real, labor: real)
    ensures Net(OperationScrapLines(material, labor), ScrapExpense) == Parted(material) + Parted(labor)
  {
    var debits, credit := DebitIf(material) + DebitIf(labor), Line(Wip, RoundCents(material + labor), Credit);
    DebitIfNet(material);
    DebitIfNet(labor);
    OneLine(credit, ScrapExpense);
    NetConcat(DebitIf(material), DebitIf(labor), ScrapExpense);
    NetConcat(debits, [credit], ScrapExpense);
  }

  /** Rounding goes to the nearest cent, a half away from zero, and treats both signs alike. */
  lemma RoundsHalfAway(x: real)
    ensures -0.5 <= RoundCents(x) as real - x <= 0.5
    ensures RoundCents(x) as real - x == 0.5 ==> x > 0.0
    ensures RoundCents(x) as real - x == -0.5 ==> x < 0.0
    ensures RoundCents(-x) == -RoundCents(x)
  {}

  /** An operation scrap is posted exactly when its total is positive and neither part is below minus one cent. */
  lemma OperationScrapPostsExactly(material: real, labor: real)
    ensures OperationScrapPosts(material, labor) <==> material + labor > 0.0 && material >= -1.0 && labor >= -1.0
  {}

  /** The operation's entry takes the rounded total out of WIP and is off balance by the rounding gap. */
  lemma OperationScrapNet(material: real, labor: real)
    requires material + labor > 0.0
    ensures var lines := OperationScrapLines(material, labor);
            && Imbalance(lines) == SplitGap(material, labor)
            && Net(lines, Wip) == 0 - RoundCents(material + labor)
            && WipCredits(lines) == RoundCents(material + labor)
            && Net(lines, ScrapExpense) == Parted(material) + Parted(labor)
  {
    OperationScrapExpense(material, labor);
    var debits, credit := DebitIf(material) + DebitIf(labor), Line(Wip, RoundCents(material + labor), Credit);
    DebitIfNet(material);
    DebitIfNet(labor);
    OneLine(credit, Wip);
    WipLineNet(credit.amount);
    ImbalanceConcat(DebitIf(material), DebitIf(labor));
    NetConcat(DebitIf(material), DebitIf(labor), Wip);
    WipCreditsConcat(DebitIf(material), DebitIf(labor));
    ImbalanceConcat(debits, [credit]);
    NetConcat(debits, [credit], Wip);
    WipCreditsConcat(debits, [credit]);
  }

  // ---------------------------------------------------------------------------------------------
  // The invariant, over any history
  // ---------------------------------------------------------------------------------------------

  lemma PostKeepsAccounted(db: Db, o: OrderId)
    requires Accounted(db) && Post(db, o).Success?
    ensures Accounted(Post(db, o).value.0)
  {
    var d, n := Post(db, o).value.0, |db.entries|;
    if !Idle(db, o) {
      LinesNet(SweptRows(db.rows, o), ScrapOf(db, o), Wip);
      LinesImbalance(SweptRows(db.rows, o), ScrapOf(db, o));
      assert EntryOk(d.entries[n]);
    }
    forall p | p in d.scrapRecords ensures RecordOk(d, p.1) { assert RecordOk(db, p.1); }
  }

  lemma {:induction false} PostAllKeepsAccounted(db: Db, os: seq<OrderId>)
    requires Accounted(db) && PostAll(db, os).Success?
    ensures Accounted(PostAll(db, os).value.0)
  {
    if os != [] {
      PostAllLast(db, os);
      PostAllKeepsAccounted(db, os[..|os| - 1]);
      PostKeepsAccounted(PostAll(db, os[..|os| - 1]).value.0, os[|os| - 1]);
    }
  }

  lemma VoidOneKeepsAccounted(db: Db, e: EntryId)
    requires Accounted(db)
    ensures Accounted(VoidOne(db, e))
  {
    var d := VoidOne(db, e);
    forall k | 0 <= k < |d.entries| ensures EntryOk(d.entries[k]) { assert EntryOk(db.entries[k]); }
    forall p | p in d.scrapRecords ensures RecordOk(d, p.1) { assert RecordOk(db, p.1); }
  }

  lemma {:induction false} RollbackKeepsAccounted(db: Db, m: Manifest)
    requires Accounted(db)
    ensures Accounted(Rollback(db, m))
  {
    if m != [] {
      RollbackKeepsAccounted(db, m[..|m| - 1]);
      VoidOneKeepsAccounted(Rollback(db, m[..|m| - 1]), m[|m| - 1].entry);
    }
  }

  lemma AppendKeepsAccounted(db: Db, source: Option<OrderId>, lines: seq<Line>, rows: seq<Row>, origin: Origin)
    requires Accounted(db)
    requires forall ids :: EntryOk(Entry(Posted, source, lines, ids, origin))
    ensures Accounted(AppendEntry(db, source, lines, rows, origin))
  {
    var d := AppendEntry(db, source, lines, rows, origin);
    forall p | p in d.scrapRecords ensures RecordOk(d, p.1) { assert RecordOk(db, p.1); }
  }

  lemma NamingKeepsAccounted(db: Db, o: OrderId, k: EntryId)
    requires Accounted(db) && RecordOk(db, k)
    ensures Accounted(db.(scrapRecords := db.scrapRecords + {(o, k)}))
  {
    var d := db.(scrapRecords := db.scrapRecords + {(o, k)});
    forall p | p in d.scrapRecords ensures RecordOk(d, p.1) {
      if p in db.scrapRecords { assert RecordOk(db, p.1); }
    }
  }

  lemma ScrapKeepsAccounted(db: Db, o: OrderId, cost: real, fromStock: bool)
    requires Accounted(db)
    ensures Accounted(RecordScrap(db, o, cost, fromStock))
  {
    var row := Row(Some(o), OtherMovement, OtherItem, false, RoundCents(cost), false, false, None);
    if cost > 0.0 {
      var lines := ScrapLines(cost, fromStock);
      ScrapLinesNet(cost, fromStock);
      AppendKeepsAccounted(db, Some(o), lines, [row], Scrap);
      NamingKeepsAccounted(AppendEntry(db, Some(o), lines, [row], Scrap), o, |db.entries|);
    } else {
      var d := RecordScrap(db, o, cost, fromStock);
      forall p | p in d.scrapRecords ensures RecordOk(d, p.1) { assert RecordOk(db, p.1); }
    }
  }

  lemma OperationScrapKeepsAccounted(db: Db, o: OrderId, materials: seq<real>, labor: real)
    requires Accounted(db)
    ensures Accounted(RecordOperationScrap(db, o, materials, labor))
  {
    var material := TotalOf(materials);
    if OperationScrapPosts(material, labor) {
      var lines, origin := OperationScrapLines(material, labor), OperationScrap(material, labor);
      OperationScrapNet(material, labor);
      AppendKeepsAccounted(db, Some(o), lines, [], origin);
      NamingKeepsAccounted(AppendEntry(db, Some(o), lines, [], origin), o, |db.entries|);
    }
  }

  lemma DoKeepsAccounted(db: Db, op: Op)
    requires Accounted(db)
    ensures Accounted(Do(db, op))
  {
    match op
    case RollbackOp(m) => RollbackKeepsAccounted(db, m);
    case ApplyOp(poIds) =>
      if Apply(db, poIds).Success? { PostAllKeepsAccounted(db, Candidates(db.rows, poIds, db.orders)); }
    case CompleteOp(o) => if Post(db, o).Success? { PostKeepsAccounted(db, o); }
    case ScrapOp(o, cost, fromStock) => ScrapKeepsAccounted(db, o, cost, fromStock);
    case OperationScrapOp(o, materials, labor) => OperationScrapKeepsAccounted(db, o, materials, labor);
    case JournalOp(source, lines, rows) => AppendKeepsAccounted(db, source, lines, rows, Other);
    case _ =>
      var d := Do(db, op);
      forall p | p in d.scrapRecords ensures RecordOk(d, p.1) { assert RecordOk(db, p.1); }
  }

  lemma {:induction false} RunKeepsAccounted(db: Db, ops: seq<Op>)
    requires Accounted(db)
    ensures Accounted(RunOps(db, ops))
  {
    if ops != [] {
      RunKeepsAccounted(db, ops[..|ops| - 1]);
      DoKeepsAccounted(RunOps(db, ops[..|ops| - 1]), ops[|ops| - 1]);
    }
  }

  // ---------------------------------------------------------------------------------------------
  // Posted debits against posted credits
  // ---------------------------------------------------------------------------------------------

  function PostedGaps(entries: seq<Entry>): int
  {
    if entries == [] then 0
    else (
      var e := entries[|entries| - 1];
      PostedGaps(entries[..|entries| - 1]) + (if e.status == Posted then Gap(e) else 0)
    )
  }

  lemma {:induction false} ImbalanceIsGaps(entries: seq<Entry>)
    requires forall k :: 0 <= k < |entries| ==> EntryOk(entries[k])
    ensures PostedImbalance(entries) == PostedGaps(entries)
    ensures AllBalanced(entries) ==> PostedImbalance(entries) == 0
  {
    if entries != [] {
      var rest := entries[..|entries| - 1];
      ImbalanceIsGaps(rest);
      assert EntryOk(entries[|entries| - 1]);
    }
  }

  lemma {:induction false} NetsAddUp(lines: seq<Line>)
    ensures Net(lines, RawMaterials) + Net(lines, Wip) + Net(lines, FinishedGoods) + Net(lines, Packaging)
            + Net(lines, DirectLabor) + Net(lines, CogsOther) + Net(lines, ScrapExpense) == Imbalance(lines)
  {
    if lines != [] {
      NetsAddUp(lines[..|lines| - 1]);
    }
  }

  /** The trial balance: the posted balances of all accounts add up to posted debits minus posted credits. */
  lemma {:induction false} TrialBalance(entries: seq<Entry>)
    ensures PostedBalance(entries, RawMaterials) + PostedBalance(entries, Wip) + PostedBalance(entries, FinishedGoods)
            + PostedBalance(entries, Packaging) + PostedBalance(entries, DirectLabor)
            + PostedBalance(entries, CogsOther) + PostedBalance(entries, ScrapExpense) == PostedImbalance(entries)
  {
    if entries != [] {
      TrialBalance(entries[..|entries| - 1]);
      NetsAddUp(entries[|entries| - 1].lines);
    }
  }

  /**
   After any history, posted debits exceed posted credits by exactly the gaps of the posted entries: what completions
   dropped unequally, how operation scraps were rounded, and what other entries were let through with. Every posted
   entry is balanced exactly when each gap is zero.
   */
  lemma BooksAfterAnyHistory(db: Db, ops: seq<Op>)
    requires Accounted(db)
    ensures var entries := RunOps(db, ops).entries;
            && PostedImbalance(entries) == PostedGaps(entries)
            && (AllBalanced(entries) <==>
                forall k :: 0 <= k < |entries| && entries[k].status == Posted ==> Gap(entries[k]) == 0)
  {
    var after := RunOps(db, ops);
    RunKeepsAccounted(db, ops);
    ImbalanceIsGaps(after.entries);
    assert forall k :: 0 <= k < |after.entries| ==> EntryOk(after.entries[k]);
  }

  /** With non-negative costs every apply succeeds. */
  lemma {:induction false} PostAllSucceeds(db: Db, os: seq<OrderId>)
    requires CostsNonNegative(db.rows)
    ensures PostAll(db, os).Success? && CostsNonNegative(PostAll(db, os).value.0.rows)
  {
    if os != [] {
      PostAllSucceeds(db, os[..|os| - 1]);
      PostSucceeds(PostAll(db, os[..|os| - 1]).value.0, os[|os| - 1]);
    }
  }

  /** The operation posts nothing here, or only entries that balance to the cent. */
  predicate Even(db: Db, op: Op)
  {
    match op
    case ApplyOp(poIds) =>
      Apply(db, poIds).Success? ==>
        forall o :: o in Candidates(db.rows, poIds, db.orders) && !Idle(db, o) ==> DropsAgree(db, o)
    case CompleteOp(o) => Post(db, o).Success? && !Idle(db, o) ==> DropsAgree(db, o)
    case OperationScrapOp(_, materials, labor) =>
      OperationScrapPosts(TotalOf(materials), labor) ==> SplitGap(TotalOf(materials), labor) == 0
    case JournalOp(_, lines, _) => Accepted(lines) ==> Imbalance(lines) == 0
    case _ => true
  }

  /** With non-negative costs an apply or a completion is always even. */
  lemma CostsMakeEven(db: Db, op: Op)
    requires CostsNonNegative(db.rows) && (op.ApplyOp? || op.CompleteOp?)
    ensures Even(db, op)
  {
    forall o: OrderId ensures DropsAgree(db, o) {
      SweptCosts(db.rows, o);
      NoExcess(SweptRows(db.rows, o), true);
      NoExcess(SweptRows(db.rows, o), false);
    }
  }

  lemma AppendBalanced(db: Db, source: Option<OrderId>, lines: seq<Line>, rows: seq<Row>, origin: Origin)
    requires AllBalanced(db.entries)
    ensures AllBalanced(AppendEntry(db, source, lines, rows, origin).entries) <==> Imbalance(lines) == 0
  {
    var n, after := |db.entries|, AppendEntry(db, source, lines, rows, origin).entries;
    assert after[n].status == Posted && after[n].lines == lines;
    assert forall e :: 0 <= e < n ==> after[e] == db.entries[e];
  }

  lemma {:induction false} RollbackBalanced(db: Db, m: Manifest)
    requires AllBalanced(db.entries)
    ensures AllBalanced(Rollback(db, m).entries)
  {
    if m != [] {
      RollbackBalanced(db, m[..|m| - 1]);
    }
  }

  lemma ScrapBalanced(db: Db, o: OrderId, cost: real, fromStock: bool)
    requires AllBalanced(db.entries)
    ensures AllBalanced(RecordScrap(db, o, cost, fromStock).entries)
  {
    if cost > 0.0 {
      var row := Row(Some(o), OtherMovement, OtherItem, false, RoundCents(cost), false, false, None);
      ScrapLinesNet(cost, fromStock);
      AppendBalanced(db, Some(o), ScrapLines(cost, fromStock), [row], Scrap);
    }
  }

  lemma OperationScrapBalanced(db: Db, op: Op)
    requires AllBalanced(db.entries) && op.OperationScrapOp?
    ensures AllBalanced(Do(db, op).entries) <==> Even(db, op)
  {
    var material, labor := TotalOf(op.materials), op.labor;
    if OperationScrapPosts(material, labor) {
      OperationScrapNet(material, labor);
      AppendBalanced(db, Some(op.order), OperationScrapLines(material, labor), [], OperationScrap(material, labor));
    }
  }

  /** From balanced books, one operation keeps them balanced exactly when it is even. */
  lemma DoBalanced(db: Db, op: Op)
    requires Valid(db) && AllBalanced(db.entries)
    ensures AllBalanced(Do(db, op).entries) <==> Even(db, op)
  {
    match op
    case RollbackOp(m) => RollbackBalanced(db, m);
    case ApplyOp(poIds) => if Apply(db, poIds).Success? { ApplyBalancedExactly(db, poIds); }
    case CompleteOp(o) => if Post(db, o).Success? { PostBalanced(db, o); }
    case ScrapOp(o, cost, fromStock) => ScrapBalanced(db, o, cost, fromStock);
    case OperationScrapOp(_, _, _) => OperationScrapBalanced(db, op);
    case JournalOp(source, lines, rows) => AppendBalanced(db, source, lines, rows, Other);
    case _ =>
  }

  /** Every posted entry is balanced to the cent after each operation of the history. */
  predicate BalancedThroughout(db: Db, ops: seq<Op>)
  {
    AllBalanced(RunOps(db, ops).entries) && (ops == [] || BalancedThroughout(db, ops[..|ops| - 1]))
  }

  /** Each operation is even where it happens. */
  predicate EvenThroughout(db: Db, ops: seq<Op>)
  {
    ops == [] || (EvenThroughout(db, ops[..|ops| - 1]) && Even(RunOps(db, ops[..|ops| - 1]), ops[|ops| - 1]))
  }

  /**
   From balanced books, whatever the costs, the books stay balanced throughout a history exactly when every operation in
   it is even: each order that is posted drops alike on both sides, each operation scrap splits evenly into rounded
   material and labor, and each other journal entry is even.
   */
  lemma {:induction false} BooksStayBalanced(db: Db, ops: seq<Op>)
    requires Valid(db) && AllBalanced(db.entries)
    ensures BalancedThroughout(db, ops) <==> EvenThroughout(db, ops)
  {
    if ops != [] {
      var rest, last := ops[..|ops| - 1], ops[|ops| - 1];
      BooksStayBalanced(db, rest);
      EveryHistoryKeepsValid(db, rest);
      if BalancedThroughout(db, rest) {
        DoBalanced(RunOps(db, rest), last);
        RunLast(db, ops);
      }
    }
  }

  /** With non-negative amounts the gap is at most one cent either way. */
  lemma SplitGapIsACent(material: real, labor: real)
    requires material >= 0.0 && labor >= 0.0
    ensures -1 <= SplitGap(material, labor) <= 1
  {}

  /** A material and a labor amount that both end in half a cent are enough. */
  lemma HalfCentsUnbalance(db: Db, o: OrderId)
    ensures !Even(db, OperationScrapOp(o, [100.5], 100.5)) && SplitGap(TotalOf([100.5]), 100.5) == 1
  {
    assert [100.5][..0] == [];
    assert TotalOf([100.5]) == 100.5;
  }

  // ---------------------------------------------------------------------------------------------
  // WIP of one order
  // ---------------------------------------------------------------------------------------------

  /**
   Over an order's posted entries: debits minus credits on WIP; the S its completions counted; what they left there
   beyond it; what scrap entries took out of WIP, split into those a scrap record names and those none names; and what
   other entries did to WIP.
   */
  datatype WipParts = WipParts(wip: int, counted: int, slipped: int, recorded: int, unrecorded: nat, other: int)

  function Plus(x: WipParts, y: WipParts): WipParts
  {
    WipParts(x.wip + y.wip, x.counted + y.counted, x.slipped + y.slipped, x.recorded + y.recorded,
             x.unrecorded + y.unrecorded, x.other + y.other)
  }

  /** An entry's share, if it is the order's; `recorded` says whether a scrap record names it. */
  function ShareOf(e: Entry, recorded: bool): WipParts
  {
    match e.origin
    case Completion(s, slip, _) => WipParts(Net(e.lines, Wip), s, slip, 0, 0, 0)
    case Other => WipParts(Net(e.lines, Wip), 0, 0, 0, 0, Net(e.lines, Wip))
    case _ =>
      if recorded then WipParts(Net(e.lines, Wip), 0, 0, WipCredits(e.lines), 0, 0)
      else WipParts(Net(e.lines, Wip), 0, 0, 0, WipCredits(e.lines), 0)
  }

  const NOTHING := WipParts(0, 0, 0, 0, 0, 0)

  function PartOf(db: Db, o: OrderId, k: nat): WipParts
  {
    if k < |db.entries| && db.entries[k].source == Some(o) && db.entries[k].status == Posted
    then ShareOf(db.entries[k], (o, k) in db.scrapRecords) else NOTHING
  }

  function PartFunction(db: Db, o: OrderId): nat -> WipParts
  {
    (k: nat) => PartOf(db, o, k)
  }

  function SumOf(f: nat -> WipParts, k: nat): WipParts
  {
    if k == 0 then NOTHING else Plus(SumOf(f, k - 1), f(k - 1))
  }

  function PartsUpTo(db: Db, o: OrderId, k: nat): WipParts
  {
    SumOf(PartFunction(db, o), k)
  }

  function Parts(db: Db, o: OrderId): WipParts
  {
    PartsUpTo(db, o, |db.entries|)
  }

  predicate AddsUp(p: WipParts)
  {
    p.wip == p.counted + p.slipped + p.other - p.recorded - p.unrecorded
  }

  lemma ShareAddsUp(e: Entry, recorded: bool)
    requires EntryOk(e)
    ensures AddsUp(ShareOf(e, recorded))
    ensures ShareOf(e, recorded).recorded == if recorded && IsScrap(e) then WipCredits(e.lines) else 0
  {}

  /** What S counts of entry k. */
  function ScrapShare(db: Db, o: OrderId, k: nat): int
    requires k < |db.entries|
  {
    var e := db.entries[k];
    if (o, k) in db.scrapRecords && e.source == Some(o) && e.status != Voided then WipCredits(e.lines) else 0
  }

  /** A record names only scrap that is posted or voided, if k is named at all. */
  predicate WellRecorded(db: Db, o: OrderId, k: nat)
    requires k < |db.entries|
  {
    (o, k) in db.scrapRecords ==> IsScrap(db.entries[k]) && db.entries[k].status != Draft
  }

  /** Entry k is posted for order o. */
  predicate IsTheirs(db: Db, o: OrderId, k: nat)
    requires k < |db.entries|
  {
    db.entries[k].source == Some(o) && db.entries[k].status == Posted
  }

  lemma TheirShare(db: Db, o: OrderId, k: nat)
    requires k < |db.entries| && IsTheirs(db, o, k)
    ensures PartOf(db, o, k) == ShareOf(db.entries[k], (o, k) in db.scrapRecords)
  {}

  lemma NoShare(db: Db, o: OrderId, k: nat)
    requires k < |db.entries| && !IsTheirs(db, o, k)
    ensures PartOf(db, o, k) == NOTHING
  {}

  lemma TheirScrap(db: Db, o: OrderId, k: nat)
    requires k < |db.entries| && WellRecorded(db, o, k) && IsTheirs(db, o, k)
    ensures ScrapShare(db, o, k)
         == if (o, k) in db.scrapRecords && IsScrap(db.entries[k]) then WipCredits(db.entries[k].lines) else 0
  {}

  lemma NoScrap(db: Db, o: OrderId, k: nat)
    requires k < |db.entries| && WellRecorded(db, o, k) && !IsTheirs(db, o, k)
    ensures ScrapShare(db, o, k) == 0
  {}

  lemma AllWellRecorded(db: Db, o: OrderId, k: nat)
    requires Accounted(db) && k < |db.entries|
    ensures WellRecorded(db, o, k) && EntryOk(db.entries[k])
  {
    var p := (o, k);
    if p in db.scrapRecords { assert RecordOk(db, p.1); }
  }

  lemma PartFits(db: Db, o: OrderId, k: nat)
    requires k < |db.entries| && WellRecorded(db, o, k) && EntryOk(db.entries[k])
    ensures AddsUp(PartOf(db, o, k)) && PartOf(db, o, k).recorded == ScrapShare(db, o, k)
  {
    if IsTheirs(db, o, k) {
      TheirShare(db, o, k);
      TheirScrap(db, o, k);
      ShareAddsUp(db.entries[k], (o, k) in db.scrapRecords);
    } else {
      NoShare(db, o, k);
      NoScrap(db, o, k);
    }
  }

  lemma {:induction false} SumAddsUp(f: nat -> WipParts, k: nat)
    requires forall i: nat :: i < k ==> AddsUp(f(i))
    ensures AddsUp(SumOf(f, k))
  {
    if k > 0 {
      SumAddsUp(f, k - 1);
    }
  }

  lemma {:induction false} RecordedIsScrap(db: Db, o: OrderId, f: nat -> WipParts, k: nat)
    requires k <= |db.entries| && forall i: nat :: i < k ==> f(i).recorded == ScrapShare(db, o, i)
    ensures SumOf(f, k).recorded == ScrapCredits(db, o, k)
  {
    if k > 0 {
      RecordedIsScrap(db, o, f, k - 1);
      assert f(k - 1).recorded == ScrapShare(db, o, k - 1);
    }
  }

  lemma PartsAddUp(db: Db, o: OrderId)
    requires Accounted(db)
    ensures AddsUp(Parts(db, o)) && Parts(db, o).recorded == ScrapOf(db, o)
  {
    var f := PartFunction(db, o);
    forall i: nat | i < |db.entries| ensures AddsUp(f(i)) && f(i).recorded == ScrapShare(db, o, i) {
      AllWellRecorded(db, o, i);
      PartFits(db, o, i);
    }
    SumAddsUp(f, |db.entries|);
    RecordedIsScrap(db, o, f, |db.entries|);
  }

  /**
   After any history of scraps, completions, applies, rollbacks and other entries, an order's WIP is what its posted
   completions counted as S or let slip, plus what other entries put there, minus all that its posted scrap entries took
   out, recorded or not. So it is zero exactly when those agree.
   */
  lemma WipIsZeroExactly(db: Db, ops: seq<Op>, o: OrderId)
    requires Accounted(db)
    ensures var d := RunOps(db, ops);
            var p := Parts(d, o);
            && p.recorded == ScrapOf(d, o)
            && p.wip == p.counted + p.slipped + p.other - (ScrapOf(d, o) + p.unrecorded)
            && (p.wip == 0 <==> p.counted + p.slipped + p.other == ScrapOf(d, o) + p.unrecorded)
  {
    RunKeepsAccounted(db, ops);
    PartsAddUp(RunOps(db, ops), o);
  }

  /** How many posted completions order o has among the first k entries. */
  function Completions(db: Db, o: OrderId, k: nat): nat
    requires k <= |db.entries|
  {
    if k == 0 then 0
    else Completions(db, o, k - 1) + (if IsCompletion(db.entries[k - 1], o) then 1 else 0)
  }

  predicate IsCompletion(e: Entry, o: OrderId)
  {
    e.source == Some(o) && e.status == Posted && e.origin.Completion?
  }

  predicate AllCounted(db: Db, o: OrderId, s: int)
  {
    forall k :: 0 <= k < |db.entries| && IsCompletion(db.entries[k], o) ==> db.entries[k].origin.counted == s
  }

  lemma {:induction false} CountedTimes(db: Db, o: OrderId, s: int, k: nat)
    requires AllCounted(db, o, s) && k <= |db.entries|
    ensures PartsUpTo(db, o, k).counted == Completions(db, o, k) * s
  {
    if k > 0 {
      CountedTimes(db, o, s, k - 1);
      OneMore(Completions(db, o, k - 1), s);
    }
  }

  lemma OneMore(n: int, s: int)
    ensures (n + 1) * s == n * s + s
  {}

  /** A posted scrap entry that took something out of o's WIP and that no scrap record names. */
  predicate Unnamed(db: Db, o: OrderId, k: nat)
    requires k < |db.entries|
  {
    var e := db.entries[k];
    e.source == Some(o) && e.status == Posted && IsScrap(e) && (o, k) !in db.scrapRecords && WipCredits(e.lines) > 0
  }

  lemma {:induction false} NothingUnrecorded(db: Db, o: OrderId, k: nat)
    requires k <= |db.entries|
    ensures PartsUpTo(db, o, k).unrecorded == 0 <==> forall i :: 0 <= i < k ==> !Unnamed(db, o, i)
  {
    if k > 0 {
      NothingUnrecorded(db, o, k - 1);
      assert PartOf(db, o, k - 1).unrecorded > 0 <==> Unnamed(db, o, k - 1);
    }
  }

  /**
   Swept n times after all of its scrap, an order ends with n - 1 times the recorded scrap minus the unrecorded on WIP,
   plus what slipped and what other entries did. For one sweep, if nothing slipped and there are no other entries, that
   is zero exactly when every scrap entry is named by a scrap record.
   */
  lemma SweptAfterAllScrap(db: Db, o: OrderId)
    requires Accounted(db) && AllCounted(db, o, ScrapOf(db, o))
    ensures var n := Completions(db, o, |db.entries|);
            var p := Parts(db, o);
            && p.wip == (n - 1) * ScrapOf(db, o) - p.unrecorded + p.slipped + p.other
            && (n == 1 && p.slipped + p.other == 0 ==>
                  (p.wip == 0 <==> forall k :: 0 <= k < |db.entries| ==> !Unnamed(db, o, k)))
  {
    var n: int := Completions(db, o, |db.entries|);
    PartsAddUp(db, o);
    CountedTimes(db, o, ScrapOf(db, o), |db.entries|);
    OneMore(n - 1, ScrapOf(db, o));
    NothingUnrecorded(db, o, |db.entries|);
  }

  // ---------------------------------------------------------------------------------------------
  // Recording scrap
  // ---------------------------------------------------------------------------------------------

  lemma {:induction false} OlderScrap(db: Db, d: Db, o: OrderId, k: nat)
    requires k <= |db.entries| && k <= |d.entries|
    requires forall e :: 0 <= e < k ==>
               d.entries[e] == db.entries[e] && ((o, e) in d.scrapRecords <==> (o, e) in db.scrapRecords)
    ensures ScrapCredits(d, o, k) == ScrapCredits(db, o, k)
  {
    if k > 0 {
      OlderScrap(db, d, o, k - 1);
    }
  }

  /**
    A scrap of one item leaves a row of the order; with a positive cost it posts an entry that S counts from
    then on.
    */
  lemma ScrapIsCounted(db: Db, o: OrderId, cost: real, fromStock: bool, other: OrderId)
    requires Valid(db) && other != o
    ensures var d, n := RecordScrap(db, o, cost, fromStock), |db.entries|;
            && |d.rows| == |db.rows| + 1 && d.rows[..|db.rows|] == db.rows
            && d.rows[|db.rows|].order == Some(o) && d.rows[|db.rows|].kind == OtherMovement
            && d.rows[|db.rows|].link == (if cost > 0.0 then Some(n) else None)
            && (cost <= 0.0 ==> d.entries == db.entries && d.scrapRecords == db.scrapRecords)
            && (cost > 0.0 ==> |d.entries| == n + 1 && d.entries[..n] == db.entries
                               && d.entries[n].source == Some(o) && d.entries[n].status == Posted)
            && ScrapOf(d, o) == ScrapOf(db, o) + (if cost > 0.0 && !fromStock then RoundCents(cost) else 0)
            && ScrapOf(d, other) == ScrapOf(db, other)
  {
    var d, n := RecordScrap(db, o, cost, fromStock), |db.entries|;
    OlderScrap(db, d, o, n);
    OlderScrap(db, d, other, n);
    if cost > 0.0 { ScrapLinesNet(cost, fromStock); }
  }

  /** What is posted, if anything: one entry for the order, and no row. */
  lemma OperationScrapShape(db: Db, o: OrderId, materials: seq<real>, labor: real)
    ensures var d, n, material := RecordOperationScrap(db, o, materials, labor), |db.entries|, TotalOf(materials);
            && d.rows == db.rows && (!OperationScrapPosts(material, labor) ==> d == db)
            && (OperationScrapPosts(material, labor) ==>
                  && |d.entries| == n + 1 && d.entries[..n] == db.entries
                  && d.entries[n] == Entry(Posted, Some(o), OperationScrapLines(material, labor), [],
                                           OperationScrap(material, labor))
                  && d.scrapRecords == if materials == [] then db.scrapRecords else db.scrapRecords + {(o, n)})
  {}

  lemma LastScrap(db: Db, d: Db, o: OrderId, credits: int)
    requires |d.entries| == |db.entries| + 1 && credits == ScrapShare(d, o, |db.entries|)
    requires forall e :: 0 <= e < |db.entries| ==>
               d.entries[e] == db.entries[e] && ((o, e) in d.scrapRecords <==> (o, e) in db.scrapRecords)
    ensures ScrapOf(d, o) == ScrapOf(db, o) + credits
  {
    OlderScrap(db, d, o, |db.entries|);
  }

  lemma NewShare(d: Db, o: OrderId, n: nat, other: OrderId)
    requires n < |d.entries| && d.entries[n].source == Some(o) && d.entries[n].status == Posted && other != o
    ensures ScrapShare(d, o, n) == if (o, n) in d.scrapRecords then WipCredits(d.entries[n].lines) else 0
    ensures ScrapShare(d, other, n) == 0
  {}

  lemma PostedScrapCounts(db: Db, d: Db, o: OrderId, recorded: bool, other: OrderId)
    requires Valid(db) && other != o && |d.entries| == |db.entries| + 1 && d.entries[..|db.entries|] == db.entries
    requires d.entries[|db.entries|].source == Some(o) && d.entries[|db.entries|].status == Posted
    requires d.scrapRecords == if recorded then db.scrapRecords + {(o, |db.entries|)} else db.scrapRecords
    ensures ScrapOf(d, o) == ScrapOf(db, o) + (if recorded then WipCredits(d.entries[|db.entries|].lines) else 0)
    ensures ScrapOf(d, other) == ScrapOf(db, other)
  {
    var n := |db.entries|;
    assert forall p :: p in db.scrapRecords ==> p.1 < n;
    assert forall e :: 0 <= e < n ==> d.entries[e] == d.entries[..n][e];
    assert (o, n).1 == n;
    NewShare(d, o, n, other);
    LastScrap(db, d, o, if recorded then WipCredits(d.entries[n].lines) else 0);
    LastScrap(db, d, other, 0);
  }

  /** S counts what an operation scrap posts exactly when it has a material row. */
  lemma OperationScrapIsCounted(db: Db, o: OrderId, materials: seq<real>, labor: real, other: OrderId)
    requires Valid(db) && other != o
    ensures var d, total := RecordOperationScrap(db, o, materials, labor), TotalOf(materials) + labor;
            var posts := total > 0.0 && TotalOf(materials) >= -1.0 && labor >= -1.0;
            && ScrapOf(d, o) == ScrapOf(db, o) + (if posts && materials != [] then RoundCents(total) else 0)
            && ScrapOf(d, other) == ScrapOf(db, other)
  {
    OperationScrapPostsExactly(TotalOf(materials), labor);
    OperationScrapShape(db, o, materials, labor);
    if OperationScrapPosts(TotalOf(materials), labor) {
      OperationScrapNet(TotalOf(materials), labor);
      PostedScrapCounts(db, RecordOperationScrap(db, o, materials, labor), o, materials != [], other);
    }
  }

  /** The material amount is the sum over the material rows. */
  lemma MaterialsAddUp(xs: seq<real>, x: real)
    ensures TotalOf([]) == 0.0 && TotalOf(xs + [x]) == TotalOf(xs) + x
  {
    assert (xs + [x])[..|xs|] == xs;
  }

  // ---------------------------------------------------------------------------------------------
  // Labor-only scrap
  // ---------------------------------------------------------------------------------------------

  lemma {:induction false} SumFrame(f: nat -> WipParts, g: nat -> WipParts, k: nat)
    requires forall i: nat :: i < k ==> f(i) == g(i)
    ensures SumOf(f, k) == SumOf(g, k)
  {
    if k > 0 {
      SumFrame(f, g, k - 1);
    }
  }

  lemma {:induction false} CompletionsFrame(db: Db, d: Db, o: OrderId, k: nat)
    requires k <= |db.entries| && k <= |d.entries| && forall e :: 0 <= e < k ==> d.entries[e] == db.entries[e]
    ensures Completions(d, o, k) == Completions(db, o, k)
  {
    if k > 0 {
      CompletionsFrame(db, d, o, k - 1);
    }
  }

  lemma SamePart(db: Db, d: Db, o: OrderId, k: nat)
    requires k < |db.entries| && k < |d.entries| && d.entries[k] == db.entries[k] && d.scrapRecords == db.scrapRecords
    ensures PartOf(d, o, k) == PartOf(db, o, k)
  {}

  lemma PartsFrame(db: Db, d: Db, o: OrderId, k: nat)
    requires k <= |db.entries| && k <= |d.entries| && d.scrapRecords == db.scrapRecords
    requires forall e :: 0 <= e < k ==> d.entries[e] == db.entries[e]
    ensures PartsUpTo(d, o, k) == PartsUpTo(db, o, k) && Completions(d, o, k) == Completions(db, o, k)
  {
    CompletionsFrame(db, d, o, k);
    var f, g := PartFunction(db, o), PartFunction(d, o);
    forall i: nat | i < k ensures f(i) == g(i) { SamePart(db, d, o, i); }
    SumFrame(f, g, k);
  }

  /** An operation scrap without material rows takes its labor out of WIP, and S does not change. */
  lemma LaborOnlyScrap(db: Db, o: OrderId, labor: real)
    requires Valid(db) && labor > 0.0
    ensures var d := RecordOperationScrap(db, o, [], labor);
            && Parts(d, o) == Plus(Parts(db, o), WipParts(0 - RoundCents(labor), 0, 0, 0, RoundCents(labor), 0))
            && ScrapOf(d, o) == ScrapOf(db, o)
            && Completions(d, o, |d.entries|) == Completions(db, o, |db.entries|)
  {
    var d, n := RecordOperationScrap(db, o, [], labor), |db.entries|;
    assert 0.0 + labor == labor;
    OperationScrapNet(0.0, labor);
    assert d.entries[..n] == db.entries;
    PartsFrame(db, d, o, n);
    SameScrap(db, d, o);
    assert forall p :: p in d.scrapRecords ==> p.1 < n;
    assert (o, n).1 == n;
  }

  /** With non-negative costs nothing slips. */
  lemma NoSlip(db: Db, o: OrderId)
    requires CostsNonNegative(db.rows)
    ensures Slip(SweptRows(db.rows, o)) == 0
  {
    SweptCosts(db.rows, o);
    NoExcess(SweptRows(db.rows, o), true);
    NoExcess(SweptRows(db.rows, o), false);
  }

  /** A sweep of the order puts S back on WIP and changes none of the other parts. */
  lemma SweepParts(db: Db, o: OrderId)
    requires Valid(db) && CostsNonNegative(db.rows) && !Idle(db, o)
    ensures Post(db, o).Success?
    ensures var d := Post(db, o).value.0;
            && Parts(d, o) == Plus(Parts(db, o), WipParts(ScrapOf(db, o), ScrapOf(db, o), 0, 0, 0, 0))
            && Completions(d, o, |d.entries|) == Completions(db, o, |db.entries|) + 1
  {
    PostSucceeds(db, o);
    NoSlip(db, o);
    PartsFrame(db, Post(db, o).value.0, o, |db.entries|);
  }

  lemma RunLast(db: Db, ops: seq<Op>)
    requires ops != []
    ensures RunOps(db, ops) == Do(RunOps(db, ops[..|ops| - 1]), ops[|ops| - 1])
  {}

  lemma RunThree(db: Db, ops: seq<Op>)
    requires |ops| == 3
    ensures RunOps(db, ops) == Do(Do(Do(db, ops[0]), ops[1]), ops[2])
  {
    var two := ops[..2];
    var one := two[..1];
    assert one[..0] == [];
    RunLast(db, ops);
    RunLast(db, two);
    RunLast(db, one);
  }

  /** Labor-only scrap, then a row, then a sweep that posts: the labor stays missing. */
  lemma LaborOnlyThenSwept(d0: Db, d1: Db, d2: Db, o: OrderId, labor: real, row: Row)
    requires Valid(d0) && CostsNonNegative(d0.rows) && row.cost >= 0 && labor > 0.0
    requires d1 == RecordOperationScrap(d0, o, [], labor) && d2 == Do(d1, RecordOp(row)) && !Idle(d2, o)
    ensures Post(d2, o).Success?
    ensures var d := Post(d2, o).value.0;
            && Parts(d, o).wip == Parts(d0, o).wip + ScrapOf(d0, o) - RoundCents(labor)
            && Completions(d, o, |d.entries|) == Completions(d0, o, |d0.entries|) + 1
            && ScrapOf(d, o) == ScrapOf(d0, o)
  {
    LaborOnlyScrap(d0, o, labor);
    OperationScrapKeepsValid(d0, o, [], labor);
    RecordChangesNothing(d1, d2, o, row);
    SweepParts(d2, o);
    PostKeepsScrap(d2, o);
  }

  lemma RecordChangesNothing(db: Db, d: Db, o: OrderId, row: Row)
    requires Valid(db) && d == Do(db, RecordOp(row))
    ensures Valid(d) && Parts(d, o) == Parts(db, o) && ScrapOf(d, o) == ScrapOf(db, o)
    ensures |d.entries| == |db.entries| && Completions(d, o, |d.entries|) == Completions(db, o, |db.entries|)
  {
    RecordKeepsValid(db, RecordOp(row));
    PartsFrame(db, d, o, |db.entries|);
    SameScrap(db, d, o);
  }

  lemma PostKeepsScrap(db: Db, o: OrderId)
    requires Valid(db) && Post(db, o).Success?
    ensures ScrapOf(Post(db, o).value.0, o) == ScrapOf(db, o)
  {
    if !Idle(db, o) { SameScrap(db, Post(db, o).value.0, o); }
  }

  predicate LaborOnlyRun(ops: seq<Op>, o: OrderId, labor: real, row: Row)
  {
    |ops| == 3 && ops[0] == OperationScrapOp(o, [], labor) && ops[1] == RecordOp(row) && ops[2] == CompleteOp(o)
  }

  /**
   In an empty ledger: scrap only labor, receive a unit, complete the order. It was swept once, after all scrap, and the
   labor is missing from its WIP.
   */
  lemma LaborOnlyScrapStaysOnWip(db: Db, ops: seq<Op>, o: OrderId, labor: real, row: Row)
    requires db.rows == [] && db.entries == [] && db.scrapRecords == {} && labor > 0.0
    requires row.kind == Receipt && row.item == FinishedGoodItem && row.cost > 0 && Sweepable(row, o)
    requires LaborOnlyRun(ops, o, labor, row)
    ensures var d := RunOps(db, ops);
            Completions(d, o, |d.entries|) == 1 && ScrapOf(d, o) == 0 && Parts(d, o).wip == 0 - RoundCents(labor)
  {
    FromNothing(db, RecordOperationScrap(db, o, [], labor), o, labor, row);
    LaborOnlyOutcome(db, ops, o, labor, row);
  }

  lemma DoComplete(db: Db, o: OrderId)
    requires Post(db, o).Success?
    ensures Do(db, CompleteOp(o)) == Post(db, o).value.0
  {}

  lemma DoOperationScrap(db: Db, o: OrderId, materials: seq<real>, labor: real)
    ensures Do(db, OperationScrapOp(o, materials, labor)) == RecordOperationScrap(db, o, materials, labor)
  {}

  lemma LaborOnlyOutcome(db: Db, ops: seq<Op>, o: OrderId, labor: real, row: Row)
    requires LaborOnlyRun(ops, o, labor, row)
    requires Post(Do(RecordOperationScrap(db, o, [], labor), RecordOp(row)), o).Success?
    ensures RunOps(db, ops) == Post(Do(RecordOperationScrap(db, o, [], labor), RecordOp(row)), o).value.0
  {
    RunThree(db, ops);
    DoOperationScrap(db, o, [], labor);
    DoComplete(Do(RecordOperationScrap(db, o, [], labor), RecordOp(row)), o);
  }

  lemma FromNothing(d0: Db, d1: Db, o: OrderId, labor: real, row: Row)
    requires d0.rows == [] && d0.entries == [] && d0.scrapRecords == {} && labor > 0.0
    requires d1 == RecordOperationScrap(d0, o, [], labor)
    requires row.kind == Receipt && row.item == FinishedGoodItem && row.cost > 0 && Sweepable(row, o)
    ensures var posted := Post(Do(d1, RecordOp(row)), o);
            && posted.Success?
            && var d := posted.value.0;
               Completions(d, o, |d.entries|) == 1 && ScrapOf(d, o) == 0 && Parts(d, o).wip == 0 - RoundCents(labor)
  {
    var d2 := Do(d1, RecordOp(row));
    NothingYet(d0, o);
    LaborOnlyScrap(d0, o, labor);
    SweepFindsTheRow(d0, d1, d2, o, labor, row);
    LaborOnlyThenSwept(d0, d1, d2, o, labor, row);
  }

  lemma NothingYet(db: Db, o: OrderId)
    requires db.rows == [] && db.entries == [] && db.scrapRecords == {}
    ensures Valid(db) && Parts(db, o) == WipParts(0, 0, 0, 0, 0, 0) && ScrapOf(db, o) == 0
    ensures Completions(db, o, |db.entries|) == 0
  {}

  lemma SweepFindsTheRow(d0: Db, d1: Db, d2: Db, o: OrderId, labor: real, row: Row)
    requires d0.rows == [] && d0.scrapRecords == {} && d1 == RecordOperationScrap(d0, o, [], labor)
    requires d2 == Do(d1, RecordOp(row)) && ScrapOf(d1, o) == 0
    requires row.kind == Receipt && row.item == FinishedGoodItem && row.cost > 0 && Sweepable(row, o)
    ensures !Idle(d2, o)
  {
    assert row.(link := None) == row;
    assert d2.rows == [row] && d2.scrapRecords == {};
    NoScrapBeyond(d2, o, 0, |d2.entries|);
    OneRowPosts(d2, row, o);
  }
}
