/**
 The journal entry that a production completion posts: which ledger rows it sweeps, the lines it builds from them,
 and when those lines balance. Money is in cents; a row's cost is the frozen cost already rounded to cents.
 */
module CompletionGl {
  import opened Wrappers

  /** 1200, 1210, 1220, 1230, 5100, 5200 and 5020. */
  datatype Account = RawMaterials | Wip | FinishedGoods | Packaging | DirectLabor | CogsOther | ScrapExpense

  datatype Side = Debit | Credit

  datatype Line = Line(account: Account, amount: int, side: Side)

  datatype ItemType = PackagingItem | FinishedGoodItem | OtherItem

  datatype Kind = Consumption | Receipt | OtherMovement

  type OrderId = nat

  type EntryId = nat

  /**
   One inventory transaction. `order` is the production order it refers to, `labor` says its SKU starts with `SVC-`,
   `held` that it awaits approval, and `link` is its `journal_entry_id`.
   */
  datatype Row = Row(order: Option<OrderId>, kind: Kind, item: ItemType, labor: bool, cost: int,
                     voided: bool, held: bool, link: Option<EntryId>)

  predicate Sweepable(row: Row, order: OrderId)
  {
    row.order == Some(order) && row.kind != OtherMovement && row.link.None? && !row.voided && !row.held
  }

  function InventoryAccountFor(item: ItemType): Account
  {
    match item
    case PackagingItem => Packaging
    case FinishedGoodItem => FinishedGoods
    case OtherItem => RawMaterials
  }

  function AccountOf(row: Row): Account
  {
    if row.kind != Receipt && row.labor then DirectLabor else InventoryAccountFor(row.item)
  }

  // ---------------------------------------------------------------------------------------------
  // Sums
  // ---------------------------------------------------------------------------------------------

  /** The total cost of the rows of one kind that route to one account. */
  function Amount(rows: seq<Row>, receipt: bool, a: Account): int
  {
    if rows == [] then 0
    else Amount(rows[..|rows| - 1], receipt, a) + Share(rows[|rows| - 1], receipt, a)
  }

  function Share(row: Row, receipt: bool, a: Account): int
  {
    if (row.kind == Receipt) == receipt && AccountOf(row) == a then row.cost else 0
  }

  /** The accounts a row can route to, in the order of their codes. */
  const POSTING_ORDER: seq<Account> := [RawMaterials, FinishedGoods, Packaging, DirectLabor]

  function Total(rows: seq<Row>, receipt: bool): int
  {
    Amount(rows, receipt, RawMaterials) + Amount(rows, receipt, FinishedGoods)
    + Amount(rows, receipt, Packaging) + Amount(rows, receipt, DirectLabor)
  }

  /** V = R + S - C. */
  function Variance(rows: seq<Row>, scrap: int): int
  {
    Total(rows, true) + scrap - Total(rows, false)
  }

  /** One line when the amount is positive, none otherwise. */
  function LineIf(account: Account, amount: int, side: Side): seq<Line>
  {
    if amount > 0 then [Line(account, amount, side)] else []
  }

  function SideOf(receipt: bool): Side { if receipt then Debit else Credit }

  /** The lines of the first k accounts. */
  function AccountLines(rows: seq<Row>, receipt: bool, k: nat): seq<Line>
    requires k <= |POSTING_ORDER|
  {
    if k == 0 then []
    else (
      var a := POSTING_ORDER[k - 1];
      AccountLines(rows, receipt, k - 1) + LineIf(a, Amount(rows, receipt, a), SideOf(receipt))
    )
  }

  function VarianceLines(v: int): seq<Line>
  {
    if v > 0 then [Line(Wip, v, Debit), Line(CogsOther, v, Credit)]
    else if v < 0 then [Line(CogsOther, -v, Debit), Line(Wip, -v, Credit)]
    else []
  }

  function Lines(rows: seq<Row>, scrap: int): seq<Line>
  {
    LineIf(Wip, Total(rows, false), Debit) + AccountLines(rows, false, 4) + AccountLines(rows, true, 4)
    + LineIf(Wip, Total(rows, true), Credit) + VarianceLines(Variance(rows, scrap))
  }

  // ---------------------------------------------------------------------------------------------
  // What a set of lines does to the ledger
  // ---------------------------------------------------------------------------------------------

  /** Debits minus credits on one account, and over all accounts. */
  function Net(lines: seq<Line>, a: Account): int
  {
    if lines == [] then 0
    else (
      var l := lines[|lines| - 1];
      Net(lines[..|lines| - 1], a) + (if l.account == a then Signed(l.amount, l.side) else 0)
    )
  }

  function Imbalance(lines: seq<Line>): int
  {
    if lines == [] then 0
    else (
      var l := lines[|lines| - 1];
      Imbalance(lines[..|lines| - 1]) + Signed(l.amount, l.side)
    )
  }

  /** `create_journal_entry` lets through a difference of one cent. */
  predicate Accepted(lines: seq<Line>)
  {
    -1 <= Imbalance(lines) <= 1
  }

  lemma {:induction false} NetConcat(x: seq<Line>, y: seq<Line>, a: Account)
    ensures Net(x + y, a) == Net(x, a) + Net(y, a)
  {
    if y == [] {
      assert x + y == x;
    } else {
      assert (x + y)[..|x + y| - 1] == x + y[..|y| - 1];
      NetConcat(x, y[..|y| - 1], a);
    }
  }

  lemma {:induction false} ImbalanceConcat(x: seq<Line>, y: seq<Line>)
    ensures Imbalance(x + y) == Imbalance(x) + Imbalance(y)
  {
    if y == [] {
      assert x + y == x;
    } else {
      assert (x + y)[..|x + y| - 1] == x + y[..|y| - 1];
      ImbalanceConcat(x, y[..|y| - 1]);
    }
  }

  function Positive(x: int): nat { if x > 0 then x else 0 }

  function Signed(x: int, side: Side): int { if side == Debit then x else -x }

  lemma LineIfNet(account: Account, amount: int, side: Side, a: Account)
    ensures Net(LineIf(account, amount, side), a) == if account == a then Signed(Positive(amount), side) else 0
    ensures Imbalance(LineIf(account, amount, side)) == Signed(Positive(amount), side)
  {
    if amount > 0 {
      var one := [Line(account, amount, side)];
      assert one[..|one| - 1] == [];
    }
  }

  lemma OneLine(l: Line, a: Account)
    ensures Net([l], a) == if l.account == a then Signed(l.amount, l.side) else 0
    ensures Imbalance([l]) == Signed(l.amount, l.side)
  {
    assert [l][..0] == [];
  }

  lemma VarianceNet(v: int, a: Account)
    ensures Net(VarianceLines(v), a) == if a == Wip then v else if a == CogsOther then -v else 0
    ensures Imbalance(VarianceLines(v)) == 0
  {
    if v != 0 {
      var two := VarianceLines(v);
      assert two == [two[0]] + [two[1]];
      NetConcat([two[0]], [two[1]], a);
      ImbalanceConcat([two[0]], [two[1]]);
      OneLine(two[0], a);
      OneLine(two[1], a);
    }
  }

  /** What one account contributes to `AccountLines`. */
  function Posted(rows: seq<Row>, receipt: bool, a: Account): int
  {
    Signed(Positive(Amount(rows, receipt, a)), SideOf(receipt))
  }

  lemma AccountLineStep(rows: seq<Row>, receipt: bool, k: nat, a: Account)
    requires 0 < k <= |POSTING_ORDER|
    ensures Net(AccountLines(rows, receipt, k), a)
         == Net(AccountLines(rows, receipt, k - 1), a)
            + (if a == POSTING_ORDER[k - 1] then Posted(rows, receipt, a) else 0)
    ensures Imbalance(AccountLines(rows, receipt, k))
         == Imbalance(AccountLines(rows, receipt, k - 1)) + Posted(rows, receipt, POSTING_ORDER[k - 1])
  {
    var b := POSTING_ORDER[k - 1];
    var before, line := AccountLines(rows, receipt, k - 1), LineIf(b, Amount(rows, receipt, b), SideOf(receipt));
    assert AccountLines(rows, receipt, k) == before + line;
    NetConcat(before, line, a);
    ImbalanceConcat(before, line);
    LineIfNet(b, Amount(rows, receipt, b), SideOf(receipt), a);
  }

  /** The sum of the first k accounts' positive amounts. */
  function PositiveUpTo(rows: seq<Row>, receipt: bool, k: nat): nat
    requires k <= |POSTING_ORDER|
  {
    if k == 0 then 0 else PositiveUpTo(rows, receipt, k - 1) + Positive(Amount(rows, receipt, POSTING_ORDER[k - 1]))
  }

  /** An account's place in the posting order. */
  function Rank(a: Account): nat
  {
    match a
    case RawMaterials => 0
    case FinishedGoods => 1
    case Packaging => 2
    case DirectLabor => 3
    case _ => 4
  }

  lemma RankIsPosition(k: nat, a: Account)
    requires k < |POSTING_ORDER|
    ensures POSTING_ORDER[k] == a <==> Rank(a) == k
    ensures a in POSTING_ORDER <==> Rank(a) < 4
  {
    var order := POSTING_ORDER;
    assert a in order <==> a == order[0] || a == order[1] || a == order[2] || a == order[3];
  }

  lemma {:induction false} AccountLinesUpTo(rows: seq<Row>, receipt: bool, k: nat, a: Account)
    requires k <= |POSTING_ORDER|
    ensures Net(AccountLines(rows, receipt, k), a) == if Rank(a) < k then Posted(rows, receipt, a) else 0
  {
    if k > 0 {
      AccountLinesUpTo(rows, receipt, k - 1, a);
      AccountLineStep(rows, receipt, k, a);
      RankIsPosition(k - 1, a);
    }
  }

  lemma {:induction false} AccountLinesImbalance(rows: seq<Row>, receipt: bool, k: nat)
    requires k <= |POSTING_ORDER|
    ensures Imbalance(AccountLines(rows, receipt, k)) == Signed(PositiveUpTo(rows, receipt, k), SideOf(receipt))
  {
    if k > 0 {
      AccountLinesImbalance(rows, receipt, k - 1);
      AccountLineStep(rows, receipt, k, Wip);
    }
  }

  lemma AccountLinesNet(rows: seq<Row>, receipt: bool, a: Account)
    ensures Net(AccountLines(rows, receipt, 4), a) == if a in POSTING_ORDER then Posted(rows, receipt, a) else 0
  {
    RankIsPosition(0, a);
    var all := |POSTING_ORDER|;
    AccountLinesUpTo(rows, receipt, all, a);
  }

  lemma PositiveUpToFour(rows: seq<Row>, receipt: bool)
    ensures PositiveUpTo(rows, receipt, 4)
         == Positive(Amount(rows, receipt, RawMaterials)) + Positive(Amount(rows, receipt, FinishedGoods))
            + Positive(Amount(rows, receipt, Packaging)) + Positive(Amount(rows, receipt, DirectLabor))
  {
    assert PositiveUpTo(rows, receipt, 1) == Positive(Amount(rows, receipt, RawMaterials));
    assert PositiveUpTo(rows, receipt, 2)
        == PositiveUpTo(rows, receipt, 1) + Positive(Amount(rows, receipt, FinishedGoods));
    assert PositiveUpTo(rows, receipt, 3)
        == PositiveUpTo(rows, receipt, 2) + Positive(Amount(rows, receipt, Packaging));
  }

  /** By how much dropping the non-positive account lines overstates one side of the entry. */
  function Excess(rows: seq<Row>, receipt: bool): int
  {
    PositiveUpTo(rows, receipt, 4) - Positive(Total(rows, receipt))
  }

  /**
   What a completion leaves on WIP beyond its S, because negative totals have no line: nothing when there are none.
   */
  function Slip(rows: seq<Row>): int
  {
    Dropped(Total(rows, false)) - Dropped(Total(rows, true))
  }

  /** How much the entry's debits exceed its credits. */
  function EntryGap(rows: seq<Row>): int
  {
    Excess(rows, true) - Excess(rows, false)
  }

  function Dropped(x: int): int
  {
    Positive(x) - x
  }

  lemma NetOfFive(l1: seq<Line>, l2: seq<Line>, l3: seq<Line>, l4: seq<Line>, l5: seq<Line>, a: Account)
    ensures Net(l1 + l2 + l3 + l4 + l5, a) == Net(l1, a) + Net(l2, a) + Net(l3, a) + Net(l4, a) + Net(l5, a)
  {
    NetConcat(l1, l2, a); NetConcat(l1 + l2, l3, a);
    NetConcat(l1 + l2 + l3, l4, a); NetConcat(l1 + l2 + l3 + l4, l5, a);
  }

  lemma ImbalanceOfFive(l1: seq<Line>, l2: seq<Line>, l3: seq<Line>, l4: seq<Line>, l5: seq<Line>)
    ensures Imbalance(l1 + l2 + l3 + l4 + l5)
         == Imbalance(l1) + Imbalance(l2) + Imbalance(l3) + Imbalance(l4) + Imbalance(l5)
  {
    ImbalanceConcat(l1, l2); ImbalanceConcat(l1 + l2, l3);
    ImbalanceConcat(l1 + l2 + l3, l4); ImbalanceConcat(l1 + l2 + l3 + l4, l5);
  }

  lemma LinesNet(rows: seq<Row>, scrap: int, a: Account)
    ensures Net(Lines(rows, scrap), a)
         == (if a == Wip then Positive(Total(rows, false)) - Positive(Total(rows, true)) + Variance(rows, scrap)
             else if a == CogsOther then -Variance(rows, scrap)
             else if a in POSTING_ORDER then Positive(Amount(rows, true, a)) - Positive(Amount(rows, false, a))
             else 0)
  {
    NetOfFive(LineIf(Wip, Total(rows, false), Debit), AccountLines(rows, false, 4), AccountLines(rows, true, 4),
              LineIf(Wip, Total(rows, true), Credit), VarianceLines(Variance(rows, scrap)), a);
    LineIfNet(Wip, Total(rows, false), Debit, a);
    LineIfNet(Wip, Total(rows, true), Credit, a);
    AccountLinesNet(rows, false, a);
    AccountLinesNet(rows, true, a);
    VarianceNet(Variance(rows, scrap), a);
  }

  lemma LinesImbalance(rows: seq<Row>, scrap: int)
    ensures Imbalance(Lines(rows, scrap)) == Excess(rows, true) - Excess(rows, false)
  {
    ImbalanceOfFive(LineIf(Wip, Total(rows, false), Debit), AccountLines(rows, false, 4), AccountLines(rows, true, 4),
                    LineIf(Wip, Total(rows, true), Credit), VarianceLines(Variance(rows, scrap)));
    LineIfNet(Wip, Total(rows, false), Debit, Wip);
    LineIfNet(Wip, Total(rows, true), Credit, Wip);
    var all := |POSTING_ORDER|;
    AccountLinesImbalance(rows, false, all);
    AccountLinesImbalance(rows, true, all);
    VarianceNet(Variance(rows, scrap), Wip);
  }

  // ---------------------------------------------------------------------------------------------
  // Main results about one entry
  // ---------------------------------------------------------------------------------------------

  /** The entry balances to the cent exactly when the non-positive account totals it drops distort both sides alike. */
  lemma BalancedExactly(rows: seq<Row>, scrap: int)
    ensures Imbalance(Lines(rows, scrap)) == 0 <==> Excess(rows, true) == Excess(rows, false)
    ensures Accepted(Lines(rows, scrap)) <==> -1 <= Excess(rows, true) - Excess(rows, false) <= 1
  {
    LinesImbalance(rows, scrap);
  }

  predicate CostsNonNegative(rows: seq<Row>)
  {
    forall i :: 0 <= i < |rows| ==> rows[i].cost >= 0
  }

  lemma {:induction false} AmountsNonNegative(rows: seq<Row>, receipt: bool, a: Account)
    requires CostsNonNegative(rows)
    ensures Amount(rows, receipt, a) >= 0
  {
    if rows != [] {
      AmountsNonNegative(rows[..|rows| - 1], receipt, a);
    }
  }

  lemma NoExcess(rows: seq<Row>, receipt: bool)
    requires CostsNonNegative(rows)
    ensures Excess(rows, receipt) == 0 && Total(rows, receipt) >= 0
  {
    PositiveUpToFour(rows, receipt);
    AmountsNonNegative(rows, receipt, RawMaterials);
    AmountsNonNegative(rows, receipt, FinishedGoods);
    AmountsNonNegative(rows, receipt, Packaging);
    AmountsNonNegative(rows, receipt, DirectLabor);
  }

  /**
   With non-negative costs the entry balances, moves every inventory account by exactly receipts minus consumption,
   relieves labor, and leaves on WIP exactly the S that the order's scrap entries already took out: WIP nets to zero.
   */
  lemma CompletionEntry(rows: seq<Row>, scrap: int)
    requires CostsNonNegative(rows)
    ensures Imbalance(Lines(rows, scrap)) == 0 && Accepted(Lines(rows, scrap))
    ensures Net(Lines(rows, scrap), Wip) == scrap
    ensures Net(Lines(rows, scrap), CogsOther) == -Variance(rows, scrap)
    ensures forall a :: a in POSTING_ORDER ==>
              Net(Lines(rows, scrap), a) == Amount(rows, true, a) - Amount(rows, false, a)
  {
    NoExcess(rows, true);
    NoExcess(rows, false);
    LinesImbalance(rows, scrap);
    LinesNet(rows, scrap, Wip);
    LinesNet(rows, scrap, CogsOther);
    forall a | a in POSTING_ORDER
      ensures Net(Lines(rows, scrap), a) == Amount(rows, true, a) - Amount(rows, false, a)
    {
      LinesNet(rows, scrap, a);
      AmountsNonNegative(rows, true, a);
      AmountsNonNegative(rows, false, a);
    }
  }

  predicate AllPositive(lines: seq<Line>)
  {
    forall i :: 0 <= i < |lines| ==> lines[i].amount > 0
  }

  lemma {:induction false} AccountLinesPositive(rows: seq<Row>, receipt: bool, k: nat)
    requires k <= |POSTING_ORDER|
    ensures AllPositive(AccountLines(rows, receipt, k))
  {
    if k > 0 {
      var a := POSTING_ORDER[k - 1];
      AccountLinesPositive(rows, receipt, k - 1);
      LineIfPositive(a, Amount(rows, receipt, a), SideOf(receipt));
      TwoPositive(AccountLines(rows, receipt, k - 1), LineIf(a, Amount(rows, receipt, a), SideOf(receipt)));
    }
  }

  lemma AccountLinesEmpty(rows: seq<Row>, receipt: bool, k: nat)
    requires 0 < k <= |POSTING_ORDER|
    ensures AccountLines(rows, receipt, k) == []
       <==> AccountLines(rows, receipt, k - 1) == [] && Amount(rows, receipt, POSTING_ORDER[k - 1]) <= 0
  {
    var a := POSTING_ORDER[k - 1];
    var before, line := AccountLines(rows, receipt, k - 1), LineIf(a, Amount(rows, receipt, a), SideOf(receipt));
    assert |AccountLines(rows, receipt, k)| == |before| + |line|;
  }

  lemma FivePositive(l1: seq<Line>, l2: seq<Line>, l3: seq<Line>, l4: seq<Line>, l5: seq<Line>)
    requires AllPositive(l1) && AllPositive(l2) && AllPositive(l3) && AllPositive(l4) && AllPositive(l5)
    ensures AllPositive(l1 + l2 + l3 + l4 + l5)
  {
    TwoPositive(l1, l2);
    TwoPositive(l1 + l2, l3);
    TwoPositive(l1 + l2 + l3, l4);
    TwoPositive(l1 + l2 + l3 + l4, l5);
  }

  lemma TwoPositive(x: seq<Line>, y: seq<Line>)
    requires AllPositive(x) && AllPositive(y)
    ensures AllPositive(x + y)
  {}

  lemma FiveEmpty(l1: seq<Line>, l2: seq<Line>, l3: seq<Line>, l4: seq<Line>, l5: seq<Line>)
    ensures l1 + l2 + l3 + l4 + l5 == [] <==> l1 == [] && l2 == [] && l3 == [] && l4 == [] && l5 == []
  {
    assert |l1 + l2 + l3 + l4 + l5| == |l1| + |l2| + |l3| + |l4| + |l5|;
  }

  lemma LineIfPositive(account: Account, amount: int, side: Side)
    ensures AllPositive(LineIf(account, amount, side))
  {}

  lemma VariancePositive(v: int)
    ensures AllPositive(VarianceLines(v))
  {}

  /** No line of an entry is zero or negative. */
  lemma LinesArePositive(rows: seq<Row>, scrap: int)
    ensures AllPositive(Lines(rows, scrap))
  {
    var all := |POSTING_ORDER|;
    AccountLinesPositive(rows, false, all);
    AccountLinesPositive(rows, true, all);
    LineIfPositive(Wip, Total(rows, false), Debit);
    LineIfPositive(Wip, Total(rows, true), Credit);
    VariancePositive(Variance(rows, scrap));
    FivePositive(LineIf(Wip, Total(rows, false), Debit), AccountLines(rows, false, 4), AccountLines(rows, true, 4),
                 LineIf(Wip, Total(rows, true), Credit), VarianceLines(Variance(rows, scrap)));
  }

  /** No account of one side has a positive total. */
  predicate NothingOn(rows: seq<Row>, receipt: bool)
  {
    && Amount(rows, receipt, RawMaterials) <= 0 && Amount(rows, receipt, FinishedGoods) <= 0
    && Amount(rows, receipt, Packaging) <= 0 && Amount(rows, receipt, DirectLabor) <= 0
  }

  lemma SideIsEmpty(rows: seq<Row>, receipt: bool)
    ensures AccountLines(rows, receipt, 4) == [] <==> NothingOn(rows, receipt)
    ensures NothingOn(rows, receipt) ==> Total(rows, receipt) <= 0
  {
    var order := POSTING_ORDER;
    assert order[0] == RawMaterials && order[1] == FinishedGoods && order[2] == Packaging && order[3] == DirectLabor;
    AccountLinesEmpty(rows, receipt, 1);
    AccountLinesEmpty(rows, receipt, 2);
    AccountLinesEmpty(rows, receipt, 3);
    AccountLinesEmpty(rows, receipt, 4);
  }

  /**
    There is nothing to post exactly when neither side has a positive account and receipts plus S equal
    consumption.
    */
  lemma NothingToPost(rows: seq<Row>, scrap: int)
    ensures Lines(rows, scrap) == []
       <==> NothingOn(rows, false) && NothingOn(rows, true) && Total(rows, true) + scrap == Total(rows, false)
  {
    SideIsEmpty(rows, false);
    SideIsEmpty(rows, true);
    FiveEmpty(LineIf(Wip, Total(rows, false), Debit), AccountLines(rows, false, 4), AccountLines(rows, true, 4),
              LineIf(Wip, Total(rows, true), Credit), VarianceLines(Variance(rows, scrap)));
  }

  // ---------------------------------------------------------------------------------------------
  // Where the money goes, by what the rows are
  // ---------------------------------------------------------------------------------------------

  /** What rows of this side, item type and labor flag cost together. */
  function Moved(rows: seq<Row>, receipt: bool, item: ItemType, labor: bool): int
  {
    if rows == [] then 0
    else (
      var r := rows[|rows| - 1];
      Moved(rows[..|rows| - 1], receipt, item, labor)
      + if (r.kind == Receipt) == receipt && r.item == item && r.labor == labor then r.cost else 0
    )
  }

  function AllMoved(rows: seq<Row>, receipt: bool, labor: bool): int
  {
    Moved(rows, receipt, PackagingItem, labor) + Moved(rows, receipt, FinishedGoodItem, labor)
    + Moved(rows, receipt, OtherItem, labor)
  }

  lemma {:induction false} AmountsByItem(rows: seq<Row>)
    ensures Amount(rows, true, Packaging)
            == Moved(rows, true, PackagingItem, false) + Moved(rows, true, PackagingItem, true)
    ensures Amount(rows, true, FinishedGoods)
         == Moved(rows, true, FinishedGoodItem, false) + Moved(rows, true, FinishedGoodItem, true)
    ensures Amount(rows, true, RawMaterials) == Moved(rows, true, OtherItem, false) + Moved(rows, true, OtherItem, true)
    ensures Amount(rows, true, DirectLabor) == 0
    ensures Amount(rows, false, Packaging) == Moved(rows, false, PackagingItem, false)
    ensures Amount(rows, false, FinishedGoods) == Moved(rows, false, FinishedGoodItem, false)
    ensures Amount(rows, false, RawMaterials) == Moved(rows, false, OtherItem, false)
    ensures Amount(rows, false, DirectLabor) == AllMoved(rows, false, true)
  {
    if rows != [] {
      AmountsByItem(rows[..|rows| - 1]);
    }
  }

  /**
   Finished goods, packaging and everything else go to 1220, 1230 and 1200, receipts in and non-labor consumption out;
   labor consumption goes out of 5100 whatever its item; WIP keeps S and 5200 takes the difference.
   */
  lemma EntryByItem(rows: seq<Row>, scrap: int)
    requires CostsNonNegative(rows)
    ensures var lines := Lines(rows, scrap);
            && Net(lines, FinishedGoods)
            == Moved(rows, true, FinishedGoodItem, false) + Moved(rows, true, FinishedGoodItem, true)
               - Moved(rows, false, FinishedGoodItem, false)
            && Net(lines, Packaging)
            == Moved(rows, true, PackagingItem, false) + Moved(rows, true, PackagingItem, true)
               - Moved(rows, false, PackagingItem, false)
            && Net(lines, RawMaterials)
            == Moved(rows, true, OtherItem, false) + Moved(rows, true, OtherItem, true)
               - Moved(rows, false, OtherItem, false)
            && Net(lines, DirectLabor) == -AllMoved(rows, false, true)
            && Net(lines, Wip) == scrap
            && Net(lines, CogsOther)
            == AllMoved(rows, false, false) + AllMoved(rows, false, true) - scrap
               - AllMoved(rows, true, false) - AllMoved(rows, true, true)
            && Net(lines, ScrapExpense) == 0
  {
    CompletionEntry(rows, scrap);
    AmountsByItem(rows);
    LinesNet(rows, scrap, ScrapExpense);
    forall a ensures a in POSTING_ORDER <==> Rank(a) < 4 { RankIsPosition(0, a); }
  }

  /**
   S is added to every completion entry of an order. When the rows are swept in two rounds (per-operation consumption,
   then the bulk completion) after scrap, WIP ends up at zero exactly when there was no scrap.
   */
  lemma SecondSweepCountsScrapAgain(first: seq<Row>, second: seq<Row>, scrap: int)
    requires CostsNonNegative(first) && CostsNonNegative(second)
    ensures Net(Lines(first, scrap) + Lines(second, scrap), Wip) - scrap == 0 <==> scrap == 0
  {
    CompletionEntry(first, scrap);
    CompletionEntry(second, scrap);
    NetConcat(Lines(first, scrap), Lines(second, scrap), Wip);
  }

  /**
   A row with a negative unit cost that comes to one cent is enough to post an entry that does not balance: its line is
   dropped, the total keeps it.
   */
  lemma NegativeCentUnbalances()
    ensures var rows := [Row(Some(0), Consumption, OtherItem, false, 500, false, false, None),
                         Row(Some(0), Consumption, PackagingItem, false, -1, false, false, None)];
            Imbalance(Lines(rows, 0)) == -1 && Accepted(Lines(rows, 0))
  {
    var r0 := Row(Some(0), Consumption, OtherItem, false, 500, false, false, None);
    var r1 := Row(Some(0), Consumption, PackagingItem, false, -1, false, false, None);
    CentExcess(r0, r1);
    NoReceiptExcess(r0, r1);
    LinesImbalance([r0, r1], 0);
  }

  lemma CentExcess(r0: Row, r1: Row)
    requires r0.kind == Consumption && AccountOf(r0) == RawMaterials && r0.cost == 500
    requires r1.kind == Consumption && AccountOf(r1) == Packaging && r1.cost == -1
    ensures Excess([r0, r1], false) == 1
  {
    PositiveUpToFour([r0, r1], false);
    AmountOfTwo(r0, r1, false, RawMaterials);
    AmountOfTwo(r0, r1, false, FinishedGoods);
    AmountOfTwo(r0, r1, false, Packaging);
    AmountOfTwo(r0, r1, false, DirectLabor);
  }

  lemma NoReceiptExcess(r0: Row, r1: Row)
    requires r0.kind == Consumption && r1.kind == Consumption
    ensures Excess([r0, r1], true) == 0
  {
    PositiveUpToFour([r0, r1], true);
    AmountOfTwo(r0, r1, true, RawMaterials);
    AmountOfTwo(r0, r1, true, FinishedGoods);
    AmountOfTwo(r0, r1, true, Packaging);
    AmountOfTwo(r0, r1, true, DirectLabor);
  }

  lemma AmountOfTwo(r0: Row, r1: Row, receipt: bool, a: Account)
    ensures Amount([r0, r1], receipt, a) == Share(r0, receipt, a) + Share(r1, receipt, a)
  {
    assert [r0, r1][..1] == [r0];
    AmountOfOne(r0, receipt, a);
  }

  lemma AmountOfOne(row: Row, receipt: bool, a: Account)
    ensures Amount([row], receipt, a) == Share(row, receipt, a)
  {
    assert [row][..0] == [];
    assert Amount([], receipt, a) == 0;
  }

  // ---------------------------------------------------------------------------------------------
  // The code that builds the preview
  // ---------------------------------------------------------------------------------------------

  datatype Preview = Preview(consumption: map<Account, int>, receipts: map<Account, int>, scrap: int, variance: int,
                             lines: seq<Line>)

  function Get(m: map<Account, int>, a: Account): int
  {
    if a in m then m[a] else 0
  }

  /** The sum of a map's values over the accounts a row can route to. */
  function Sum(m: map<Account, int>): int
  {
    Get(m, RawMaterials) + Get(m, FinishedGoods) + Get(m, Packaging) + Get(m, DirectLabor)
  }

  lemma AmountStep(rows: seq<Row>, i: nat)
    requires i < |rows|
    ensures forall receipt: bool, a: Account ::
              Amount(rows[..i + 1], receipt, a) == Amount(rows[..i], receipt, a) + Share(rows[i], receipt, a)
  {
    assert rows[..i + 1][..i] == rows[..i];
  }

  /** The first loop of `_build_preview`: accumulate by account. */
  method RouteRows(rows: seq<Row>) returns (consumption: map<Account, int>, receipts: map<Account, int>)
    ensures forall a :: Get(consumption, a) == Amount(rows, false, a)
    ensures forall a :: Get(receipts, a) == Amount(rows, true, a)
  {
    consumption, receipts := map[], map[];
    for i := 0 to |rows|
      invariant forall a :: Get(consumption, a) == Amount(rows[..i], false, a)
      invariant forall a :: Get(receipts, a) == Amount(rows[..i], true, a)
    {
      var row := rows[i];
      var account := AccountOf(row);
      AmountStep(rows, i);
      if row.kind == Receipt {
        receipts := receipts[account := Get(receipts, account) + row.cost];
      } else {
        consumption := consumption[account := Get(consumption, account) + row.cost];
      }
    }
    assert rows[..|rows|] == rows;
  }

  /** One of the loops over `sorted(amounts.items())`. */
  method EmitLines(ghost rows: seq<Row>, amounts: map<Account, int>, receipt: bool) returns (lines: seq<Line>)
    requires forall a :: Get(amounts, a) == Amount(rows, receipt, a)
    ensures lines == AccountLines(rows, receipt, 4)
  {
    lines := [];
    for k := 0 to |POSTING_ORDER|
      invariant lines == AccountLines(rows, receipt, k)
    {
      lines := lines + LineIf(POSTING_ORDER[k], Get(amounts, POSTING_ORDER[k]), SideOf(receipt));
    }
  }

  /** `_build_preview`: accumulate by account, then emit the lines in account order. */
  method BuildPreview(rows: seq<Row>, scrap: int) returns (p: Preview)
    ensures forall a :: Get(p.consumption, a) == Amount(rows, false, a)
    ensures forall a :: Get(p.receipts, a) == Amount(rows, true, a)
    ensures p.scrap == scrap && p.variance == Variance(rows, scrap)
    ensures p.lines == Lines(rows, scrap)
  {
    var consumption, receipts := RouteRows(rows);
    var variance := Sum(receipts) + scrap - Sum(consumption);
    var credits := EmitLines(rows, consumption, false);
    var debits := EmitLines(rows, receipts, true);
    var lines := LineIf(Wip, Sum(consumption), Debit) + credits + debits
                 + LineIf(Wip, Sum(receipts), Credit) + VarianceLines(variance);
    p := Preview(consumption, receipts, scrap, variance, lines);
  }
}
