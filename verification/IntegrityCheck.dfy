/**
 The integrity checker's BOM and inventory passes. A pass first detects everything, then repairs what it detected, so
 a repair can create an issue that only the next pass sees. Tables are maps from primary key to row, and references may
 dangle: the checker exists for databases whose foreign keys are not trusted. Quantities are in hundredths.
 */
module IntegrityCheck {
  import opened Wrappers

  type Id = nat

  datatype Bom = Bom(product: Id, active: bool)

  datatype BomLine = BomLine(bom: Id, component: Id)

  datatype Stock = Stock(product: Id, onHand: int, reserved: int)

  /** `products` maps a product to its `has_bom` flag. */
  datatype Db = Db(products: map<Id, bool>, boms: map<Id, Bom>, lines: map<Id, BomLine>, inventory: map<Id, Stock>)

  // ---------------------------------------------------------------------------------------------
  // Detection
  // ---------------------------------------------------------------------------------------------

  function OrphanLines(db: Db): set<Id>
  {
    set l | l in db.lines && db.lines[l].component !in db.products
  }

  /** BOMs without any line, whether active or not. */
  function EmptyBoms(db: Db): set<Id>
  {
    set b | b in db.boms && !HasLine(db, b)
  }

  predicate HasLine(db: Db, b: Id)
  {
    exists l :: l in db.lines && db.lines[l].bom == b
  }

  predicate HasActiveBom(db: Db, p: Id)
  {
    exists b :: b in db.boms && db.boms[b].product == p && db.boms[b].active
  }

  /** Products flagged has_bom without an active BOM. */
  function MissingBoms(db: Db): set<Id>
  {
    set p | p in db.products && db.products[p] && !HasActiveBom(db, p)
  }

  function NegativeStock(db: Db): set<Id>
  {
    set s | s in db.inventory && db.inventory[s].onHand < 0
  }

  function OverAllocated(db: Db): set<Id>
  {
    set s | s in db.inventory && db.inventory[s].reserved > db.inventory[s].onHand
  }

  function OrphanStock(db: Db): set<Id>
  {
    set s | s in db.inventory && db.inventory[s].product !in db.products
  }

  // ---------------------------------------------------------------------------------------------
  // Repairs, each applied to the rows an issue lists
  // ---------------------------------------------------------------------------------------------

  function DeleteLines(db: Db, rows: set<Id>): Db
  {
    db.(lines := db.lines - rows)
  }

  function Deactivate(db: Db, rows: set<Id>): Db
  {
    db.(boms := map b | b in db.boms :: if b in rows then db.boms[b].(active := false) else db.boms[b])
  }

  function ClearHasBom(db: Db, rows: set<Id>): Db
  {
    db.(products := map p | p in db.products :: if p in rows then false else db.products[p])
  }

  function ZeroStock(db: Db, rows: set<Id>): Db
  {
    db.(inventory := map s | s in db.inventory ::
          if s in rows then db.inventory[s].(onHand := 0, reserved := 0) else db.inventory[s])
  }

  function CapAllocation(db: Db, rows: set<Id>): Db
  {
    db.(inventory := map s | s in db.inventory ::
          if s in rows then db.inventory[s].(reserved := db.inventory[s].onHand) else db.inventory[s])
  }

  function DeleteStock(db: Db, rows: set<Id>): Db
  {
    db.(inventory := db.inventory - rows)
  }

  /** The rows each of the six repairs works on. */
  datatype Work = Work(orphans: set<Id>, empty: set<Id>, missing: set<Id>,
                       negative: set<Id>, over: set<Id>, gone: set<Id>)

  function Detected(db: Db): Work
  {
    Work(OrphanLines(db), EmptyBoms(db), MissingBoms(db), NegativeStock(db), OverAllocated(db), OrphanStock(db))
  }

  /** The six repairs in the order the checks find their issues. */
  function Repairs(db: Db, w: Work): Db
  {
    var d := ClearHasBom(Deactivate(DeleteLines(db, w.orphans), w.empty), w.missing);
    DeleteStock(CapAllocation(ZeroStock(d, w.negative), w.over), w.gone)
  }

  /** One pass: all detection sees `db`, then everything detected is repaired. */
  function Pass(db: Db): Db
  {
    Repairs(db, Detected(db))
  }

  function Passes(db: Db, n: nat): Db
  {
    if n == 0 then db else Pass(Passes(db, n - 1))
  }

  // ---------------------------------------------------------------------------------------------
  // The checker object
  // ---------------------------------------------------------------------------------------------

  datatype IssueType = OrphanedBomComponents | EmptyBomIssue | MissingBomIssue
                     | NegativeInventory | OverAllocatedIssue | OrphanedInventory

  datatype Issue = Issue(kind: IssueType, rows: set<Id>)

  function Repair(db: Db, issue: Issue): Db
  {
    match issue.kind
    case OrphanedBomComponents => DeleteLines(db, issue.rows)
    case EmptyBomIssue => Deactivate(db, issue.rows)
    case MissingBomIssue => ClearHasBom(db, issue.rows)
    case NegativeInventory => ZeroStock(db, issue.rows)
    case OverAllocatedIssue => CapAllocation(db, issue.rows)
    case OrphanedInventory => DeleteStock(db, issue.rows)
  }

  function RepairAll(db: Db, issues: seq<Issue>): Db
  {
    if issues == [] then db else Repair(RepairAll(db, issues[..|issues| - 1]), issues[|issues| - 1])
  }

  function IssueIf(kind: IssueType, rows: set<Id>): seq<Issue>
  {
    if rows == {} then [] else [Issue(kind, rows)]
  }

  function BomIssues(db: Db): seq<Issue>
  {
    IssueIf(OrphanedBomComponents, OrphanLines(db)) + IssueIf(EmptyBomIssue, EmptyBoms(db))
    + IssueIf(MissingBomIssue, MissingBoms(db))
  }

  function InventoryIssues(db: Db): seq<Issue>
  {
    IssueIf(NegativeInventory, NegativeStock(db)) + IssueIf(OverAllocatedIssue, OverAllocated(db))
    + IssueIf(OrphanedInventory, OrphanStock(db))
  }

  // ---------------------------------------------------------------------------------------------
  // The queries
  // ---------------------------------------------------------------------------------------------

  /** Some right-hand row joins with l. */
  predicate Joins(l: Id, right: set<Id>, on: (Id, Id) -> bool)
  {
    exists r :: r in right && on(l, r)
  }

  /** An outer join filtered on a NULL right side: the left rows that no right row joins. */
  method LeftWithoutRight(left: set<Id>, right: set<Id>, on: (Id, Id) -> bool) returns (rows: set<Id>)
    ensures rows == set l | l in left && !Joins(l, right, on)
  {
    rows := {};
    var todo := left;
    while todo != {}
      invariant todo <= left
      invariant rows == set l | l in left - todo && !Joins(l, right, on)
    {
      var l :| l in todo;
      var rest, matched := right, false;
      while rest != {}
        invariant rest <= right
        invariant matched <==> Joins(l, right - rest, on)
      {
        var r :| r in rest;
        if on(l, r) {
          matched := true;
          assert r in right - (rest - {r});
        }
        JoinsOneMore(l, right - rest, r, on);
        assert right - (rest - {r}) == (right - rest) + {r};
        rest := rest - {r};
      }
      assert right - rest == right;
      if !matched {
        rows := rows + {l};
      }
      todo := todo - {l};
    }
  }

  lemma JoinsOneMore(l: Id, right: set<Id>, r: Id, on: (Id, Id) -> bool)
    ensures Joins(l, right + {r}, on) <==> Joins(l, right, on) || on(l, r)
  {
    if on(l, r) { assert r in right + {r}; }
    if x :| x in right && on(l, x) { assert x in right + {r}; }
  }

  /** A plain filter. */
  method Where(table: set<Id>, condition: Id -> bool) returns (rows: set<Id>)
    ensures rows == set r | r in table && condition(r)
  {
    rows := {};
    var todo := table;
    while todo != {}
      invariant todo <= table
      invariant rows == set r | r in table - todo && condition(r)
    {
      var r :| r in todo;
      if condition(r) {
        rows := rows + {r};
      }
      todo := todo - {r};
    }
  }

  /** Whether the models map `ProductionOrder.actual_completion`, and whether the server has a `sys.indexes` view. */
  datatype Schema = Schema(hasActualCompletion: bool, hasSysIndexes: bool)

  datatype Error = AttributeError

  class DatabaseIntegrityChecker {
    var db: Db
    var issuesFound: seq<Issue>
    var aborted: bool       // the session's transaction has failed, and nothing rolls it back

    constructor (db: Db)
      ensures this.db == db && issuesFound == [] && !aborted
    {
      this.db := db;
      issuesFound := [];
      aborted := false;
    }

    method Append(kind: IssueType, rows: set<Id>)
      modifies this`issuesFound
      ensures issuesFound == old(issuesFound) + IssueIf(kind, rows)
    {
      if rows != {} {
        issuesFound := issuesFound + [Issue(kind, rows)];
      }
    }

    method CheckOrphanedProducts()
      modifies this`issuesFound
      ensures issuesFound == old(issuesFound) + IssueIf(OrphanedBomComponents, OrphanLines(db))
    {
      var lines := db.lines;
      var on := (l: Id, p: Id) => l in lines && lines[l].component == p;
      var rows := LeftWithoutRight(lines.Keys, db.products.Keys, on);
      forall l | l in lines ensures Joins(l, db.products.Keys, on) <==> lines[l].component in db.products {
        if lines[l].component in db.products { assert on(l, lines[l].component); }
      }
      assert rows == OrphanLines(db);
      Append(OrphanedBomComponents, rows);
    }

    method CheckInvalidBomReferences()
      modifies this`issuesFound
      ensures issuesFound
           == old(issuesFound) + IssueIf(EmptyBomIssue, EmptyBoms(db)) + IssueIf(MissingBomIssue, MissingBoms(db))
    {
      var lines, boms, products := db.lines, db.boms, db.products;
      var ofBom := (b: Id, l: Id) => l in lines && lines[l].bom == b;
      var empty := LeftWithoutRight(boms.Keys, lines.Keys, ofBom);
      forall b ensures Joins(b, lines.Keys, ofBom) <==> HasLine(db, b) {
        if l :| l in lines && lines[l].bom == b { assert ofBom(b, l); }
      }
      assert empty == EmptyBoms(db);
      Append(EmptyBomIssue, empty);
      var flagged := Where(products.Keys, p => p in products && products[p]);
      var activeFor := (p: Id, b: Id) => b in boms && boms[b].product == p && boms[b].active;
      var missing := LeftWithoutRight(flagged, boms.Keys, activeFor);
      forall p ensures Joins(p, boms.Keys, activeFor) <==> HasActiveBom(db, p) {
        if b :| b in boms && boms[b].product == p && boms[b].active { assert activeFor(p, b); }
      }
      assert missing == MissingBoms(db);
      Append(MissingBomIssue, missing);
    }

    method CheckInventoryInconsistencies()
      modifies this`issuesFound
      ensures issuesFound == old(issuesFound) + InventoryIssues(db)
    {
      var stock := db.inventory;
      var negative := Where(stock.Keys, s => s in stock && stock[s].onHand < 0);
      assert negative == NegativeStock(db);
      Append(NegativeInventory, negative);
      var over := Where(stock.Keys, s => s in stock && stock[s].reserved > stock[s].onHand);
      assert over == OverAllocated(db);
      Append(OverAllocatedIssue, over);
      var on := (s: Id, p: Id) => s in stock && stock[s].product == p;
      var gone := LeftWithoutRight(stock.Keys, db.products.Keys, on);
      forall s | s in stock ensures Joins(s, db.products.Keys, on) <==> stock[s].product in db.products {
        if stock[s].product in db.products { assert on(s, stock[s].product); }
      }
      assert gone == OrphanStock(db);
      Append(OrphanedInventory, gone);
    }

    /** `check_index_health` catches the error of its query, but the transaction it was in has failed. */
    method CheckIndexHealth(schema: Schema)
      modifies this`aborted
      ensures aborted == (old(aborted) || !schema.hasSysIndexes)
    {
      if !schema.hasSysIndexes {
        aborted := true;
      }
    }

    /** In a failed transaction every repair raises at its commit; the exception is caught and the next one tried. */
    method AutoRepairIssues()
      modifies this`db
      ensures db == if aborted then old(db) else RepairAll(old(db), issuesFound)
    {
      for i := 0 to |issuesFound|
        invariant db == if aborted then old(db) else RepairAll(old(db), issuesFound[..i])
      {
        assert issuesFound[..i + 1][..i] == issuesFound[..i];
        if !aborted {
          db := Repair(db, issuesFound[i]);
        }
      }
      assert issuesFound[..|issuesFound|] == issuesFound;
    }

    /**
     `run_full_check` on a fresh checker object. A repair happens only if the production-order check and the index check
     get through: then it is one pass, otherwise nothing changes.
     */
    method RunFullCheck(autoRepair: bool, schema: Schema) returns (r: Result<(), Error>)
      requires issuesFound == [] && !aborted
      modifies this
      ensures issuesFound == BomIssues(old(db)) + InventoryIssues(old(db))
      ensures r.Failure? <==> !schema.hasActualCompletion
      ensures db == if autoRepair && schema.hasActualCompletion && schema.hasSysIndexes then Pass(old(db)) else old(db)
    {
      CheckOrphanedProducts();
      CheckInvalidBomReferences();
      CheckInventoryInconsistencies();
      assert issuesFound == BomIssues(db) + InventoryIssues(db);
      // check_production_order_integrity
      if !schema.hasActualCompletion {
        return Failure(AttributeError);
      }
      CheckIndexHealth(schema);
      RepairsAreAPass(db);
      if autoRepair && issuesFound != [] {
        AutoRepairIssues();
      }
      r := Success(());
    }
  }

  // ---------------------------------------------------------------------------------------------
  // The issue list repairs to one pass
  // ---------------------------------------------------------------------------------------------

  lemma RepairNothing(db: Db)
    ensures Deactivate(db, {}) == db && ClearHasBom(db, {}) == db && DeleteLines(db, {}) == db
    ensures ZeroStock(db, {}) == db && CapAllocation(db, {}) == db && DeleteStock(db, {}) == db
  {
    assert Deactivate(db, {}).boms == db.boms;
    assert ClearHasBom(db, {}).products == db.products;
    assert DeleteLines(db, {}).lines == db.lines;
    assert ZeroStock(db, {}).inventory == db.inventory;
    assert CapAllocation(db, {}).inventory == db.inventory;
    assert DeleteStock(db, {}).inventory == db.inventory;
  }

  lemma RepairIf(db: Db, issues: seq<Issue>, kind: IssueType, rows: set<Id>)
    ensures RepairAll(db, issues + IssueIf(kind, rows)) == Repair(RepairAll(db, issues), Issue(kind, rows))
  {
    if rows == {} {
      assert issues + IssueIf(kind, rows) == issues;
      RepairNothing(RepairAll(db, issues));
    } else {
      assert (issues + [Issue(kind, rows)])[..|issues|] == issues;
    }
  }

  lemma {:induction false} RepairConcat(db: Db, first: seq<Issue>, second: seq<Issue>)
    ensures RepairAll(db, first + second) == RepairAll(RepairAll(db, first), second)
  {
    if second == [] {
      assert first + second == first;
    } else {
      var rest := second[..|second| - 1];
      assert (first + second)[..|first + second| - 1] == first + rest;
      RepairConcat(db, first, rest);
    }
  }

  lemma ThreeRepairs(db: Db, k1: IssueType, rows1: set<Id>, k2: IssueType, rows2: set<Id>,
                     k3: IssueType, rows3: set<Id>)
    ensures RepairAll(db, IssueIf(k1, rows1) + IssueIf(k2, rows2) + IssueIf(k3, rows3))
         == Repair(Repair(Repair(db, Issue(k1, rows1)), Issue(k2, rows2)), Issue(k3, rows3))
  {
    assert [] + IssueIf(k1, rows1) == IssueIf(k1, rows1);
    RepairIf(db, [], k1, rows1);
    RepairIf(db, IssueIf(k1, rows1), k2, rows2);
    RepairIf(db, IssueIf(k1, rows1) + IssueIf(k2, rows2), k3, rows3);
  }

  lemma ListedBomRepairs(db: Db)
    ensures RepairAll(db, BomIssues(db))
         == ClearHasBom(Deactivate(DeleteLines(db, OrphanLines(db)), EmptyBoms(db)), MissingBoms(db))
  {
    ThreeRepairs(db, OrphanedBomComponents, OrphanLines(db), EmptyBomIssue, EmptyBoms(db),
                 MissingBomIssue, MissingBoms(db));
  }

  lemma ListedStockRepairs(db: Db, d: Db)
    ensures RepairAll(d, InventoryIssues(db))
         == DeleteStock(CapAllocation(ZeroStock(d, NegativeStock(db)), OverAllocated(db)), OrphanStock(db))
  {
    ThreeRepairs(d, NegativeInventory, NegativeStock(db), OverAllocatedIssue, OverAllocated(db),
                 OrphanedInventory, OrphanStock(db));
  }

  lemma RepairsAreAPass(db: Db)
    ensures RepairAll(db, BomIssues(db) + InventoryIssues(db)) == Pass(db)
  {
    RepairConcat(db, BomIssues(db), InventoryIssues(db));
    ListedBomRepairs(db);
    ListedStockRepairs(db, RepairAll(db, BomIssues(db)));
  }

  // ---------------------------------------------------------------------------------------------
  // What a converged database is, defined from the original one without passes
  // ---------------------------------------------------------------------------------------------

  predicate KeepsLine(db: Db, b: Id)
  {
    exists l :: l in db.lines && db.lines[l].bom == b && db.lines[l].component in db.products
  }

  predicate KeepsBom(db: Db, p: Id)
  {
    exists b :: b in db.boms && db.boms[b].product == p && db.boms[b].active && KeepsLine(db, b)
  }

  function CleanLines(db: Db): map<Id, BomLine>
  {
    map l | l in db.lines && db.lines[l].component in db.products :: db.lines[l]
  }

  function CleanBoms(db: Db): map<Id, Bom>
  {
    map b | b in db.boms :: db.boms[b].(active := db.boms[b].active && KeepsLine(db, b))
  }

  function CleanProducts(db: Db): map<Id, bool>
  {
    map p | p in db.products :: db.products[p] && KeepsBom(db, p)
  }

  /** Orphans go; a negative row is zeroed; an over-allocated row keeps its stock and allocates all of it. */
  function CleanStock(s: Stock): Stock
  {
    if s.onHand < 0 then s.(onHand := 0, reserved := 0)
    else if s.reserved > s.onHand then s.(reserved := s.onHand)
    else s
  }

  function CleanInventory(db: Db): map<Id, Stock>
  {
    map s | s in db.inventory && db.inventory[s].product in db.products :: CleanStock(db.inventory[s])
  }

  function Clean(db: Db): Db
  {
    Db(CleanProducts(db), CleanBoms(db), CleanLines(db), CleanInventory(db))
  }

  // ---------------------------------------------------------------------------------------------
  // One pass
  // ---------------------------------------------------------------------------------------------

  predicate BomsStep(d: Db, d': Db)
  {
    && d'.boms.Keys == d.boms.Keys
    && forall b :: b in d.boms ==> d'.boms[b] == d.boms[b].(active := d.boms[b].active && HasLine(d, b))
  }

  predicate ProductsStep(d: Db, d': Db)
  {
    && d'.products.Keys == d.products.Keys
    && forall p :: p in d.products ==> d'.products[p] == (d.products[p] && HasActiveBom(d, p))
  }

  /** What one pass does, table by table. */
  predicate PassStep(d: Db, d': Db)
  {
    && BomsStep(d, d') && ProductsStep(d, d')
    && d'.lines == CleanLines(d) && d'.inventory == CleanInventory(d)
  }

  lemma InventoryRepairs(db: Db)
    ensures DeleteStock(CapAllocation(ZeroStock(db, NegativeStock(db)), OverAllocated(db)), OrphanStock(db)).inventory
         == CleanInventory(db)
  {
    var before := CapAllocation(ZeroStock(db, NegativeStock(db)), OverAllocated(db)).inventory;
    var after := before - OrphanStock(db);
    forall s ensures s in after <==> s in CleanInventory(db) {}
    forall s | s in after ensures after[s] == CleanInventory(db)[s] {}
  }

  lemma PassMeaning(db: Db)
    ensures PassStep(db, Pass(db))
  {
    var d3 := ClearHasBom(Deactivate(DeleteLines(db, OrphanLines(db)), EmptyBoms(db)), MissingBoms(db));
    InventoryRepairs(db);
    assert d3.lines == CleanLines(db);
    assert BomsStep(db, d3);
    assert ProductsStep(db, d3);
  }

  predicate StockIsSound(products: set<Id>, row: Stock)
  {
    row.product in products && row.onHand >= 0 && row.reserved <= row.onHand
  }

  /**
   One pass makes every remaining inventory row sound, even a row that was in several issue lists, keeps exactly the
   rows of existing products, changes no row that was sound already, and leaves nothing for the next pass to find.
   */
  lemma OnePassCleansInventory(db: Db)
    ensures var d := Pass(db);
            && d.products.Keys == db.products.Keys
            && (forall s :: s in d.inventory ==> StockIsSound(d.products.Keys, d.inventory[s]))
            && (forall s :: s in d.inventory <==> s in db.inventory && db.inventory[s].product in db.products)
            && (forall s :: s in db.inventory && StockIsSound(db.products.Keys, db.inventory[s]) ==>
                  s in d.inventory && d.inventory[s] == db.inventory[s])
            && InventoryIssues(d) == []
  {
    PassMeaning(db);
    NothingLeftToFind(db, Pass(db));
  }

  lemma NothingLeftToFind(db: Db, d: Db)
    requires d.products.Keys == db.products.Keys && d.inventory == CleanInventory(db)
    ensures forall s :: s in d.inventory ==> StockIsSound(d.products.Keys, d.inventory[s])
    ensures InventoryIssues(d) == [] && CleanInventory(d) == d.inventory
  {
    assert NegativeStock(d) == {} && OverAllocated(d) == {} && OrphanStock(d) == {};
    assert CleanInventory(d) == d.inventory;
  }

  // ---------------------------------------------------------------------------------------------
  // Convergence
  // ---------------------------------------------------------------------------------------------

  lemma LinesKept(db: Db, d: Db, b: Id)
    requires d.lines == CleanLines(db)
    ensures HasLine(d, b) <==> KeepsLine(db, b)
  {
    if KeepsLine(db, b) {
      var l :| l in db.lines && db.lines[l].bom == b && db.lines[l].component in db.products;
      assert l in d.lines && d.lines[l].bom == b;
    }
  }

  lemma BomsKept(db: Db, d: Db, p: Id)
    requires d.boms == CleanBoms(db)
    ensures HasActiveBom(d, p) <==> KeepsBom(db, p)
  {
    if KeepsBom(db, p) {
      var b :| b in db.boms && db.boms[b].product == p && db.boms[b].active && KeepsLine(db, b);
      assert b in d.boms && d.boms[b].product == p && d.boms[b].active;
    }
  }

  lemma LinesSettle(db: Db, d: Db)
    requires d.products.Keys == db.products.Keys && d.lines == CleanLines(db)
    ensures CleanLines(d) == d.lines
  {}

  /** After two steps the BOM table is the clean one, and it stays so. */
  lemma BomsSettle(db: Db, d1: Db, d2: Db)
    requires d1.lines == CleanLines(db)
    requires BomsStep(d1, d2)
    requires BomsStep(db, d1) || d1.boms == CleanBoms(db)
    ensures d2.boms == CleanBoms(db)
  {
    forall b | b in db.boms ensures d2.boms[b] == CleanBoms(db)[b] {
      LinesKept(db, d1, b);
      assert KeepsLine(db, b) ==> HasLine(db, b);
    }
  }

  /** A BOM the clean database keeps is active before and after the first step. */
  lemma KeptBomIsActive(db: Db, d1: Db, p: Id)
    requires BomsStep(db, d1) && KeepsBom(db, p)
    ensures HasActiveBom(db, p) && HasActiveBom(d1, p)
  {
    var b :| b in db.boms && db.boms[b].product == p && db.boms[b].active && KeepsLine(db, b);
    assert HasLine(db, b);
    assert b in d1.boms && d1.boms[b] == db.boms[b];
  }

  lemma ThreeSteps(db: Db, d1: Db, d2: Db, d3: Db)
    requires PassStep(db, d1) && PassStep(d1, d2) && PassStep(d2, d3)
    ensures d3 == Clean(db)
    ensures d2.lines == CleanLines(db) && d2.boms == CleanBoms(db)
  {
    LinesSettle(db, d1);
    LinesSettle(db, d2);
    BomsSettle(db, d1, d2);
    BomsSettle(db, d2, d3);
    NothingLeftToFind(db, d1);
    NothingLeftToFind(db, d2);
    forall p | p in db.products ensures d3.products[p] == CleanProducts(db)[p] {
      BomsKept(db, d2, p);
      if KeepsBom(db, p) { KeptBomIsActive(db, d1, p); }
    }
    assert d3.products == CleanProducts(db);
  }

  /** Three passes reach the clean database, from any state. */
  lemma ThreePassesClean(db: Db)
    ensures Passes(db, 3) == Clean(db)
  {
    var d1 := Passes(db, 1);
    var d2 := Passes(db, 2);
    PassMeaning(Passes(db, 0));
    PassMeaning(d1);
    PassMeaning(d2);
    ThreeSteps(db, d1, d2, Passes(db, 3));
  }

  lemma CleanStep(db: Db, d: Db)
    requires PassStep(Clean(db), d)
    ensures d == Clean(db)
    ensures forall b :: b in db.boms ==> (HasLine(Clean(db), b) <==> KeepsLine(db, b))
    ensures forall p :: p in db.products ==> (HasActiveBom(Clean(db), p) <==> KeepsBom(db, p))
  {
    var c := Clean(db);
    assert c.products.Keys == db.products.Keys;
    LinesSettle(db, c);
    NothingLeftToFind(db, c);
    BomsSettle(db, c, d);
    forall b | b in db.boms ensures HasLine(c, b) <==> KeepsLine(db, b) { LinesKept(db, c, b); }
    forall p | p in db.products ensures HasActiveBom(c, p) <==> KeepsBom(db, p) { BomsKept(db, c, p); }
    assert d.products == c.products;
  }

  /**
   The clean database is a fixpoint of the pass, without orphan lines, active empty BOMs or unfounded has_bom flags.
   */
  lemma CleanIsFixpoint(db: Db)
    ensures Pass(Clean(db)) == Clean(db)
    ensures OrphanLines(Clean(db)) == {} && MissingBoms(Clean(db)) == {} && InventoryIssues(Clean(db)) == []
    ensures forall b :: b in EmptyBoms(Clean(db)) <==> b in db.boms && !KeepsLine(db, b)
    ensures forall b :: b in EmptyBoms(Clean(db)) ==> !Clean(db).boms[b].active
  {
    var c := Clean(db);
    PassMeaning(c);
    CleanStep(db, Pass(c));
    NothingLeftToFind(db, c);
    assert c.products.Keys == db.products.Keys;
    assert OrphanLines(c) == {};
    assert MissingBoms(c) == {};
  }

  lemma {:induction false} StaysClean(db: Db, n: nat)
    requires n >= 3
    ensures Passes(db, n) == Clean(db)
  {
    if n == 3 {
      ThreePassesClean(db);
    } else {
      StaysClean(db, n - 1);
      CleanIsFixpoint(db);
    }
  }

  // ---------------------------------------------------------------------------------------------
  // Passes that do not finish
  // ---------------------------------------------------------------------------------------------

  /**
   What a pass on db may have repaired when it stops: each repair commits on its own, the process may die between two
   commits, and a repair that raises is skipped. Any part of what was detected is allowed.
   */
  predicate Within(w: Work, db: Db)
  {
    && w.orphans <= OrphanLines(db) && w.empty <= EmptyBoms(db) && w.missing <= MissingBoms(db)
    && w.negative <= NegativeStock(db) && w.over <= OverAllocated(db) && w.gone <= OrphanStock(db)
  }

  lemma PartialBoms(db: Db, d: Db, w: Work)
    requires Within(w, db) && d == ClearHasBom(Deactivate(DeleteLines(db, w.orphans), w.empty), w.missing)
    ensures CleanLines(d) == CleanLines(db) && CleanBoms(d) == CleanBoms(db)
  {
    forall b ensures KeepsLine(d, b) <==> KeepsLine(db, b) {
      if KeepsLine(db, b) {
        var l :| l in db.lines && db.lines[l].bom == b && db.lines[l].component in db.products;
        assert l in d.lines;
      }
    }
    forall b | b in db.boms && b in w.empty ensures !KeepsLine(db, b) { assert !HasLine(db, b); }
  }

  lemma PartialFlags(db: Db, d: Db, w: Work)
    requires Within(w, db) && d == ClearHasBom(Deactivate(DeleteLines(db, w.orphans), w.empty), w.missing)
    ensures CleanProducts(d) == CleanProducts(db)
  {
    PartialBoms(db, d, w);
    forall p ensures KeepsBom(d, p) <==> KeepsBom(db, p) { SameKept(db, d, p); }
    forall p | p in db.products && p in w.missing ensures !KeepsBom(db, p) { assert !HasActiveBom(db, p); }
  }

  lemma SameKept(db: Db, d: Db, p: Id)
    requires CleanBoms(d) == CleanBoms(db)
    ensures KeepsBom(d, p) <==> KeepsBom(db, p)
  {
    assert forall b :: b in d.boms ==> b in CleanBoms(d);
    forall b | b in db.boms
      ensures b in d.boms && d.boms[b].product == db.boms[b].product
      ensures (d.boms[b].active && KeepsLine(d, b)) <==> (db.boms[b].active && KeepsLine(db, b))
    {
      assert b in CleanBoms(db) && CleanBoms(d)[b] == CleanBoms(db)[b];
    }
    forall b | b in d.boms ensures b in db.boms { assert b in CleanBoms(d); }
  }

  lemma PartialStock(db: Db, d: Db, w: Work)
    requires Within(w, db) && d.products.Keys == db.products.Keys && d.inventory == db.inventory
    ensures CleanInventory(DeleteStock(CapAllocation(ZeroStock(d, w.negative), w.over), w.gone)) == CleanInventory(db)
  {
    var after := DeleteStock(CapAllocation(ZeroStock(d, w.negative), w.over), w.gone);
    forall s ensures s in CleanInventory(after) <==> s in CleanInventory(db) {}
    forall s | s in CleanInventory(db) ensures CleanInventory(after)[s] == CleanInventory(db)[s] {}
  }

  /** However little of a pass gets done, the database is still on its way to the same clean one. */
  lemma PartialPassKeepsGoal(db: Db, w: Work)
    requires Within(w, db)
    ensures Clean(Repairs(db, w)) == Clean(db)
  {
    var d := ClearHasBom(Deactivate(DeleteLines(db, w.orphans), w.empty), w.missing);
    PartialBoms(db, d, w);
    PartialFlags(db, d, w);
    PartialStock(db, d, w);
    SameTables(d, Repairs(db, w));
  }

  lemma SameTables(d: Db, d': Db)
    requires d'.products == d.products && d'.boms == d.boms && d'.lines == d.lines
    ensures CleanLines(d') == CleanLines(d) && CleanBoms(d') == CleanBoms(d) && CleanProducts(d') == CleanProducts(d)
  {
    forall b ensures KeepsLine(d', b) <==> KeepsLine(d, b) {}
    forall p ensures KeepsBom(d', p) <==> KeepsBom(d, p) {}
  }

  /** The states that unfinished passes lead through. */
  function AfterPartial(db: Db, works: seq<Work>): Db
  {
    if works == [] then db else Repairs(AfterPartial(db, works[..|works| - 1]), works[|works| - 1])
  }

  lemma OneMorePartial(db: Db, works: seq<Work>, w: Work)
    ensures AfterPartial(db, []) == db
    ensures AfterPartial(db, works + [w]) == Repairs(AfterPartial(db, works), w)
    ensures PartialRun(db, works + [w]) <==> PartialRun(db, works) && Within(w, AfterPartial(db, works))
  {
    assert (works + [w])[..|works|] == works;
  }

  predicate PartialRun(db: Db, works: seq<Work>)
  {
    works == [] || (var before := works[..|works| - 1];
                    PartialRun(db, before) && Within(works[|works| - 1], AfterPartial(db, before)))
  }

  lemma {:induction false} PartialRunKeepsGoal(db: Db, works: seq<Work>)
    requires PartialRun(db, works)
    ensures Clean(AfterPartial(db, works)) == Clean(db)
  {
    if works != [] {
      PartialRunKeepsGoal(db, works[..|works| - 1]);
      PartialPassKeepsGoal(AfterPartial(db, works[..|works| - 1]), works[|works| - 1]);
    }
  }

  /**
   After any number of passes cut short anywhere, three passes that finish reach the clean form of the original
   database.
   */
  lemma InterruptedPassesStillConverge(db: Db, works: seq<Work>)
    requires PartialRun(db, works)
    ensures Passes(AfterPartial(db, works), 3) == Clean(db)
  {
    PartialRunKeepsGoal(db, works);
    ThreePassesClean(AfterPartial(db, works));
  }

  /** Two passes are not always enough: a lone orphan line takes three to ripple up to its product. */
  lemma TwoPassesMayNotSuffice()
    ensures exists db :: Passes(db, 2) != Clean(db) && MissingBoms(Passes(db, 2)) != {}
  {
    var db := Db(map[1 := true], map[2 := Bom(1, true)], map[3 := BomLine(2, 9)], map[]);
    var d1 := Passes(db, 1);
    var d2 := Passes(db, 2);
    PassMeaning(Passes(db, 0));
    PassMeaning(d1);
    PassMeaning(d2);
    ThreeSteps(db, d1, d2, Passes(db, 3));
    OrphanExample(db, d1, d2);
  }

  /** Some active BOM of p has a line, orphaned or not. */
  predicate HasLinedBom(db: Db, p: Id)
  {
    exists b :: b in db.boms && db.boms[b].product == p && db.boms[b].active && HasLine(db, b)
  }

  lemma ActiveAfterOnePass(db: Db, d1: Db, p: Id)
    requires BomsStep(db, d1)
    ensures HasActiveBom(d1, p) <==> HasLinedBom(db, p)
    ensures HasLinedBom(db, p) ==> HasActiveBom(db, p)
  {
    if HasLinedBom(db, p) {
      var b :| b in db.boms && db.boms[b].product == p && db.boms[b].active && HasLine(db, b);
      assert b in d1.boms && d1.boms[b] == db.boms[b];
    }
    if HasActiveBom(d1, p) {
      var b :| b in d1.boms && d1.boms[b].product == p && d1.boms[b].active;
      assert b in db.boms && db.boms[b].product == p && db.boms[b].active && HasLine(db, b);
    }
  }

  lemma FlagsAfterTwoPasses(db: Db, d1: Db, d2: Db, p: Id)
    requires PassStep(db, d1) && PassStep(d1, d2) && p in db.products
    ensures p in d2.products && d2.products[p] == (db.products[p] && HasLinedBom(db, p))
  {
    ActiveAfterOnePass(db, d1, p);
  }

  /** No flag outlives the last kept line of its product's active BOMs. */
  predicate FlagsFollowLines(db: Db)
  {
    forall p :: p in db.products && db.products[p] && HasLinedBom(db, p) ==> KeepsBom(db, p)
  }

  lemma TwoSteps(db: Db, d1: Db, d2: Db)
    requires PassStep(db, d1) && PassStep(d1, d2)
    ensures d2.products == CleanProducts(db) <==> FlagsFollowLines(db)
  {
    assert d2.products.Keys == CleanProducts(db).Keys;
    forall p | p in db.products
      ensures d2.products[p] == CleanProducts(db)[p] <==> (db.products[p] && HasLinedBom(db, p) ==> KeepsBom(db, p))
    {
      FlagsAfterTwoPasses(db, d1, d2, p);
      LinedIfKept(db, p);
    }
  }

  lemma OtherTables(db: Db, d1: Db, d2: Db, d3: Db)
    requires PassStep(db, d1) && PassStep(d1, d2) && PassStep(d2, d3)
    ensures d2 == Clean(db) <==> d2.products == CleanProducts(db)
  {
    ThreeSteps(db, d1, d2, d3);
    NothingLeftToFind(db, d1);
  }

  /**
   Two passes are enough exactly when every flagged product with an active BOM that has some line also has one that
   keeps a line.
   */
  lemma TwoPassesExactly(db: Db)
    ensures Passes(db, 2) == Clean(db) <==> FlagsFollowLines(db)
  {
    var d1, d2, d3 := Passes(db, 1), Passes(db, 2), Passes(db, 3);
    PassMeaning(Passes(db, 0));
    PassMeaning(d1);
    PassMeaning(d2);
    TwoSteps(db, d1, d2);
    OtherTables(db, d1, d2, d3);
  }

  lemma LinedIfKept(db: Db, p: Id)
    ensures KeepsBom(db, p) ==> HasLinedBom(db, p)
  {
    if KeepsBom(db, p) {
      var b :| b in db.boms && db.boms[b].product == p && db.boms[b].active && KeepsLine(db, b);
      assert HasLine(db, b);
    }
  }

  lemma OrphanExample(db: Db, d1: Db, d2: Db)
    requires db == Db(map[1 := true], map[2 := Bom(1, true)], map[3 := BomLine(2, 9)], map[])
    requires ProductsStep(db, d1) && ProductsStep(d1, d2) && BomsStep(db, d1) && d2.boms == CleanBoms(db)
    ensures 1 in MissingBoms(d2) && d2 != Clean(db)
  {
    assert db.boms[2].product == 1 && HasActiveBom(db, 1);
    assert db.lines[3].bom == 2 && HasLine(db, 2);
    assert d1.boms[2] == Bom(1, true) && HasActiveBom(d1, 1);
    assert d2.products[1];
    assert !KeepsLine(db, 2);
    assert !HasActiveBom(d2, 1);
    assert !KeepsBom(db, 1) && !Clean(db).products[1];
  }

  /**
   The report never settles the way the state does: after convergence the checker still lists every BOM without lines,
   although each is inactive already, so it reports a healthy database exactly when every BOM keeps a line.
   */
  lemma EmptyBomsAreReportedForever(db: Db, n: nat)
    requires n >= 3
    ensures var d := Passes(db, n);
            && BomIssues(d) + InventoryIssues(d) == IssueIf(EmptyBomIssue, EmptyBoms(d))
            && (BomIssues(d) + InventoryIssues(d) == [] <==> forall b :: b in db.boms ==> KeepsLine(db, b))
  {
    StaysClean(db, n);
    CleanIsFixpoint(db);
    var c := Clean(db);
    var empty := IssueIf(EmptyBomIssue, EmptyBoms(c));
    assert BomIssues(c) + InventoryIssues(c) == [] + empty + [] + [];
    if b :| b in db.boms && !KeepsLine(db, b) {
      assert b in EmptyBoms(c);
    }
  }
}
