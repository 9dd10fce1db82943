/**
 Routing costs and material requirements, over exact decimals. None stands for a NULL column; Python's `x or 0` treats
 NULL and zero alike.
 */
module Manufacturing {
  import opened Wrappers
  import opened Text

  function OrZero(x: Option<real>): real
  {
    if x.Some? then x.value else 0.0
  }

  predicate Truthy(x: Option<real>)
  {
    x.Some? && x.value != 0.0
  }

  datatype Component = Component(standardCost: Option<real>, averageCost: Option<real>, lastCost: Option<real>,
                                 purchaseFactor: Option<real>)

  datatype Material = Material(component: Option<Component>, quantity: Option<real>, quantityPer: string,
                               scrapFactor: Option<real>)

  /** Rates per hour. */
  datatype WorkCenter = WorkCenter(machine: Option<real>, labor: Option<real>, overhead: Option<real>)

  datatype Operation = Operation(workCenter: Option<WorkCenter>, isActive: bool,
                                 setup: Option<real>, run: Option<real>, wait: Option<real>, move: Option<real>,
                                 machineOverride: Option<real>, laborOverride: Option<real>, materials: seq<Material>)

  // ---------------------------------------------------------------------------------------------
  // Sums
  // ---------------------------------------------------------------------------------------------

  function Sum<T>(xs: seq<T>, f: T -> real): real
  {
    if xs == [] then 0.0 else Sum(xs[..|xs| - 1], f) + f(xs[|xs| - 1])
  }

  lemma {:induction false} SumWithout<T>(xs: seq<T>, f: T -> real, k: nat)
    requires k < |xs|
    ensures Sum(xs, f) == Sum(xs[..k] + xs[k + 1..], f) + f(xs[k])
  {
    var last := |xs| - 1;
    if k == last {
      assert xs[..k] + xs[k + 1..] == xs[..last];
    } else {
      SumWithout(xs[..last], f, k);
      var without := xs[..k] + xs[k + 1..];
      assert without[..|without| - 1] == xs[..last][..k] + xs[..last][k + 1..];
    }
  }

  lemma Without<T>(xs: seq<T>, k: nat)
    requires k < |xs|
    ensures multiset(xs[..k] + xs[k + 1..]) == multiset(xs) - multiset{xs[k]}
  {
    assert xs == xs[..k] + [xs[k]] + xs[k + 1..];
  }

  lemma {:induction false} SumIgnoresOrder<T>(xs: seq<T>, ys: seq<T>, f: T -> real)
    requires multiset(xs) == multiset(ys)
    ensures Sum(xs, f) == Sum(ys, f)
    decreases |xs|
  {
    if xs == [] {
      assert |ys| == |multiset(ys)| == 0;
    } else {
      var last := |xs| - 1;
      assert xs[last] in multiset(ys);
      var k :| 0 <= k < |ys| && ys[k] == xs[last];
      Without(xs, last);
      Without(ys, k);
      assert xs[..last] + xs[last + 1..] == xs[..last];
      SumIgnoresOrder(xs[..last], ys[..k] + ys[k + 1..], f);
      SumWithout(ys, f, k);
    }
  }

  lemma AddGap(n: real, a: real, b: real, c: real, a': real, b': real, c': real)
    requires n * a - b == (n - 1.0) * c && n * a' - b' == (n - 1.0) * c'
    ensures n * (a + a') - (b + b') == (n - 1.0) * (c + c')
  {}

  predicate TermGap<T>(x: T, f: T -> real, g: T -> real, h: T -> real, n: real)
  {
    n * f(x) - g(x) == (n - 1.0) * h(x)
  }

  /** A termwise identity n f - g = (n - 1) h carries over to sums. */
  lemma {:induction false} SumGap<T>(xs: seq<T>, f: T -> real, g: T -> real, h: T -> real, n: real)
    requires forall x :: x in xs ==> TermGap(x, f, g, h, n)
    ensures n * Sum(xs, f) - Sum(xs, g) == (n - 1.0) * Sum(xs, h)
  {
    if xs != [] {
      var rest, x := xs[..|xs| - 1], xs[|xs| - 1];
      assert TermGap(x, f, g, h, n);
      SumGap(rest, f, g, h, n);
      AddGap(n, Sum(rest, f), Sum(rest, g), Sum(rest, h), f(x), g(x), h(x));
    }
  }

  lemma {:induction false} ZeroSum<T>(xs: seq<T>, f: T -> real)
    requires forall x :: x in xs ==> f(x) >= 0.0
    ensures Sum(xs, f) >= 0.0
    ensures Sum(xs, f) == 0.0 <==> forall x :: x in xs ==> f(x) == 0.0
  {
    if xs != [] {
      var rest, last := xs[..|xs| - 1], xs[|xs| - 1];
      assert xs == rest + [last];
      ZeroSum(rest, f);
      assert last in xs;
    }
  }

  // ---------------------------------------------------------------------------------------------
  // One material
  // ---------------------------------------------------------------------------------------------

  /** Cost per storage unit: the first cost that is set, over the purchase factor. */
  function UnitCost(m: Material): real
  {
    if m.component.None? then 0.0
    else (
      var c := m.component.value;
      var cost := if Truthy(c.standardCost) then c.standardCost
                  else if Truthy(c.averageCost) then c.averageCost
                  else c.lastCost;
      if !Truthy(cost) then 0.0
      else cost.value / (if Truthy(c.purchaseFactor) then c.purchaseFactor.value else 1.0)
    )
  }

  function WithScrap(m: Material): real
  {
    1.0 + OrZero(m.scrapFactor) / 100.0
  }

  function ExtendedCost(m: Material): real
  {
    OrZero(m.quantity) * WithScrap(m) * UnitCost(m)
  }

  function RequiredQuantity(m: Material, n: real): real
  {
    (if m.quantityPer == "unit" then OrZero(m.quantity) * n else OrZero(m.quantity)) * WithScrap(m)
  }

  /** What the cost side takes for a per-unit material: it ignores case and blanks, and an empty value counts. */
  predicate CostedPerUnit(m: Material)
  {
    m.quantityPer == "" || Lower(Strip(m.quantityPer)) == "unit"
  }

  /**
   In numbers: c per purchase unit of k storage units is c / k each; q of them per unit with f per cent of scrap are
   q (1 + f / 100) for one unit and n times that for n units, or as many for the whole order.
   */
  lemma MaterialInNumbers(c: real, k: real, q: real, f: real, n: real, average: Option<real>, last: Option<real>)
    requires c != 0.0 && k != 0.0
    ensures var part := Component(Some(c), average, last, Some(k));
            var m := Material(Some(part), Some(q), "unit", Some(f));
            && UnitCost(m) == c / k
            && 100.0 * RequiredQuantity(m, n) == q * n * (100.0 + f)
            && 100.0 * RequiredQuantity(m.(quantityPer := "batch"), n) == q * (100.0 + f)
            && ExtendedCost(m) == RequiredQuantity(m, 1.0) * (c / k)
  {
    assert 100.0 * (1.0 + f / 100.0) == 100.0 + f;
    assert 100.0 * (q * n * (1.0 + f / 100.0)) == q * n * (100.0 * (1.0 + f / 100.0));
    assert 100.0 * (q * (1.0 + f / 100.0)) == q * (100.0 * (1.0 + f / 100.0));
    assert q * 1.0 == q;
  }

  /** What is NULL or zero: the next cost is taken, the factor is one, and the rest counts for nothing. */
  lemma MaterialDefaults(c: real, zero: Option<real>, last: Option<real>, per: string)
    requires c != 0.0 && (zero == None || zero == Some(0.0))
    ensures UnitCost(Material(Some(Component(zero, Some(c), last, zero)), None, per, None)) == c
    ensures UnitCost(Material(Some(Component(zero, zero, Some(c), zero)), None, per, None)) == c
    ensures UnitCost(Material(Some(Component(zero, zero, zero, Some(2.0))), None, per, None)) == 0.0
    ensures UnitCost(Material(None, None, per, None)) == 0.0
    ensures forall n :: RequiredQuantity(Material(None, zero, per, None), n) == 0.0
    ensures RequiredQuantity(Material(None, Some(c), "unit", zero), 3.0) == c * 3.0
  {
    assert 1.0 + 0.0 / 100.0 == 1.0;
  }

  // ---------------------------------------------------------------------------------------------
  // Material cost of an operation
  // ---------------------------------------------------------------------------------------------

  /** What one material adds to the operation's per-unit cost. */
  function CostShare(m: Material): real
  {
    if CostedPerUnit(m) then ExtendedCost(m) else 0.0
  }

  function MaterialCost(ms: seq<Material>): real
  {
    Sum(ms, CostShare)
  }

  /** `material_cost`. */
  method ComputeMaterialCost(ms: seq<Material>) returns (total: real)
    ensures total == MaterialCost(ms)
  {
    total := 0.0;
    for i := 0 to |ms|
      invariant total == MaterialCost(ms[..i])
    {
      assert ms[..i + 1][..i] == ms[..i];
      if ms[i].quantityPer != "" && Lower(Strip(ms[i].quantityPer)) != "unit" {
        continue;
      }
      total := total + ExtendedCost(ms[i]);
    }
    assert ms[..|ms|] == ms;
  }

  /** What the costed materials cost for n units, by the quantities a production order requires. */
  function RequirementShare(m: Material, n: real): real
  {
    if CostedPerUnit(m) then RequiredQuantity(m, n) * UnitCost(m) else 0.0
  }

  function ShareAt(n: real): Material -> real
  {
    m => RequirementShare(m, n)
  }

  function RequirementCost(ms: seq<Material>, n: real): real
  {
    Sum(ms, ShareAt(n))
  }

  predicate Canonical(m: Material)
  {
    m.quantityPer == "unit" || m.quantityPer == "batch" || m.quantityPer == "order"
  }

  /** Costed per unit but required once: not spelled "unit", yet read as it. */
  predicate Misread(m: Material)
  {
    CostedPerUnit(m) && m.quantityPer != "unit"
  }

  function MisreadShare(m: Material): real
  {
    if Misread(m) then ExtendedCost(m) else 0.0
  }

  lemma DocumentedSpellings(m: Material)
    ensures m.quantityPer == "unit" ==> Canonical(m)
    ensures m.quantityPer == "batch" ==> Canonical(m)
    ensures m.quantityPer == "order" ==> Canonical(m)
  {}

  lemma CanonicalIsNotMisread(m: Material)
    requires Canonical(m)
    ensures !Misread(m) && (CostedPerUnit(m) <==> m.quantityPer == "unit")
  {
    assert Strip("unit") == "unit" && Strip("batch") == "batch" && Strip("order") == "order";
    assert Lower("unit") == ['u'] + Lower("unit"[1..]) && "unit"[1..] == "nit";
    assert Lower("nit") == ['n'] + Lower("nit"[1..]);
    assert "nit"[1..] == "it" && Lower("it") == ['i'] + Lower("it"[1..]) && "it"[1..] == "t";
    assert Lower("t") == ['t'] + Lower("t"[1..]) && "t"[1..] == "";
    assert Lower("batch")[0] == 'b' && Lower("order")[0] == 'o';
  }

  lemma Factor(n: real, q: real, s: real, c: real)
    ensures q * n * s * c == n * (q * s * c)
    ensures n * (q * s * c) - q * s * c == (n - 1.0) * (q * s * c)
  {}

  lemma OneMaterial(m: Material, n: real)
    ensures TermGap(m, CostShare, ShareAt(n), MisreadShare, n)
  {
    assert ShareAt(n)(m) == RequirementShare(m, n);
    if CostedPerUnit(m) {
      Factor(n, OrZero(m.quantity), WithScrap(m), UnitCost(m));
    }
  }

  /** The gap between the two sides is n - 1 times what the misread materials cost. */
  lemma CostGap(ms: seq<Material>, n: real)
    ensures n * MaterialCost(ms) - RequirementCost(ms, n) == (n - 1.0) * Sum(ms, MisreadShare)
  {
    forall m | m in ms ensures TermGap(m, CostShare, ShareAt(n), MisreadShare, n) { OneMaterial(m, n); }
    SumGap(ms, CostShare, ShareAt(n), MisreadShare, n);
  }

  /**
   With the three documented spellings, n times the per-unit cost is the cost of the required quantities, for every n.
   */
  lemma CostMatchesRequirement(ms: seq<Material>, n: real)
    requires forall m :: m in ms ==> Canonical(m)
    ensures n * MaterialCost(ms) == RequirementCost(ms, n)
  {
    CostGap(ms, n);
    forall m | m in ms ensures MisreadShare(m) == 0.0 { CanonicalIsNotMisread(m); }
    ZeroSum(ms, MisreadShare);
  }

  /**
   With any spelling and non-negative costs, the two sides agree at n exactly when n is 1 or no misread material costs
   anything.
   */
  lemma CostMatchesExactly(ms: seq<Material>, n: real)
    requires forall m :: m in ms ==> ExtendedCost(m) >= 0.0
    ensures n * MaterialCost(ms) == RequirementCost(ms, n)
       <==> n == 1.0 || forall m :: m in ms && Misread(m) ==> ExtendedCost(m) == 0.0
  {
    CostGap(ms, n);
    ZeroSum(ms, MisreadShare);
    ProductIsZero(n - 1.0, Sum(ms, MisreadShare));
    forall m | m in ms ensures MisreadShare(m) == 0.0 <==> (Misread(m) ==> ExtendedCost(m) == 0.0) {}
  }

  lemma ProductIsZero(a: real, b: real)
    ensures a * b == 0.0 <==> a == 0.0 || b == 0.0
  {}

  /** Such a spelling exists. */
  lemma UpperCaseUnitIsMisread(c: Component)
    ensures Misread(Material(Some(c), Some(1.0), "UNIT", None))
  {
    assert Strip("UNIT") == "UNIT";
    assert Lower("UNIT") == ['u'] + Lower("UNIT"[1..]) && "UNIT"[1..] == "NIT";
    assert Lower("NIT") == ['n'] + Lower("NIT"[1..]);
    assert "NIT"[1..] == "IT" && Lower("IT") == ['i'] + Lower("IT"[1..]) && "IT"[1..] == "T";
    assert Lower("T") == ['t'] + Lower("T"[1..]) && "T"[1..] == "";
  }

  // ---------------------------------------------------------------------------------------------
  // Splitting an order
  // ---------------------------------------------------------------------------------------------

  function QuantityFor(m: Material): real -> real
  {
    n => RequiredQuantity(m, n)
  }

  function Itself(): real -> real
  {
    n => n
  }

  function OrderTotal(children: seq<real>): real
  {
    Sum(children, Itself())
  }

  function RequiredByAll(m: Material, children: seq<real>): real
  {
    Sum(children, QuantityFor(m))
  }

  lemma Spread(q: real, s: real, x: real, y: real)
    ensures q * x * s + q * y * s == q * (x + y) * s
    ensures q * 0.0 * s == 0.0
    ensures x * s + s == (x + 1.0) * s
  {}

  lemma {:induction false} ChildrenTotal(m: Material, children: seq<real>)
    ensures m.quantityPer == "unit" ==> RequiredByAll(m, children) == RequiredQuantity(m, OrderTotal(children))
    ensures m.quantityPer != "unit" ==> RequiredByAll(m, children) == |children| as real * RequiredQuantity(m, 0.0)
  {
    var q, s := OrZero(m.quantity), WithScrap(m);
    if children == [] {
      Spread(q, s, 0.0, 0.0);
    } else {
      var rest, last := children[..|children| - 1], children[|children| - 1];
      ChildrenTotal(m, rest);
      Spread(q, s, OrderTotal(rest), last);
      Spread(q, RequiredQuantity(m, 0.0), |rest| as real, last);
    }
  }

  lemma Factored(k: real, r: real)
    ensures k * r - r == (k - 1.0) * r
  {}

  /**
   Splitting an order into children conserves a material's requirement exactly when the material is per unit, or there
   is one child, or nothing is required: a batch or order material is required again by every child.
   */
  lemma SplitConserves(m: Material, children: seq<real>)
    ensures RequiredByAll(m, children) == RequiredQuantity(m, OrderTotal(children))
       <==> m.quantityPer == "unit" || |children| == 1 || RequiredQuantity(m, OrderTotal(children)) == 0.0
  {
    ChildrenTotal(m, children);
    var k, r := |children| as real, RequiredQuantity(m, 0.0);
    if m.quantityPer != "unit" {
      assert RequiredQuantity(m, OrderTotal(children)) == r;
      ProductIsZero(k - 1.0, r);
      Factored(k, r);
    }
  }

  // ---------------------------------------------------------------------------------------------
  // Splitting an order of counted pieces
  // ---------------------------------------------------------------------------------------------

  function Ceiling(x: real): (n: int)
    ensures n as real - 1.0 < x <= n as real
  {
    -(-x).Floor
  }

  /** `required_quantity_for_routing_material` in a counted unit: whole pieces. */
  function PiecesFor(m: Material, n: real): int
  {
    Ceiling(RequiredQuantity(m, n))
  }

  function PiecesForAll(m: Material, children: seq<real>): int
  {
    if children == [] then 0
    else PiecesForAll(m, children[..|children| - 1]) + PiecesFor(m, children[|children| - 1])
  }

  /** What rounding up adds over all children, in pieces. */
  function RoundedUp(m: Material, children: seq<real>): real
  {
    PiecesForAll(m, children) as real - RequiredByAll(m, children)
  }

  lemma {:induction false} RoundingOnlyAdds(m: Material, children: seq<real>)
    ensures RoundedUp(m, children) >= 0.0
    ensures m.quantityPer != "unit" ==> PiecesForAll(m, children) == |children| * PiecesFor(m, 0.0)
  {
    if children != [] {
      var rest, last := children[..|children| - 1], children[|children| - 1];
      RoundingOnlyAdds(m, rest);
      assert RequiredByAll(m, children) == RequiredByAll(m, rest) + RequiredQuantity(m, last);
      OneMorePiece(|rest|, PiecesFor(m, 0.0));
    }
  }

  lemma OneMorePiece(k: int, p: int)
    ensures (k + 1) * p == k * p + p
    ensures k * p == p <==> k == 1 || p == 0
  {
    OnlyZero(k - 1, p);
  }

  lemma OnlyZero(a: int, p: int)
    ensures a * p == 0 <==> a == 0 || p == 0
    ensures (a + 1) * p == a * p + p
    ensures (a + 1 + 1) * p == (a + 1) * p + p
  {}

  /** n whole pieces, too many by less than one, are the ceiling of what is needed. */
  lemma PiecesAre(x: real, n: int, waste: real)
    requires waste == n as real - x && waste >= 0.0
    ensures Ceiling(x) == n <==> waste < 1.0
    ensures n >= Ceiling(x)
  {}

  /**
   In a counted unit a split conserves a per-unit material exactly when rounding up adds less than one piece in all.
   */
  lemma SplitConservesPieces(m: Material, children: seq<real>)
    requires m.quantityPer == "unit"
    ensures PiecesForAll(m, children) == PiecesFor(m, OrderTotal(children)) <==> RoundedUp(m, children) < 1.0
    ensures PiecesForAll(m, children) >= PiecesFor(m, OrderTotal(children))
  {
    ChildrenTotal(m, children);
    RoundingOnlyAdds(m, children);
    PiecesAre(RequiredQuantity(m, OrderTotal(children)), PiecesForAll(m, children), RoundedUp(m, children));
  }

  lemma RequiredOnce(m: Material, n: real)
    requires m.quantityPer != "unit"
    ensures RequiredQuantity(m, n) == RequiredQuantity(m, 0.0)
  {}

  /** It conserves any other material exactly when there is one child or no piece is needed. */
  lemma SplitRepeatsPieces(m: Material, children: seq<real>)
    requires m.quantityPer != "unit"
    ensures PiecesForAll(m, children) == PiecesFor(m, OrderTotal(children))
       <==> |children| == 1 || PiecesFor(m, OrderTotal(children)) == 0
  {
    RoundingOnlyAdds(m, children);
    RequiredOnce(m, OrderTotal(children));
    OneMorePiece(|children|, PiecesFor(m, 0.0));
  }

  /** Half a piece per unit: two orders of one need two pieces, one order of two needs one. */
  lemma HalfPiecesAreNotConserved(c: Option<Component>)
    ensures var m := Material(c, Some(0.5), "unit", None);
            PiecesForAll(m, [1.0, 1.0]) == 2 && PiecesFor(m, 2.0) == 1
  {
    var m := Material(c, Some(0.5), "unit", None);
    assert [1.0, 1.0][..1] == [1.0] && [1.0][..0] == [];
    assert RequiredQuantity(m, 1.0) == 0.5 && RequiredQuantity(m, 2.0) == 1.0;
    assert PiecesForAll(m, []) == 0 && PiecesForAll(m, [1.0]) == 1;
  }

  // ---------------------------------------------------------------------------------------------
  // Routing totals
  // ---------------------------------------------------------------------------------------------

  function Rate(override: Option<real>, wc: Option<WorkCenter>, own: WorkCenter -> Option<real>): real
  {
    if override.Some? then override.value else if wc.Some? then OrZero(own(wc.value)) else 0.0
  }

  /** `effective_hourly_rate`: overrides replace their own component only; overhead has none. */
  function EffectiveHourlyRate(op: Operation): real
  {
    Rate(op.machineOverride, op.workCenter, (w: WorkCenter) => w.machine)
    + Rate(op.laborOverride, op.workCenter, (w: WorkCenter) => w.labor)
    + Rate(None, op.workCenter, (w: WorkCenter) => w.overhead)
  }

  function CalculatedCost(op: Operation): real
  {
    (OrZero(op.setup) + OrZero(op.run)) / 60.0 * EffectiveHourlyRate(op)
  }

  /**
   In numbers: s minutes of setup and r of run at a machine, labor and overhead rate; waiting and moving cost nothing.
   */
  lemma OperationInNumbers(s: real, r: real, w: real, v: real, machine: real, labor: real, overhead: real)
    ensures var op := Operation(Some(WorkCenter(Some(machine), Some(labor), Some(overhead))), true,
                                Some(s), Some(r), Some(w), Some(v), None, None, []);
            && 60.0 * CalculatedCost(op) == (s + r) * (machine + labor + overhead)
            && SetupMinutes(op) == s && RunMinutes(op) == r + w + v && OperationCost(op) == CalculatedCost(op)
  {
    var rate := machine + labor + overhead;
    assert 60.0 * ((s + r) / 60.0 * rate) == (s + r) * rate;
  }

  /** An override, zero included, stands for the work center's rate of its own kind; overhead has none. */
  lemma OverridesInNumbers(op: Operation, w: WorkCenter, machine: real, labor: real, overhead: real, x: real, y: real)
    requires w == WorkCenter(Some(machine), Some(labor), Some(overhead))
    requires op.workCenter == Some(w) && op.machineOverride == None && op.laborOverride == None
    ensures EffectiveHourlyRate(op) == machine + labor + overhead
    ensures EffectiveHourlyRate(op.(machineOverride := Some(x))) == x + labor + overhead
    ensures EffectiveHourlyRate(op.(laborOverride := Some(y))) == machine + y + overhead
    ensures EffectiveHourlyRate(op.(machineOverride := Some(x), laborOverride := Some(y))) == x + y + overhead
    ensures EffectiveHourlyRate(op.(workCenter := None)) == 0.0
    ensures EffectiveHourlyRate(op.(workCenter := None, machineOverride := Some(x), laborOverride := Some(y))) == x + y
    ensures EffectiveHourlyRate(op.(workCenter := Some(WorkCenter(None, None, None)))) == 0.0
  {}

  /** Missing minutes count for nothing. */
  lemma MissingMinutes(op: Operation)
    requires op.setup == None && op.run == None && op.wait == None && op.move == None && op.materials == []
    ensures SetupMinutes(op) == 0.0 && RunMinutes(op) == 0.0 && OperationCost(op) == 0.0
  {
    var rate := EffectiveHourlyRate(op);
    assert 0.0 / 60.0 * rate == 0.0;
  }

  function SetupMinutes(op: Operation): real { OrZero(op.setup) }

  function RunMinutes(op: Operation): real { OrZero(op.run) + OrZero(op.wait) + OrZero(op.move) }

  function OperationCost(op: Operation): real { CalculatedCost(op) + MaterialCost(op.materials) }

  /** f on an active operation, nothing on an inactive one. */
  function IfActive(f: Operation -> real): Operation -> real
  {
    (op: Operation) => if op.isActive then f(op) else 0.0
  }

  function ActiveTotal(ops: seq<Operation>, f: Operation -> real): real
  {
    Sum(ops, IfActive(f))
  }

  lemma ActiveStep(ops: seq<Operation>, i: nat, f: Operation -> real)
    requires i < |ops|
    ensures ActiveTotal(ops[..i + 1], f) == ActiveTotal(ops[..i], f) + (if ops[i].isActive then f(ops[i]) else 0.0)
  {
    assert ops[..i + 1][..i] == ops[..i];
  }

  class Routing {
    var operations: seq<Operation>
    var totalSetup: real
    var totalRun: real
    var totalCost: real

    constructor (operations: seq<Operation>)
      ensures this.operations == operations
    {
      this.operations := operations;
      totalSetup, totalRun, totalCost := 0.0, 0.0, 0.0;
    }

    /** `recalculate_totals`. */
    method RecalculateTotals()
      modifies this`totalSetup, this`totalRun, this`totalCost
      ensures totalSetup == ActiveTotal(operations, SetupMinutes)
      ensures totalRun == ActiveTotal(operations, RunMinutes)
      ensures totalCost == ActiveTotal(operations, OperationCost)
    {
      var setup, run, cost := 0.0, 0.0, 0.0;
      for i := 0 to |operations|
        invariant setup == ActiveTotal(operations[..i], SetupMinutes)
        invariant run == ActiveTotal(operations[..i], RunMinutes)
        invariant cost == ActiveTotal(operations[..i], OperationCost)
      {
        var op := operations[i];
        ActiveStep(operations, i, SetupMinutes);
        ActiveStep(operations, i, RunMinutes);
        ActiveStep(operations, i, OperationCost);
        if !op.isActive {
          continue;
        }
        setup := setup + OrZero(op.setup);
        run := run + OrZero(op.run);
        run := run + OrZero(op.wait);
        run := run + OrZero(op.move);
        cost := cost + CalculatedCost(op);
        var materials := ComputeMaterialCost(op.materials);
        cost := cost + materials;
      }
      assert operations[..|operations|] == operations;
      totalSetup := setup;
      totalRun := run;
      totalCost := cost;
    }
  }

  /** The totals do not depend on the order of the operations, and inactive operations count for nothing. */
  lemma TotalsIgnoreOrder(ops: seq<Operation>, other: seq<Operation>, f: Operation -> real)
    requires multiset(ops) == multiset(other)
    ensures ActiveTotal(ops, f) == ActiveTotal(other, f)
    ensures (forall op :: op in ops ==> !op.isActive) ==> ActiveTotal(ops, f) == 0.0
  {
    SumIgnoresOrder(ops, other, IfActive(f));
    if forall op :: op in ops ==> !op.isActive {
      ZeroSum(ops, IfActive(f));
    }
  }
}
