/** The status tables of production and sales orders, and what they say about every run of valid transitions. */
module StatusConfig {

  // ---------------------------------------------------------------------------------------------
  // Production orders
  // ---------------------------------------------------------------------------------------------

  /** `POther` is any text outside the enumeration: it has no row in the table. */
  datatype Production = PDraft | PReleased | PInProgress | POnHold | PShort | PScrapped | PComplete | PCancelled
                      | PSplit | POther(text: string)

  function ProductionTransitions(s: Production): set<Production>
  {
    match s
    case PDraft => {PReleased, PCancelled}
    case PReleased => {PInProgress, POnHold, PCancelled, PSplit}
    case PInProgress => {POnHold, PComplete, PShort, PCancelled, PSplit}
    case POnHold => {PReleased, PInProgress, PCancelled}
    case PShort => {PComplete, PScrapped, PCancelled}
    case _ => {}
  }

  predicate IsValidProductionTransition(current: Production, next: Production)
  {
    current == next || next in ProductionTransitions(current)
  }

  predicate InWork(s: Production)
  {
    s == PReleased || s == PInProgress
  }

  /**
   The moves, by kind: every open order can be cancelled; work can be held or split, and resumed to either stage; the
   way forward is draft, released, in progress, and from there complete or short; a short order is accepted or
   scrapped.
   */
  lemma ProductionMoves(a: Production, b: Production)
    requires a != b
    ensures IsValidProductionTransition(a, b)
       <==> || (b == PCancelled && (a == PDraft || InWork(a) || a == POnHold || a == PShort))
            || (InWork(a) && (b == POnHold || b == PSplit))
            || (a == POnHold && InWork(b))
            || (a == PDraft && b == PReleased) || (a == PReleased && b == PInProgress)
            || (a == PInProgress && (b == PComplete || b == PShort))
            || (a == PShort && (b == PComplete || b == PScrapped))
    ensures IsValidProductionTransition(a, a)
  {}

  /** A history: the statuses an order had, each change validated. */
  predicate ProductionRun(run: seq<Production>)
  {
    run != [] && forall i :: 0 <= i < |run| - 1 ==> IsValidProductionTransition(run[i], run[i + 1])
  }

  /**
   From draft, every run reaches complete, short or scrapped only after in_progress, and scrapped only after short.
   */
  lemma {:induction false} ProductionOrderHistory(run: seq<Production>, k: nat)
    requires ProductionRun(run) && run[0] == PDraft && k < |run|
    ensures run[k] == PComplete || run[k] == PScrapped || run[k] == PShort ==> PInProgress in run[..k]
    ensures run[k] == PScrapped ==> PShort in run[..k]
    ensures run[k] != PDraft && run[k] != PCancelled ==> PReleased in run[..k + 1]
    ensures !run[k].POther?
  {
    if k > 0 {
      ProductionOrderHistory(run, k - 1);
      assert IsValidProductionTransition(run[k - 1], run[k - 1 + 1]);
      assert run[..k] == run[..k - 1] + [run[k - 1]];
      assert run[..k + 1] == run[..k] + [run[k]];
    }
  }

  /** A closed order never moves again; the closed statuses are exactly those without a row of transitions. */
  lemma {:induction false} ClosedProductionOrderStays(run: seq<Production>, i: nat, k: nat)
    requires ProductionRun(run) && i <= k < |run| && ProductionTransitions(run[i]) == {}
    ensures run[k] == run[i]
    ensures run[i] in {PComplete, PScrapped, PCancelled, PSplit} || run[i].POther?
  {
    assert PCancelled in ProductionTransitions(PDraft) && PCancelled in ProductionTransitions(PReleased);
    assert PCancelled in ProductionTransitions(PInProgress) && PCancelled in ProductionTransitions(POnHold);
    assert PCancelled in ProductionTransitions(PShort);
    if k > i {
      ClosedProductionOrderStays(run, i, k - 1);
      assert IsValidProductionTransition(run[k - 1], run[k - 1 + 1]);
    }
  }

  // ---------------------------------------------------------------------------------------------
  // Sales orders
  // ---------------------------------------------------------------------------------------------

  datatype Sales = SPendingConfirmation | SDraft | SPending | SConfirmed | SInProduction | SReadyToShip | SShipped
                 | SDelivered | SCompleted | SCancelled | SOnHold | SOther(text: string)

  function SalesTransitions(s: Sales): set<Sales>
  {
    match s
    case SPendingConfirmation => {SConfirmed, SCancelled}
    case SDraft => {SPending, SCancelled}
    case SPending => {SConfirmed, SOnHold, SCancelled}
    case SConfirmed => {SInProduction, SReadyToShip, SOnHold, SCancelled}
    case SInProduction => {SReadyToShip, SOnHold, SCancelled}
    case SReadyToShip => {SShipped, SOnHold, SCancelled}
    case SShipped => {SDelivered, SCompleted}
    case SDelivered => {SCompleted}
    case SOnHold => {SPending, SConfirmed, SInProduction, SReadyToShip, SCancelled}
    case _ => {}
  }

  predicate IsValidSalesTransition(current: Sales, next: Sales)
  {
    current == next || next in SalesTransitions(current)
  }

  /** The statuses between confirmation being asked for and shipping, in order, without the first two. */
  predicate Holdable(s: Sales)
  {
    s == SPending || s == SConfirmed || s == SInProduction || s == SReadyToShip
  }

  /**
   The moves, by kind: everything before shipping can be cancelled; from pending to ready it can be held, and a held
   order resumes at any of those; the way forward is one step at a time, except that in_production and delivered may be
   left out.
   */
  lemma SalesMoves(a: Sales, b: Sales)
    requires a != b
    ensures IsValidSalesTransition(a, b)
       <==> || (b == SCancelled && (a == SPendingConfirmation || a == SDraft || Holdable(a) || a == SOnHold))
            || (Holdable(a) && b == SOnHold) || (a == SOnHold && Holdable(b))
            || (a == SPendingConfirmation && b == SConfirmed)
            || (a == SDraft && b == SPending) || (a == SPending && b == SConfirmed)
            || (a == SConfirmed && (b == SInProduction || b == SReadyToShip))
            || (a == SInProduction && b == SReadyToShip) || (a == SReadyToShip && b == SShipped)
            || (a == SShipped && (b == SDelivered || b == SCompleted)) || (a == SDelivered && b == SCompleted)
    ensures IsValidSalesTransition(a, a)
  {}

  predicate SalesRun(run: seq<Sales>)
  {
    run != [] && forall i :: 0 <= i < |run| - 1 ==> IsValidSalesTransition(run[i], run[i + 1])
  }

  predicate PreShipment(s: Sales)
  {
    s in {SPendingConfirmation, SDraft, SPending, SConfirmed, SInProduction, SOnHold}
  }

  predicate Gone(s: Sales)
  {
    s in {SShipped, SDelivered, SCompleted}
  }

  /**
   An order started before ready_to_ship is shipped, delivered or completed only after it was ready to ship and
   shipped.
   */
  lemma {:induction false} ShippedOnlyWhenReady(run: seq<Sales>, k: nat)
    requires SalesRun(run) && PreShipment(run[0]) && k < |run|
    ensures run[k] == SShipped ==> SReadyToShip in run[..k]
    ensures Gone(run[k]) ==> SReadyToShip in run[..k] && SShipped in run[..k + 1]
    ensures PreShipment(run[k]) || Gone(run[k]) || run[k] in {SReadyToShip, SCancelled}
  {
    if k > 0 {
      ShippedOnlyWhenReady(run, k - 1);
      assert IsValidSalesTransition(run[k - 1], run[k - 1 + 1]);
      assert run[..k] == run[..k - 1] + [run[k - 1]];
      assert run[..k + 1] == run[..k] + [run[k]];
    }
  }

  /** The number of real changes in a run. */
  function Changes(run: seq<Sales>): nat
  {
    if |run| <= 1 then 0
    else Changes(run[..|run| - 1]) + (if run[|run| - 1] != run[|run| - 2] then 1 else 0)
  }

  /** One status more is one change more, unless it is the same. */
  lemma OneChangeMore(run: seq<Sales>, next: Sales)
    requires run != []
    ensures Changes(run + [next]) == Changes(run) + if next == run[|run| - 1] then 0 else 1
  {
    var longer := run + [next];
    assert longer[..|longer| - 1] == run;
    assert longer[|longer| - 1] == next && longer[|longer| - 2] == run[|run| - 1];
  }

  function StepsLeft(s: Sales): nat
  {
    match s case SShipped => 2 case SDelivered => 1 case _ => 0
  }

  /**
   Once shipped, an order is never cancelled or held, and at most two changes remain, one from delivered, none from
   completed.
   */
  lemma {:induction false} AfterShipping(run: seq<Sales>)
    requires SalesRun(run) && Gone(run[0])
    ensures forall k :: 0 <= k < |run| ==> Gone(run[k])
    ensures Changes(run) + StepsLeft(run[|run| - 1]) <= StepsLeft(run[0])
    ensures Changes(run) <= 2
    ensures run[0] == SDelivered ==> Changes(run) <= 1
    ensures run[0] == SCompleted ==> Changes(run) == 0
  {
    if |run| > 1 {
      var before := run[..|run| - 1];
      forall i | 0 <= i < |before| - 1 ensures IsValidSalesTransition(before[i], before[i + 1]) {
        assert IsValidSalesTransition(run[i], run[i + 1]);
      }
      AfterShipping(before);
      var last := |run| - 2;
      assert IsValidSalesTransition(run[last], run[last + 1]);
      assert before[last] == run[last] && Gone(run[last]);
      forall k | 0 <= k < |run| ensures Gone(run[k]) {
        if k < |run| - 1 { assert before[k] == run[k]; }
      }
    }
  }

  // ---------------------------------------------------------------------------------------------
  // Shipped without confirmation
  // ---------------------------------------------------------------------------------------------

  /** The table with `hold` as the row of on_hold. */
  function TransitionsWith(hold: set<Sales>, s: Sales): set<Sales>
  {
    if s == SOnHold then hold else SalesTransitions(s)
  }

  predicate RunWith(hold: set<Sales>, run: seq<Sales>)
  {
    run != [] && forall i :: 0 <= i < |run| - 1 ==> StepWith(hold, run[i], run[i + 1])
  }

  predicate StepWith(hold: set<Sales>, current: Sales, next: Sales)
  {
    current == next || next in TransitionsWith(hold, current)
  }

  predicate BeforeConfirmation(s: Sales)
  {
    s in {SPendingConfirmation, SDraft, SPending}
  }

  /** A jump from on_hold into the statuses that follow confirmation. */
  predicate Jumps(current: Sales, next: Sales)
  {
    current == SOnHold && next in {SInProduction, SReadyToShip}
  }

  predicate JumpedBy(run: seq<Sales>, k: nat)
    requires k < |run|
  {
    exists j :: 0 <= j < k && Jumps(run[j], run[j + 1])
  }

  /**
   An order started before confirmation leaves the unconfirmed statuses in three ways only: it is cancelled, it is
   confirmed, or it jumps over confirmation from on_hold.
   */
  lemma {:induction false} WaysPastConfirmation(hold: set<Sales>, run: seq<Sales>, k: nat)
    requires hold <= SalesTransitions(SOnHold) && RunWith(hold, run) && BeforeConfirmation(run[0]) && k < |run|
    ensures || BeforeConfirmation(run[k]) || run[k] == SOnHold || run[k] == SCancelled
            || SConfirmed in run[..k + 1] || JumpedBy(run, k)
  {
    if k > 0 {
      WaysPastConfirmation(hold, run, k - 1);
      assert StepWith(hold, run[k - 1], run[k - 1 + 1]);
      assert run[..k + 1] == run[..k] + [run[k]];
      if JumpedBy(run, k - 1) {
        var j :| 0 <= j < k - 1 && Jumps(run[j], run[j + 1]);
        assert Jumps(run[j], run[j + 1]);
      } else if Jumps(run[k - 1], run[k]) {
        assert Jumps(run[k - 1], run[k - 1 + 1]);
      }
    }
  }

  /** Every order that was started before confirmation and is shipped was confirmed before. */
  ghost predicate ConfirmedBeforeShipping(hold: set<Sales>)
  {
    forall run: seq<Sales>, k: nat ::
      RunWith(hold, run) && BeforeConfirmation(run[0]) && k < |run| && run[k] == SShipped ==> SConfirmed in run[..k]
  }

  /** The run that jumps. */
  function JumpRun(over: Sales): seq<Sales>
  {
    if over == SReadyToShip then [SPending, SOnHold, SReadyToShip, SShipped]
    else [SPending, SOnHold, SInProduction, SReadyToShip, SShipped]
  }

  lemma JumpRunShips(hold: set<Sales>, over: Sales)
    requires over in {SInProduction, SReadyToShip} && over in hold
    ensures var run := JumpRun(over);
            && RunWith(hold, run) && run[0] == SPending && run[|run| - 1] == SShipped && SConfirmed !in run
            && (over == SReadyToShip ==> SInProduction !in run)
  {
    var run := JumpRun(over);
    assert StepWith(hold, SPending, SOnHold) && StepWith(hold, SOnHold, over);
    assert StepWith(hold, SInProduction, SReadyToShip) && StepWith(hold, SReadyToShip, SShipped);
    forall i | 0 <= i < |run| - 1 ensures StepWith(hold, run[i], run[i + 1]) {
      assert i == 0 || i == 1 || i == 2 || i == 3;
    }
  }

  /**
   Shipping implies confirmation exactly when on_hold leads neither to in_production nor to ready_to_ship. In the actual
   table it leads to both.
   */
  lemma ConfirmedBeforeShippingExactly(hold: set<Sales>)
    requires hold <= SalesTransitions(SOnHold)
    ensures ConfirmedBeforeShipping(hold) <==> SInProduction !in hold && SReadyToShip !in hold
    ensures !ConfirmedBeforeShipping(SalesTransitions(SOnHold))
  {
    if SInProduction !in hold && SReadyToShip !in hold {
      forall run: seq<Sales>, k: nat
        | RunWith(hold, run) && BeforeConfirmation(run[0]) && k < |run| && run[k] == SShipped
        ensures SConfirmed in run[..k]
      {
        NoJump(hold, run, k);
        WaysPastConfirmation(hold, run, k);
        assert run[..k + 1] == run[..k] + [run[k]];
      }
    } else {
      NotConfirmed(hold, if SReadyToShip in hold then SReadyToShip else SInProduction);
    }
    NotConfirmed(SalesTransitions(SOnHold), SReadyToShip);
  }

  lemma NoJump(hold: set<Sales>, run: seq<Sales>, k: nat)
    requires SInProduction !in hold && SReadyToShip !in hold && RunWith(hold, run) && k < |run|
    ensures !JumpedBy(run, k)
  {
    forall j | 0 <= j < k ensures !Jumps(run[j], run[j + 1]) {
      assert StepWith(hold, run[j], run[j + 1]);
    }
  }

  lemma NotConfirmed(hold: set<Sales>, over: Sales)
    requires over in {SInProduction, SReadyToShip} && over in hold
    ensures !ConfirmedBeforeShipping(hold)
  {
    var run := JumpRun(over);
    JumpRunShips(hold, over);
    assert SConfirmed !in run[..|run| - 1];
  }

  /** The actual table is the one whose on_hold row is its own. */
  lemma ActualTable(run: seq<Sales>)
    ensures SalesRun(run) <==> RunWith(SalesTransitions(SOnHold), run)
  {
    if SalesRun(run) {
      forall i | 0 <= i < |run| - 1 ensures StepWith(SalesTransitions(SOnHold), run[i], run[i + 1]) {
        assert IsValidSalesTransition(run[i], run[i + 1]);
      }
    }
    if RunWith(SalesTransitions(SOnHold), run) {
      forall i | 0 <= i < |run| - 1 ensures IsValidSalesTransition(run[i], run[i + 1]) {
        assert StepWith(SalesTransitions(SOnHold), run[i], run[i + 1]);
      }
    }
  }

  /**
   In the actual table an order that ships without having been confirmed jumped from on_hold, and an order that awaits
   confirmation does nothing before it is confirmed but wait or be cancelled.
   */
  lemma HoldSkipsConfirmation(run: seq<Sales>, k: nat)
    requires SalesRun(run) && k < |run|
    ensures BeforeConfirmation(run[0]) && run[k] == SShipped ==> SConfirmed in run[..k] || JumpedBy(run, k)
    ensures run[0] == SPendingConfirmation ==>
              run[k] in {SPendingConfirmation, SCancelled} || SConfirmed in run[..k + 1]
  {
    ActualTable(run);
    if BeforeConfirmation(run[0]) {
      WaysPastConfirmation(SalesTransitions(SOnHold), run, k);
      assert run[..k + 1] == run[..k] + [run[k]];
    }
    if run[0] == SPendingConfirmation { FromPendingConfirmation(run, k); }
  }

  lemma {:induction false} FromPendingConfirmation(run: seq<Sales>, k: nat)
    requires SalesRun(run) && run[0] == SPendingConfirmation && k < |run|
    ensures run[k] in {SPendingConfirmation, SCancelled} || SConfirmed in run[..k + 1]
  {
    if k > 0 {
      FromPendingConfirmation(run, k - 1);
      assert IsValidSalesTransition(run[k - 1], run[k - 1 + 1]);
      assert run[..k + 1] == run[..k] + [run[k]];
    }
  }
}
