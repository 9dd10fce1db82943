/**
 Seat-cap enforcement: concurrent requests that lock, count, write and commit on a READ COMMITTED store.

 Each request is a transaction that calls `enforce_seat_cap` and then activates one staff user, either a new one or an
 existing one. Deactivations and every other change that adds no active staff take no lock and may happen between any
 two steps. A schedule is any sequence of these steps; the theorems are about every schedule from every starting store.
 */
module SeatLimits {
  import opened Wrappers
  import opened Text

  // ---------------------------------------------------------------------------------------------
  // Users, seats and caps
  // ---------------------------------------------------------------------------------------------

  datatype AccountType = Admin | Operator | Customer

  datatype User = User(account: AccountType, active: bool)

  type UserId = nat

  type Store = map<UserId, User>

  predicate IsSeat(u: User)
  {
    u.account != Customer && u.active
  }

  function Seats(store: Store): set<UserId>
  {
    set id | id in store && IsSeat(store[id])
  }

  /** `count_active_staff(db, exclude_user_id)`. */
  function CountActiveStaff(store: Store, exclude: Option<UserId>): nat
  {
    if exclude.Some? then |Seats(store) - {exclude.value}| else |Seats(store)|
  }

  /** Active admins and operators count, except one who is excluded; customers and inactive users never do. */
  lemma WhoTakesASeat(store: Store, id: UserId)
    ensures id in Seats(store)
       <==> id in store && store[id].active && (store[id].account == Admin || store[id].account == Operator)
    ensures CountActiveStaff(store, None) == |Seats(store)|
    ensures id in Seats(store) ==> CountActiveStaff(store, Some(id)) == |Seats(store)| - 1
    ensures id !in Seats(store) ==> CountActiveStaff(store, Some(id)) == |Seats(store)|
  {
    if id !in Seats(store) { assert Seats(store) - {id} == Seats(store); }
  }

  /** `seat_cap_for_tier`; the tier may be missing, and the community cap is a setting. None means unlimited. */
  function SeatCapForTier(tier: Option<string>, communityCap: Option<nat>): (cap: Option<nat>)
    ensures cap == communityCap || cap == None
    ensures tier.None? ==> cap == communityCap
  {
    var name := Lower(if tier.Some? then tier.value else "");
    if name == "professional" || name == "enterprise" then None else communityCap
  }

  // ---------------------------------------------------------------------------------------------
  // Transactions
  // ---------------------------------------------------------------------------------------------

  /** What the request does once it is let through. */
  datatype Request =
    | Create(id: UserId, account: AccountType)   // a new staff user
    | Activate(id: UserId)                        // an existing one, excluded from its own count

  function Excluded(r: Request): Option<UserId>
  {
    if r.Activate? then Some(r.id) else None
  }

  /** The store after the request's write, None when the row makes the write impossible. */
  function Write(store: Store, r: Request): Option<Store>
  {
    match r
    case Create(id, account) =>
      if id !in store && account != Customer then Some(store[id := User(account, true)]) else None
    case Activate(id) =>
      if id in store && store[id].account != Customer then Some(store[id := store[id].(active := true)]) else None
  }

  /**
   A new staff user can be created under an id that is free, and any existing staff user activated; the row then
   reads as requested, every other row as before. The others, who are counted before, are all seats but the
   user's own.
   */
  lemma WriteExactly(store: Store, id: UserId, account: AccountType)
    ensures Write(store, Create(id, account)).Some? <==> id !in store && (account == Admin || account == Operator)
    ensures Write(store, Activate(id)).Some?
            <==> id in store && (store[id].account == Admin || store[id].account == Operator)
    ensures Write(store, Create(id, account)).Some? ==>
              Write(store, Create(id, account)).value == store[id := User(account, true)]
    ensures Write(store, Activate(id)).Some? ==>
              Write(store, Activate(id)).value == store[id := User(store[id].account, true)]
    ensures CountActiveStaff(store, Excluded(Create(id, account))) == |Seats(store)|
    ensures CountActiveStaff(store, Excluded(Activate(id))) == |Seats(store) - {id}|
  {}

  datatype Phase = Begun | Locked | Approved | Committed | Refused | Aborted

  datatype Txn = Txn(request: Request, phase: Phase)

  /** `locking` is false on a backend without advisory locks, where the lock statement is skipped. */
  datatype Config = Config(cap: Option<nat>, locking: bool)

  datatype World = World(store: Store, holder: Option<nat>, txns: seq<Txn>)

  datatype Action =
    | AcquireLock(t: nat)
    | Enforce(t: nat)             // count and compare
    | Commit(t: nat)              // write, commit, release
    | Abort(t: nat)               // rollback or lost connection, release
    | Other(store: Store)         // any committed change that adds no seat

  function Release(holder: Option<nat>, t: nat): Option<nat>
  {
    if holder == Some(t) then None else holder
  }

  function SetPhase(w: World, t: nat, phase: Phase): seq<Txn>
    requires t < |w.txns|
  {
    w.txns[t := w.txns[t].(phase := phase)]
  }

  /** One step, or None when it is not possible in this state. */
  function Step(cfg: Config, w: World, a: Action): Option<World>
  {
    match a
    case AcquireLock(t) =>
      if t < |w.txns| && w.txns[t].phase == Begun && cfg.cap.Some? && cfg.locking && w.holder.None?
      then Some(World(w.store, Some(t), SetPhase(w, t, Locked))) else None
    case Enforce(t) =>
      if !(t < |w.txns|) then None
      else if cfg.cap.None? then
        if w.txns[t].phase == Begun then Some(w.(txns := SetPhase(w, t, Approved))) else None
      else if w.txns[t].phase != (if cfg.locking then Locked else Begun) then None
      else if CountActiveStaff(w.store, Excluded(w.txns[t].request)) >= cfg.cap.value then
        Some(World(w.store, Release(w.holder, t), SetPhase(w, t, Refused)))
      else Some(w.(txns := SetPhase(w, t, Approved)))
    case Commit(t) =>
      if !(t < |w.txns|) || w.txns[t].phase != Approved then None
      else (match Write(w.store, w.txns[t].request)
        case None => None
        case Some(store) => Some(World(store, Release(w.holder, t), SetPhase(w, t, Committed))))
    case Abort(t) =>
      if t < |w.txns| && w.txns[t].phase in {Begun, Locked, Approved}
      then Some(World(w.store, Release(w.holder, t), SetPhase(w, t, Aborted))) else None
    case Other(store) =>
      if Seats(store) <= Seats(w.store) then Some(w.(store := store)) else None
  }

  function Run(cfg: Config, w: World, schedule: seq<Action>): Option<World>
    decreases |schedule|
  {
    if schedule == [] then Some(w)
    else match Step(cfg, w, schedule[0])
      case None => None
      case Some(next) => Run(cfg, next, schedule[1..])
  }

  predicate Initial(w: World)
  {
    w.holder.None? && forall t :: 0 <= t < |w.txns| ==> w.txns[t].phase == Begun
  }

  // ---------------------------------------------------------------------------------------------
  // Counting
  // ---------------------------------------------------------------------------------------------

  lemma SubsetSize<T>(a: set<T>, b: set<T>)
    requires a <= b
    ensures |a| <= |b|
  {
    if a != {} {
      var x :| x in a;
      SubsetSize(a - {x}, b - {x});
    }
  }

  lemma SeatsAfterUpdate(store: Store, id: UserId, u: User)
    requires IsSeat(u)
    ensures Seats(store[id := u]) == Seats(store) + {id}
  {
    var after := store[id := u];
    forall x ensures x in Seats(after) <==> x in Seats(store) + {id} {
      if x != id { assert x in after <==> x in store; }
    }
  }

  /** After a write the seats are those counted plus the one written. */
  lemma WriteSeats(store: Store, r: Request)
    requires Write(store, r).Some?
    ensures Seats(Write(store, r).value) == Seats(store) + {r.id}
    ensures |Seats(Write(store, r).value)| == CountActiveStaff(store, Excluded(r)) + 1
  {
    match r
    case Create(id, account) =>
      SeatsAfterUpdate(store, id, User(account, true));
      assert id !in Seats(store);
    case Activate(id) =>
      SeatsAfterUpdate(store, id, store[id].(active := true));
      var others := Seats(store) - {id};
      assert Seats(store) + {id} == others + {id};
      assert |others + {id}| == |others| + 1;
  }

  // ---------------------------------------------------------------------------------------------
  // The invariant under the lock
  // ---------------------------------------------------------------------------------------------

  /** The lock holder is the only one inside, and an approval stays good until its own commit. */
  predicate Inv(cfg: Config, w: World)
    requires cfg.cap.Some?
  {
    && (forall t :: 0 <= t < |w.txns| && w.txns[t].phase in {Locked, Approved} ==> w.holder == Some(t))
    && (forall t :: 0 <= t < |w.txns| && w.txns[t].phase == Approved ==>
          CountActiveStaff(w.store, Excluded(w.txns[t].request)) < cfg.cap.value)
  }

  lemma StepKeepsInv(cfg: Config, w: World, a: Action)
    requires cfg.cap.Some? && cfg.locking && Inv(cfg, w) && Step(cfg, w, a).Some?
    ensures Inv(cfg, Step(cfg, w, a).value)
  {
    var w' := Step(cfg, w, a).value;
    if a.Other? {
      forall t | 0 <= t < |w'.txns| && w'.txns[t].phase == Approved
        ensures CountActiveStaff(w'.store, Excluded(w'.txns[t].request)) < cfg.cap.value
      {
        assert w.txns[t].phase == Approved;
        var out := Excluded(w.txns[t].request);
        if out.Some? {
          SubsetSize(Seats(w'.store) - {out.value}, Seats(w.store) - {out.value});
        } else {
          SubsetSize(Seats(w'.store), Seats(w.store));
        }
      }
    }
  }

  /** A commit that adds a seat leaves at most `cap` seats; nothing else adds one; and enforcement never removes one. */
  lemma StepRespectsCap(cfg: Config, w: World, a: Action)
    requires cfg.cap.Some? && cfg.locking && Inv(cfg, w) && Step(cfg, w, a).Some?
    ensures var w' := Step(cfg, w, a).value;
            && (a.Commit? ==> |Seats(w'.store)| <= cfg.cap.value)
            && (!a.Commit? ==> Seats(w'.store) <= Seats(w.store))
            && (!a.Other? ==> Seats(w.store) <= Seats(w'.store))
  {
    if a.Commit? {
      WriteSeats(w.store, w.txns[a.t].request);
    }
  }

  function Max(a: nat, b: nat): nat { if a < b then b else a }

  /**
   Over every schedule of any number of requests the committed seats never exceed the larger of the cap and the
   starting count, so an install that was over the cap never grows, and one that was under never passes it.
   */
  lemma SeatsNeverExceedCap(cfg: Config, w0: World, schedule: seq<Action>)
    requires cfg.cap.Some? && cfg.locking && Initial(w0) && Run(cfg, w0, schedule).Some?
    ensures |Seats(Run(cfg, w0, schedule).value.store)| <= Max(cfg.cap.value, |Seats(w0.store)|)
  {
    RunRespectsCap(cfg, w0, schedule);
  }

  lemma {:induction false} RunRespectsCap(cfg: Config, w: World, schedule: seq<Action>)
    requires cfg.cap.Some? && cfg.locking && Inv(cfg, w) && Run(cfg, w, schedule).Some?
    ensures |Seats(Run(cfg, w, schedule).value.store)| <= Max(cfg.cap.value, |Seats(w.store)|)
    ensures Inv(cfg, Run(cfg, w, schedule).value)
    decreases |schedule|
  {
    if schedule != [] {
      var a := schedule[0];
      var next := Step(cfg, w, a).value;
      StepKeepsInv(cfg, w, a);
      StepRespectsCap(cfg, w, a);
      if !a.Commit? { SubsetSize(Seats(next.store), Seats(w.store)); }
      RunRespectsCap(cfg, next, schedule[1..]);
    }
  }

  /** While an install is over the cap and nobody leaves, every request is refused and nobody is locked out. */
  lemma {:induction false} GrandfatheredInstallIsFrozen(cfg: Config, w: World, schedule: seq<Action>)
    requires cfg.cap.Some? && cfg.locking && Run(cfg, w, schedule).Some?
    requires |Seats(w.store)| > cfg.cap.value
    requires forall t :: 0 <= t < |w.txns| ==> w.txns[t].phase != Approved
    requires forall k :: 0 <= k < |schedule| ==> !schedule[k].Other?
    ensures Run(cfg, w, schedule).value.store == w.store
    ensures forall k :: 0 <= k < |schedule| ==> !schedule[k].Commit?
    decreases |schedule|
  {
    if schedule != [] {
      OverCapStep(cfg, w, schedule[0]);
      GrandfatheredInstallIsFrozen(cfg, Step(cfg, w, schedule[0]).value, schedule[1..]);
    }
  }

  lemma OverCapStep(cfg: Config, w: World, a: Action)
    requires cfg.cap.Some? && cfg.locking && Step(cfg, w, a).Some?
    requires |Seats(w.store)| > cfg.cap.value
    requires forall t :: 0 <= t < |w.txns| ==> w.txns[t].phase != Approved
    requires !a.Other?
    ensures !a.Commit?
    ensures Step(cfg, w, a).value.store == w.store
    ensures var next := Step(cfg, w, a).value; forall t :: 0 <= t < |next.txns| ==> next.txns[t].phase != Approved
  {
    if a.Enforce? {
      var out := Excluded(w.txns[a.t].request);
      if out.Some? {
        assert Seats(w.store) <= (Seats(w.store) - {out.value}) + {out.value};
        SubsetSize(Seats(w.store), (Seats(w.store) - {out.value}) + {out.value});
      }
    }
  }

  // ---------------------------------------------------------------------------------------------
  // What becomes of a request
  // ---------------------------------------------------------------------------------------------

  /**
   The steps of one request that nobody disturbs: lock if there is a cap and a lock, count, and commit if let through.
   */
  function Alone(cfg: Config, w: World, t: nat): seq<Action>
    requires t < |w.txns|
  {
    var free := cfg.cap.None? || CountActiveStaff(w.store, Excluded(w.txns[t].request)) < cfg.cap.value;
    (if cfg.cap.Some? && cfg.locking then [AcquireLock(t)] else []) + [Enforce(t)] + (if free then [Commit(t)] else [])
  }

  lemma RunOne(cfg: Config, w: World, a: Action, rest: seq<Action>)
    requires Step(cfg, w, a).Some?
    ensures Run(cfg, w, [a] + rest) == Run(cfg, Step(cfg, w, a).value, rest)
  {
    assert ([a] + rest)[1..] == rest;
  }

  /**
   A new request that finds the lock free and a writable row is committed, with exactly its user made active, when there
   is no cap or the others are fewer than the cap; otherwise it is refused and nothing changes. The lock is free again.
   */
  lemma RequestAlone(cfg: Config, w: World, t: nat)
    requires t < |w.txns| && w.txns[t].phase == Begun && w.holder.None? && Write(w.store, w.txns[t].request).Some?
    ensures var r := w.txns[t].request;
            var free := cfg.cap.None? || CountActiveStaff(w.store, Excluded(r)) < cfg.cap.value;
            Run(cfg, w, Alone(cfg, w, t))
            == Some(World(if free then Write(w.store, r).value else w.store, None,
                          w.txns[t := Txn(r, if free then Committed else Refused)]))
  {
    var r := w.txns[t].request;
    var free := cfg.cap.None? || CountActiveStaff(w.store, Excluded(r)) < cfg.cap.value;
    var locks := cfg.cap.Some? && cfg.locking;
    var w1 := if locks then Step(cfg, w, AcquireLock(t)).value else w;
    var tail: seq<Action> := if free then [Commit(t)] else [];
    var w2 := Step(cfg, w1, Enforce(t)).value;
    RunOne(cfg, w1, Enforce(t), tail);
    if locks {
      RunOne(cfg, w, AcquireLock(t), [Enforce(t)] + tail);
      assert [AcquireLock(t)] + ([Enforce(t)] + tail) == Alone(cfg, w, t);
    } else {
      assert [Enforce(t)] + tail == Alone(cfg, w, t);
    }
    if free {
      assert [Commit(t)] + [] == [Commit(t)];
      RunOne(cfg, w2, Commit(t), []);
      var w3 := Step(cfg, w2, Commit(t)).value;
      assert w3.txns == w.txns[t := Txn(r, Committed)];
    } else {
      assert w2.txns == w.txns[t := Txn(r, Refused)];
    }
  }

  /** A request that has begun and is not decided can always be given up: nothing changes, and its lock is free. */
  lemma GiveUp(cfg: Config, w: World, t: nat)
    requires t < |w.txns|
    ensures Step(cfg, w, Abort(t)).Some?
       <==> w.txns[t].phase != Committed && w.txns[t].phase != Refused && w.txns[t].phase != Aborted
    ensures Step(cfg, w, Abort(t)).Some? ==>
              var w' := Step(cfg, w, Abort(t)).value;
              w'.store == w.store && w'.holder != Some(t) && w'.txns == w.txns[t := Txn(w.txns[t].request, Aborted)]
  {}

  /** Deactivating, demoting or removing anyone, or changing nothing, is possible at any moment, without the lock. */
  lemma LeavingIsAlwaysPossible(cfg: Config, w: World, id: UserId)
    requires id in w.store
    ensures var left := w.store[id := w.store[id].(active := false)];
            Step(cfg, w, Other(left)) == Some(World(left, w.holder, w.txns))
    ensures var left := w.store[id := w.store[id].(account := Customer)];
            Step(cfg, w, Other(left)) == Some(World(left, w.holder, w.txns))
    ensures Step(cfg, w, Other(w.store - {id})) == Some(World(w.store - {id}, w.holder, w.txns))
    ensures Step(cfg, w, Other(w.store)) == Some(w)
  {}

  /** A finished request does nothing more, and only the lock holder may count under a lock. */
  lemma FinishedRequestIsIdle(cfg: Config, w: World, t: nat)
    requires t < |w.txns|
    ensures w.txns[t].phase == Committed || w.txns[t].phase == Refused || w.txns[t].phase == Aborted ==>
              && Step(cfg, w, AcquireLock(t)).None? && Step(cfg, w, Enforce(t)).None? && Step(cfg, w, Commit(t)).None?
    ensures Step(cfg, w, Commit(t)).Some? ==> w.txns[t].phase == Approved
    ensures cfg.cap.Some? && cfg.locking && Step(cfg, w, Enforce(t)).Some? ==> w.txns[t].phase == Locked
    ensures Step(cfg, w, AcquireLock(t)).Some? ==> w.holder == None && cfg.cap.Some? && cfg.locking
  {}

  // ---------------------------------------------------------------------------------------------
  // Without the lock
  // ---------------------------------------------------------------------------------------------

  function Staff(n: nat): Store
  {
    if n == 0 then map[] else Staff(n - 1)[n - 1 := User(Operator, true)]
  }

  lemma {:induction false} StaffSeats(n: nat)
    ensures |Seats(Staff(n))| == n && forall id :: id in Staff(n) <==> 0 <= id < n
  {
    if n > 0 {
      StaffSeats(n - 1);
      SeatsAfterUpdate(Staff(n - 1), n - 1, User(Operator, true));
      assert n - 1 !in Seats(Staff(n - 1));
    }
  }

  /** Two concurrent creates that both count before either commits. */
  const RACE: seq<Action> := [Enforce(0), Enforce(1), Commit(0), Commit(1)]

  function RaceStart(cap: nat): World
    requires cap > 0
  {
    World(Staff(cap - 1), None, [Txn(Create(cap, Admin), Begun), Txn(Create(cap + 1, Admin), Begun)])
  }

  lemma UnlockedRaceOvershoots(cap: nat)
    requires cap > 0
    ensures var cfg := Config(Some(cap), false);
            && Run(cfg, RaceStart(cap), RACE).Some?
            && |Seats(Run(cfg, RaceStart(cap), RACE).value.store)| == cap + 1
  {
    var cfg := Config(Some(cap), false);
    var w0 := RaceStart(cap);
    StaffSeats(cap - 1);
    var w1 := Step(cfg, w0, Enforce(0)).value;
    var w2 := Step(cfg, w1, Enforce(1)).value;
    WriteSeats(w2.store, w2.txns[0].request);
    var w3 := Step(cfg, w2, Commit(0)).value;
    WriteSeats(w3.store, w3.txns[1].request);
    var w4 := Step(cfg, w3, Commit(1)).value;
    assert RACE[1..] == [Enforce(1), Commit(0), Commit(1)];
    assert RACE[1..][1..] == [Commit(0), Commit(1)];
    assert RACE[1..][1..][1..] == [Commit(1)];
    assert Run(cfg, w3, [Commit(1)]) == Run(cfg, w4, []);
  }

  ghost predicate CapHolds(cfg: Config)
    requires cfg.cap.Some?
  {
    forall w0: World, schedule: seq<Action> :: Initial(w0) && Run(cfg, w0, schedule).Some? ==>
      |Seats(Run(cfg, w0, schedule).value.store)| <= Max(cfg.cap.value, |Seats(w0.store)|)
  }

  /**
   The cap holds on every schedule exactly when the backend really locks, or the cap is zero and everything is refused.
   */
  lemma CapHoldsExactlyUnderTheLock(cfg: Config)
    requires cfg.cap.Some?
    ensures CapHolds(cfg) <==> cfg.locking || cfg.cap.value == 0
  {
    if cfg.locking {
      forall w0: World, schedule: seq<Action> | Initial(w0) && Run(cfg, w0, schedule).Some?
        ensures |Seats(Run(cfg, w0, schedule).value.store)| <= Max(cfg.cap.value, |Seats(w0.store)|)
      {
        SeatsNeverExceedCap(cfg, w0, schedule);
      }
    } else if cfg.cap.value == 0 {
      forall w0: World, schedule: seq<Action> | Initial(w0) && Run(cfg, w0, schedule).Some?
        ensures |Seats(Run(cfg, w0, schedule).value.store)| <= Max(cfg.cap.value, |Seats(w0.store)|)
      {
        ZeroCapRefusesAll(cfg, w0, schedule);
      }
    } else {
      UnlockedRaceOvershoots(cfg.cap.value);
      StaffSeats(cfg.cap.value - 1);
      assert cfg == Config(Some(cfg.cap.value), false);
      assert Initial(RaceStart(cfg.cap.value));
    }
  }

  lemma {:induction false} ZeroCapRefusesAll(cfg: Config, w: World, schedule: seq<Action>)
    requires cfg.cap == Some(0) && Run(cfg, w, schedule).Some?
    requires forall t :: 0 <= t < |w.txns| ==> w.txns[t].phase != Approved
    ensures Seats(Run(cfg, w, schedule).value.store) <= Seats(w.store)
    ensures |Seats(Run(cfg, w, schedule).value.store)| <= |Seats(w.store)|
    decreases |schedule|
  {
    if schedule != [] {
      ZeroCapRefusesAll(cfg, Step(cfg, w, schedule[0]).value, schedule[1..]);
    }
    SubsetSize(Seats(Run(cfg, w, schedule).value.store), Seats(w.store));
  }

  // ---------------------------------------------------------------------------------------------
  // Tiers
  // ---------------------------------------------------------------------------------------------

  /** A spelling of a lower-case name: each letter may be in either case. */
  predicate Spells(text: string, name: string)
  {
    |text| == |name| && forall i :: 0 <= i < |name| ==> LowerChar(text[i]) == name[i]
  }

  lemma LowerSpells(text: string, name: string)
    ensures Lower(text) == name <==> Spells(text, name)
  {
    LowerMeaning(text);
    if Spells(text, name) {
      assert forall i :: 0 <= i < |name| ==> Lower(text)[i] == name[i];
    }
  }

  /**
   Exactly the two paid names, spelled in any case, are unlimited; every other tier, and a missing one, gets the
   community cap; and the letter case of a tier never matters.
   */
  lemma TierFallsBackToCommunity(tier: Option<string>, communityCap: Option<nat>)
    ensures SeatCapForTier(tier, communityCap)
         == if tier.Some? && (Spells(tier.value, "professional") || Spells(tier.value, "enterprise")) then None
            else communityCap
    ensures tier.Some? ==> SeatCapForTier(Some(Lower(tier.value)), communityCap) == SeatCapForTier(tier, communityCap)
  {
    if tier.Some? {
      LowerSpells(tier.value, "professional");
      LowerSpells(tier.value, "enterprise");
      LowerTwice(tier.value);
    }
  }
}
