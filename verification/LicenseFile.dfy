/**
 license.json under concurrent savers, clearers and readers that may die at any point. The directory entry points to an
 inode; a saver fills an inode of its own through a temporary name, piece by piece, and renames it into place; a reader
 opens whatever inode the entry points to and reads that. A schedule is a sequence of (process, action) pairs.
 */
module LicenseFile {
  import opened Wrappers

  type Inode = nat

  datatype Process =
    // save_license_cache -> _atomic_write_text
    | Saving(text: string)
    | Writing(text: string, inode: Inode)        // mkstemp done, the first part of text may be in the file
    | Synced(text: string, inode: Inode)         // all of text written, flushed and fsynced
    | Saved
    | SaveFailed                                  // exception: temporary file removed, error re-raised
    // clear_license_cache
    | Clearing
    | Unlinking                                   // saw the file
    | Cleared(removed: bool)
    | ClearRaised                                 // the file was gone before unlink
    // load_license_cache
    | Loading
    | Opening                                     // saw the file
    | Reading(inode: Inode)
    | NoFile
    | Got(text: string)
    | LoadRaised                                  // the file was gone before it could be opened
    | Crashed

  /**
   `live` is the inode license.json points to; `inodes` the text in each inode; `temps` those with a temporary name.
   */
  datatype World = World(live: Option<Inode>, inodes: seq<string>, temps: set<Inode>, processes: seq<Process>)

  datatype Action =
    | MakeTemp | WritePart(upTo: nat) | Sync | Rename | Fail     // saver
    | Exists | Unlink                                            // clearer; Exists also serves the reader
    | Open | Read                                                // reader
    | Crash

  datatype Event = Event(process: nat, action: Action)

  predicate Finished(p: Process)
  {
    p in {Saved, SaveFailed, ClearRaised, NoFile, LoadRaised, Crashed} || p.Cleared? || p.Got?
  }

  function Become(w: World, i: nat, p: Process): World
    requires i < |w.processes|
  {
    w.(processes := w.processes[i := p])
  }

  function Step(w: World, e: Event): Option<World>
  {
    var i := e.process;
    if i >= |w.processes| then None
    else match (e.action, w.processes[i])
      case (MakeTemp, Saving(text)) =>
        var n := |w.inodes|;
        Some(Become(w.(inodes := w.inodes + [""], temps := w.temps + {n}), i, Writing(text, n)))
      case (WritePart(upTo), Writing(text, n)) =>
        if n < |w.inodes| && |w.inodes[n]| <= upTo <= |text| then Some(w.(inodes := w.inodes[n := text[..upTo]]))
        else None
      case (Sync, Writing(text, n)) =>
        if n < |w.inodes| && w.inodes[n] == text then Some(Become(w, i, Synced(text, n))) else None
      case (Rename, Synced(_, n)) => Some(Become(w.(live := Some(n), temps := w.temps - {n}), i, Saved))
      case (Fail, Saving(_)) => Some(Become(w, i, SaveFailed))
      case (Fail, Writing(_, n)) => Some(Become(w.(temps := w.temps - {n}), i, SaveFailed))
      case (Fail, Synced(_, n)) => Some(Become(w.(temps := w.temps - {n}), i, SaveFailed))
      case (Exists, Clearing) => Some(Become(w, i, if w.live.Some? then Unlinking else Cleared(false)))
      case (Unlink, Unlinking) =>
        if w.live.Some? then Some(Become(w.(live := None), i, Cleared(true))) else Some(Become(w, i, ClearRaised))
      case (Exists, Loading) => Some(Become(w, i, if w.live.Some? then Opening else NoFile))
      case (Open, Opening) =>
        if w.live.Some? then Some(Become(w, i, Reading(w.live.value))) else Some(Become(w, i, LoadRaised))
      case (Read, Reading(n)) => if n < |w.inodes| then Some(Become(w, i, Got(w.inodes[n]))) else None
      case (Crash, p) => if Finished(p) then None else Some(Become(w, i, Crashed))
      case _ => None
  }

  /**
    A process with an outcome does nothing more; every other one can die at any moment, and then changes
    nothing else.
    */
  lemma DeathAnywhere(w: World, i: nat)
    requires i < |w.processes|
    ensures var p := w.processes[i];
            var hasOutcome := p == Saved || p == SaveFailed || p.Cleared? || p == ClearRaised
                              || p == NoFile || p.Got? || p == LoadRaised || p == Crashed;
            && (hasOutcome ==> forall a :: Step(w, Event(i, a)) == None)
            && (!hasOutcome ==> Step(w, Event(i, Crash)) == Some(w.(processes := w.processes[i := Crashed])))
  {}

  /** A saver can fail before its rename: the file stays as it is, and its temporary name is removed. */
  lemma SaverCanFail(w: World, i: nat)
    requires i < |w.processes|
    ensures w.processes[i].Saving? ==>
              Step(w, Event(i, Fail)) == Some(w.(processes := w.processes[i := SaveFailed]))
    ensures w.processes[i].Writing? || w.processes[i].Synced? ==>
              Step(w, Event(i, Fail))
              == Some(w.(processes := w.processes[i := SaveFailed], temps := w.temps - {w.processes[i].inode}))
    ensures !w.processes[i].Saving? && !w.processes[i].Writing? && !w.processes[i].Synced? ==>
              Step(w, Event(i, Fail)) == None
  {}

  /**
    What each outcome reports is what happened: a file was there and is gone, was not there, or vanished in
    between.
    */
  lemma OutcomesAreTrue(w: World, e: Event)
    requires Step(w, e).Some?
    ensures var w', p := Step(w, e).value, w.processes[e.process];
            && |w'.processes| == |w.processes|
            && var p' := w'.processes[e.process];
               && (p' == Saved ==> p.Synced? && w'.live == Some(p.inode))
               && (p' == Cleared(true) ==> p == Unlinking && w.live.Some? && w'.live == None)
               && (p' == Cleared(false) ==> p == Clearing && w.live == None && w'.live == None)
               && (p' == ClearRaised ==> p == Unlinking && w.live == None)
               && (p' == NoFile ==> p == Loading && w.live == None)
               && (p' == LoadRaised ==> p == Opening && w.live == None)
               && (p'.Got? ==> p.Reading? && p.inode < |w.inodes| && p'.text == w.inodes[p.inode])
               && (p' == Unlinking ==> p == Clearing && w.live.Some?)
               && (p' == Opening ==> p == Loading && w.live.Some?)
               && (p'.Reading? ==> p == Opening && w.live == Some(p'.inode))
  {}

  /** A clear and a load can always go on: no process waits for another. */
  lemma ClearsAndLoadsGoOn(w: World, i: nat)
    requires i < |w.processes|
    ensures w.processes[i] == Clearing || w.processes[i] == Loading ==> Step(w, Event(i, Exists)).Some?
    ensures w.processes[i] == Unlinking ==> Step(w, Event(i, Unlink)).Some?
    ensures w.processes[i] == Opening ==> Step(w, Event(i, Open)).Some?
    ensures w.processes[i].Reading? && w.processes[i].inode < |w.inodes| ==> Step(w, Event(i, Read)).Some?
  {}

  function Run(w: World, schedule: seq<Event>): Option<World>
    decreases |schedule|
  {
    if schedule == [] then Some(w)
    else match Step(w, schedule[0])
      case None => None
      case Some(next) => Run(next, schedule[1..])
  }

  predicate Starting(p: Process)
  {
    p.Saving? || p == Clearing || p == Loading
  }

  /** At most one finished file on disk, plus any temporary files that dead savers left behind. */
  predicate Initial(w: World)
  {
    && (forall i :: 0 <= i < |w.processes| ==> Starting(w.processes[i]))
    && (w.live.Some? ==> w.live.value < |w.inodes| && w.live.value !in w.temps)
  }

  /** What an instantaneous look at license.json shows. */
  function Visible(w: World): Option<string>
  {
    if w.live.Some? && w.live.value < |w.inodes| then Some(w.inodes[w.live.value]) else None
  }

  // ---------------------------------------------------------------------------------------------
  // The invariant
  // ---------------------------------------------------------------------------------------------

  predicate Owns(p: Process, n: Inode)
  {
    (p.Writing? || p.Synced?) && p.inode == n
  }

  /** An inode nobody writes any more. */
  predicate Settled(w: World, n: Inode)
  {
    n < |w.inodes| && forall i :: 0 <= i < |w.processes| ==> !Owns(w.processes[i], n)
  }

  predicate ProcessOk(w: World, p: Process)
  {
    match p
    case Writing(text, n) => n < |w.inodes| && w.inodes[n] <= text
    case Synced(text, n) => n < |w.inodes| && w.inodes[n] == text
    case Reading(n) => Settled(w, n)
    case _ => true
  }

  ghost predicate Inv(w: World)
  {
    && (forall i :: 0 <= i < |w.processes| ==> ProcessOk(w, w.processes[i]))
    && (forall i, j, n: Inode :: 0 <= i < |w.processes| && 0 <= j < |w.processes| ==>
          Owns(w.processes[i], n) && Owns(w.processes[j], n) ==> i == j)
    && (w.live.Some? ==> Settled(w, w.live.value))
  }

  /** A step changes no other process, and no inode that the acting process does not own. */
  lemma StepFrame(w: World, e: Event)
    requires Inv(w) && Step(w, e).Some?
    ensures var w' := Step(w, e).value;
            && |w'.processes| == |w.processes| && |w'.inodes| >= |w.inodes|
            && (forall j :: 0 <= j < |w.processes| && j != e.process ==> w'.processes[j] == w.processes[j])
            && (forall n: Inode :: n < |w.inodes| && !Owns(w.processes[e.process], n) ==> w'.inodes[n] == w.inodes[n])
            && (forall n: Inode :: n < |w.inodes| && Owns(w'.processes[e.process], n)
                  ==> Owns(w.processes[e.process], n))
  {
    assert ProcessOk(w, w.processes[e.process]);
  }

  lemma SettledStays(w: World, e: Event, n: Inode)
    requires Inv(w) && Step(w, e).Some? && Settled(w, n)
    ensures Settled(Step(w, e).value, n) && Step(w, e).value.inodes[n] == w.inodes[n]
  {
    StepFrame(w, e);
    assert !Owns(w.processes[e.process], n);
  }

  lemma OthersStayOk(w: World, e: Event, j: nat)
    requires Inv(w) && Step(w, e).Some? && j < |w.processes| && j != e.process
    ensures j < |Step(w, e).value.processes|
    ensures ProcessOk(Step(w, e).value, Step(w, e).value.processes[j])
  {
    StepFrame(w, e);
    var p := w.processes[j];
    assert ProcessOk(w, p);
    if p.Reading? {
      SettledStays(w, e, p.inode);
    } else if p.Writing? || p.Synced? {
      assert Owns(p, p.inode);
      assert !Owns(w.processes[e.process], p.inode);
    }
  }

  lemma ActorStaysOk(w: World, e: Event)
    requires Inv(w) && Step(w, e).Some?
    ensures e.process < |Step(w, e).value.processes|
    ensures ProcessOk(Step(w, e).value, Step(w, e).value.processes[e.process])
  {
    var p := w.processes[e.process];
    assert ProcessOk(w, p);
    if e.action.Open? && w.live.Some? {
      SettledStays(w, e, w.live.value);
    }
  }

  lemma OwnersStayUnique(w: World, e: Event, i: nat, j: nat, n: Inode)
    requires Inv(w) && Step(w, e).Some? && i < |w.processes| && j < |w.processes|
    requires var w' := Step(w, e).value;
             |w'.processes| == |w.processes| && Owns(w'.processes[i], n) && Owns(w'.processes[j], n)
    ensures i == j
  {
    StepFrame(w, e);
    assert ProcessOk(w, w.processes[i]) && ProcessOk(w, w.processes[j]);
    if n < |w.inodes| {
      assert Owns(w.processes[i], n) && Owns(w.processes[j], n);
    }
  }

  lemma LiveStaysSettled(w: World, e: Event)
    requires Inv(w) && Step(w, e).Some?
    ensures var w' := Step(w, e).value; w'.live.Some? ==> Settled(w', w'.live.value)
  {
    StepFrame(w, e);
    var w', p := Step(w, e).value, w.processes[e.process];
    assert ProcessOk(w, p);
    if e.action.Rename? {
      assert Owns(p, p.inode);
      forall j | 0 <= j < |w'.processes| ensures !Owns(w'.processes[j], p.inode) {
        if j != e.process { assert Owns(w.processes[j], p.inode) ==> j == e.process; }
      }
    } else if w'.live.Some? {
      SettledStays(w, e, w.live.value);
    }
  }

  lemma StepKeepsInv(w: World, e: Event)
    requires Inv(w) && Step(w, e).Some?
    ensures Inv(Step(w, e).value) && |Step(w, e).value.processes| == |w.processes|
  {
    var w' := Step(w, e).value;
    StepFrame(w, e);
    forall j | 0 <= j < |w'.processes| ensures ProcessOk(w', w'.processes[j]) {
      if j == e.process { ActorStaysOk(w, e); } else { OthersStayOk(w, e, j); }
    }
    forall i, j, n: Inode
      | 0 <= i < |w'.processes| && 0 <= j < |w'.processes| && Owns(w'.processes[i], n) && Owns(w'.processes[j], n)
      ensures i == j
    {
      OwnersStayUnique(w, e, i, j, n);
    }
    LiveStaysSettled(w, e);
  }

  lemma {:induction false} RunKeepsInv(w: World, schedule: seq<Event>)
    requires Inv(w) && Run(w, schedule).Some?
    ensures Inv(Run(w, schedule).value) && |Run(w, schedule).value.processes| == |w.processes|
    decreases |schedule|
  {
    if schedule != [] {
      StepKeepsInv(w, schedule[0]);
      RunKeepsInv(Step(w, schedule[0]).value, schedule[1..]);
    }
  }

  // ---------------------------------------------------------------------------------------------
  // The file is an atomic register
  // ---------------------------------------------------------------------------------------------

  /** The register's value after one event: a rename stores the saver's whole text, a successful unlink empties it. */
  function Register(value: Option<string>, w: World, e: Event): Option<string>
  {
    if e.process >= |w.processes| then value
    else match (e.action, w.processes[e.process])
      case (Rename, Synced(text, _)) => Some(text)
      case (Unlink, Unlinking) => None
      case _ => value
  }

  function RegisterAfter(value: Option<string>, w: World, schedule: seq<Event>): Option<string>
    requires Run(w, schedule).Some?
    decreases |schedule|
  {
    if schedule == [] then value
    else RegisterAfter(Register(value, w, schedule[0]), Step(w, schedule[0]).value, schedule[1..])
  }

  lemma StepIsRegister(w: World, e: Event)
    requires Inv(w) && Step(w, e).Some?
    ensures Visible(Step(w, e).value) == Register(Visible(w), w, e)
  {
    var i := e.process;
    assert ProcessOk(w, w.processes[i]);
    if w.live.Some? { assert !Owns(w.processes[i], w.live.value); }
  }

  /** Whatever the interleaving, partial writes, failures and crashes, the file shows exactly the register's value. */
  lemma {:induction false} FileIsAtomicRegister(w: World, schedule: seq<Event>)
    requires Inv(w) && Run(w, schedule).Some?
    ensures Visible(Run(w, schedule).value) == RegisterAfter(Visible(w), w, schedule)
    decreases |schedule|
  {
    if schedule != [] {
      StepIsRegister(w, schedule[0]);
      StepKeepsInv(w, schedule[0]);
      FileIsAtomicRegister(Step(w, schedule[0]).value, schedule[1..]);
    }
  }

  /**
   A reader that has opened the file gets what was visible at that moment, however the file changes before it reads.
   */
  lemma {:induction false} ReaderGetsWhatItOpened(w: World, schedule: seq<Event>, i: nat)
    requires Inv(w) && Run(w, schedule).Some? && i < |w.processes| && w.processes[i].Reading?
    ensures |Run(w, schedule).value.processes| == |w.processes|
    ensures w.processes[i].inode < |w.inodes|
    ensures var p := Run(w, schedule).value.processes[i];
            p == w.processes[i] || p == Crashed || p == Got(w.inodes[w.processes[i].inode])
    decreases |schedule|
  {
    assert ProcessOk(w, w.processes[i]);
    if schedule != [] {
      var e := schedule[0];
      var next := Step(w, e).value;
      StepKeepsInv(w, e);
      assert !Owns(w.processes[e.process], w.processes[i].inode);
      if next.processes[i].Reading? {
        ReaderGetsWhatItOpened(next, schedule[1..], i);
      } else {
        FinishedStays(next, schedule[1..], i);
      }
    }
  }

  lemma {:induction false} FinishedStays(w: World, schedule: seq<Event>, i: nat)
    requires Run(w, schedule).Some? && i < |w.processes| && Finished(w.processes[i])
    ensures |Run(w, schedule).value.processes| == |w.processes|
    ensures Run(w, schedule).value.processes[i] == w.processes[i]
    decreases |schedule|
  {
    if schedule != [] {
      FinishedStays(Step(w, schedule[0]).value, schedule[1..], i);
    }
  }

  // ---------------------------------------------------------------------------------------------
  // What a reader can see
  // ---------------------------------------------------------------------------------------------

  /** Texts that are legitimate to read: what was in the file at the start, and what was passed to some save. */
  predicate Legitimate(w0: World, text: string)
  {
    Visible(w0) == Some(text) || exists i :: 0 <= i < |w0.processes| && w0.processes[i] == Saving(text)
  }

  predicate TextOk(w0: World, w: World, p: Process)
  {
    match p
    case Saving(text) => Legitimate(w0, text)
    case Writing(text, _) => Legitimate(w0, text)
    case Synced(text, _) => Legitimate(w0, text)
    case Reading(n) => n < |w.inodes| && Legitimate(w0, w.inodes[n])
    case Got(text) => Legitimate(w0, text)
    case _ => true
  }

  predicate TextsOk(w0: World, w: World)
  {
    && (Visible(w).Some? ==> Legitimate(w0, Visible(w).value))
    && (forall i :: 0 <= i < |w.processes| ==> TextOk(w0, w, w.processes[i]))
  }

  lemma StepKeepsTexts(w0: World, w: World, e: Event)
    requires Inv(w) && TextsOk(w0, w) && Step(w, e).Some?
    ensures TextsOk(w0, Step(w, e).value)
  {
    var w', i := Step(w, e).value, e.process;
    StepIsRegister(w, e);
    StepFrame(w, e);
    assert TextOk(w0, w, w.processes[i]) && ProcessOk(w, w.processes[i]);
    forall j | 0 <= j < |w'.processes| ensures TextOk(w0, w', w'.processes[j]) {
      if j != i {
        assert TextOk(w0, w, w.processes[j]) && ProcessOk(w, w.processes[j]);
        if w.processes[j].Reading? { SettledStays(w, e, w.processes[j].inode); }
      }
    }
  }

  lemma {:induction false} RunKeepsTexts(w0: World, w: World, schedule: seq<Event>)
    requires Inv(w) && TextsOk(w0, w) && Run(w, schedule).Some?
    ensures TextsOk(w0, Run(w, schedule).value)
    decreases |schedule|
  {
    if schedule != [] {
      StepKeepsTexts(w0, w, schedule[0]);
      StepKeepsInv(w, schedule[0]);
      RunKeepsTexts(w0, Step(w, schedule[0]).value, schedule[1..]);
    }
  }

  /**
   In every schedule, whatever temporary files lie around, a reader that gets text gets one complete text that was
   there at the start or was passed to some save.
   */
  lemma ReadersNeverSeePartialText(w0: World, schedule: seq<Event>, i: nat)
    requires Initial(w0) && Run(w0, schedule).Some? && i < |w0.processes|
    ensures |Run(w0, schedule).value.processes| == |w0.processes|
    ensures var p := Run(w0, schedule).value.processes[i]; p.Got? ==> Legitimate(w0, p.text)
    ensures Visible(Run(w0, schedule).value).Some? ==> Legitimate(w0, Visible(Run(w0, schedule).value).value)
  {
    assert Inv(w0);
    assert TextsOk(w0, w0) by {
      forall j, text | 0 <= j < |w0.processes| && w0.processes[j] == Saving(text) ensures Legitimate(w0, text) {}
    }
    RunKeepsInv(w0, schedule);
    RunKeepsTexts(w0, w0, schedule);
  }

  // ---------------------------------------------------------------------------------------------
  // The gap between exists() and open
  // ---------------------------------------------------------------------------------------------

  /** No load or clear has raised, and none is past its check while the file is away. */
  predicate NothingVanished(w: World)
  {
    forall i :: 0 <= i < |w.processes| ==>
      && w.processes[i] != LoadRaised && w.processes[i] != ClearRaised
      && ((w.processes[i] == Opening || w.processes[i] == Unlinking) ==> w.live.Some?)
  }

  lemma StepKeepsNothingVanished(w: World, e: Event)
    requires NothingVanished(w) && Step(w, e).Some? && e.action != Unlink
    ensures NothingVanished(Step(w, e).value)
  {
    var w' := Step(w, e).value;
    assert w.live.Some? ==> w'.live.Some?;
    forall j | 0 <= j < |w'.processes|
      ensures w'.processes[j] != LoadRaised && w'.processes[j] != ClearRaised
      ensures (w'.processes[j] == Opening || w'.processes[j] == Unlinking) ==> w'.live.Some?
    {
      if j != e.process { assert w'.processes[j] == w.processes[j]; }
    }
  }

  /** A load (or a clear) raises because the file vanished under it only when some clear removed it. */
  lemma {:induction false} LoadRaisesOnlyAfterClear(w: World, schedule: seq<Event>)
    requires NothingVanished(w) && Run(w, schedule).Some?
    requires forall k :: 0 <= k < |schedule| ==> schedule[k].action != Unlink
    ensures NothingVanished(Run(w, schedule).value)
    decreases |schedule|
  {
    if schedule != [] {
      StepKeepsNothingVanished(w, schedule[0]);
      LoadRaisesOnlyAfterClear(Step(w, schedule[0]).value, schedule[1..]);
    }
  }

  lemma RunStep(w: World, e: Event, rest: seq<Event>, next: World)
    requires Step(w, e) == Some(next)
    ensures Run(w, [e] + rest) == Run(next, rest)
  {
    assert ([e] + rest)[1..] == rest;
  }

  /**
   And then it can: a load whose file is cleared between its check and its open raises instead of reporting no license.
   */
  lemma LoadCanRaise(text: string)
    ensures Initial(World(Some(0), [text], {}, [Loading, Clearing]))
    ensures Run(World(Some(0), [text], {}, [Loading, Clearing]),
                [Event(0, Exists)] + ([Event(1, Exists)] + ([Event(1, Unlink)] + ([Event(0, Open)] + []))))
         == Some(World(None, [text], {}, [LoadRaised, Cleared(true)]))
  {
    var w0 := World(Some(0), [text], {}, [Loading, Clearing]);
    var w1 := World(Some(0), [text], {}, [Opening, Clearing]);
    var w2 := World(Some(0), [text], {}, [Opening, Unlinking]);
    var w3 := World(None, [text], {}, [Opening, Cleared(true)]);
    var w4 := World(None, [text], {}, [LoadRaised, Cleared(true)]);
    assert w0.processes[0 := Opening] == w1.processes;
    assert w1.processes[1 := Unlinking] == w2.processes;
    assert w2.processes[1 := Cleared(true)] == w3.processes;
    assert w3.processes[0 := LoadRaised] == w4.processes;
    RunStep(w3, Event(0, Open), [], w4);
    RunStep(w2, Event(1, Unlink), [Event(0, Open)] + [], w3);
    RunStep(w1, Event(1, Exists), [Event(1, Unlink)] + ([Event(0, Open)] + []), w2);
    RunStep(w0, Event(0, Exists), [Event(1, Exists)] + ([Event(1, Unlink)] + ([Event(0, Open)] + [])), w1);
  }

  // ---------------------------------------------------------------------------------------------
  // When loading can never raise because the file vanished
  // ---------------------------------------------------------------------------------------------

  predicate HasRaised(p: Process)
  {
    p == LoadRaised
  }

  /** On no schedule does any load find the file gone after its check. */
  ghost predicate LoadsNeverRaise(w0: World)
  {
    forall schedule: seq<Event>, i: nat :: Run(w0, schedule).Some? && i < |Run(w0, schedule).value.processes| ==>
      !HasRaised(Run(w0, schedule).value.processes[i])
  }

  predicate IsSaver(p: Process)
  {
    p.Saving? || p.Writing? || p.Synced?
  }

  /** The three ways to be safe: nobody loads, nobody clears, or there is no file and nobody saves one. */
  predicate NobodyLoads(w: World)
  {
    forall i :: 0 <= i < |w.processes| ==> w.processes[i] !in {Loading, Opening, LoadRaised}
  }

  predicate NobodyClears(w: World)
  {
    && (forall i :: 0 <= i < |w.processes| ==> w.processes[i] !in {Clearing, Unlinking, LoadRaised})
    && (forall i :: 0 <= i < |w.processes| && w.processes[i] == Opening ==> w.live.Some?)
  }

  predicate NoFileEver(w: World)
  {
    w.live.None? && forall i :: 0 <= i < |w.processes| ==>
      w.processes[i] !in {Opening, LoadRaised} && !IsSaver(w.processes[i])
  }

  predicate Safe(w: World)
  {
    NobodyLoads(w) || NobodyClears(w) || NoFileEver(w)
  }

  lemma StepKeepsSafe(w: World, e: Event)
    requires Safe(w) && Step(w, e).Some?
    ensures Safe(Step(w, e).value)
  {
    var w' := Step(w, e).value;
    assert |w'.processes| == |w.processes|;
    forall j | 0 <= j < |w.processes| && j != e.process ensures w'.processes[j] == w.processes[j] {}
    if NobodyLoads(w) {
      assert NobodyLoads(w');
    } else if NobodyClears(w) {
      StillNobodyClears(w, e);
    } else {
      StillNoFile(w, e);
    }
  }

  lemma StillNobodyClears(w: World, e: Event)
    requires NobodyClears(w) && Step(w, e).Some?
    ensures NobodyClears(Step(w, e).value)
  {
    var w' := Step(w, e).value;
    assert w.live.Some? ==> w'.live.Some?;
    forall j | 0 <= j < |w.processes| && j != e.process ensures w'.processes[j] == w.processes[j] {}
  }

  lemma StillNoFile(w: World, e: Event)
    requires NoFileEver(w) && Step(w, e).Some?
    ensures NoFileEver(Step(w, e).value)
  {
    var w' := Step(w, e).value;
    forall j | 0 <= j < |w.processes| && j != e.process ensures w'.processes[j] == w.processes[j] {}
  }

  lemma {:induction false} SafeRun(w: World, schedule: seq<Event>, i: nat)
    requires Safe(w) && Run(w, schedule).Some? && i < |Run(w, schedule).value.processes|
    ensures !HasRaised(Run(w, schedule).value.processes[i])
    decreases |schedule|
  {
    if schedule != [] {
      StepKeepsSafe(w, schedule[0]);
      SafeRun(Step(w, schedule[0]).value, schedule[1..], i);
    }
  }

  lemma {:induction false} RunAppend(w: World, first: seq<Event>, second: seq<Event>)
    requires Run(w, first).Some?
    ensures Run(w, first + second) == Run(Run(w, first).value, second)
    decreases |first|
  {
    if first == [] {
      assert first + second == second;
    } else {
      assert (first + second)[1..] == first[1..] + second;
      RunAppend(Step(w, first[0]).value, first[1..], second);
    }
  }

  /** One saver runs alone to its end. */
  lemma SaveFirst(w: World, s: nat) returns (schedule: seq<Event>)
    requires s < |w.processes| && w.processes[s].Saving?
    ensures Run(w, schedule).Some?
    ensures var w' := Run(w, schedule).value; w'.live.Some? && w'.processes == w.processes[s := Saved]
  {
    var text, n := w.processes[s].text, |w.inodes|;
    var w1 := Step(w, Event(s, MakeTemp)).value;
    assert w1.processes[s] == Writing(text, n) && w1.inodes[n] == "";
    var w2 := Step(w1, Event(s, WritePart(|text|))).value;
    assert w2.inodes[n] == text by { assert text[..|text|] == text; }
    var w3 := Step(w2, Event(s, Sync)).value;
    var w4 := Step(w3, Event(s, Rename)).value;
    assert w4.processes == w.processes[s := Saved];
    schedule := [Event(s, MakeTemp)] + ([Event(s, WritePart(|text|))] + ([Event(s, Sync)] + ([Event(s, Rename)] + [])));
    RunStep(w3, Event(s, Rename), [], w4);
    RunStep(w2, Event(s, Sync), [Event(s, Rename)] + [], w3);
    RunStep(w1, Event(s, WritePart(|text|)), [Event(s, Sync)] + ([Event(s, Rename)] + []), w2);
    RunStep(w, Event(s, MakeTemp), [Event(s, WritePart(|text|))] + ([Event(s, Sync)] + ([Event(s, Rename)] + [])), w1);
  }

  /** A clear between the load's check and its open. */
  lemma ClearInBetween(w: World, i: nat, j: nat) returns (schedule: seq<Event>)
    requires i < |w.processes| && j < |w.processes| && w.live.Some?
    requires w.processes[i] == Loading && w.processes[j] == Clearing
    ensures Run(w, schedule).Some? && |Run(w, schedule).value.processes| == |w.processes|
    ensures HasRaised(Run(w, schedule).value.processes[i])
  {
    var w1 := Step(w, Event(i, Exists)).value;
    var w2 := Step(w1, Event(j, Exists)).value;
    var w3 := Step(w2, Event(j, Unlink)).value;
    var w4 := Step(w3, Event(i, Open)).value;
    schedule := [Event(i, Exists)] + ([Event(j, Exists)] + ([Event(j, Unlink)] + ([Event(i, Open)] + [])));
    RunStep(w3, Event(i, Open), [], w4);
    RunStep(w2, Event(j, Unlink), [Event(i, Open)] + [], w3);
    RunStep(w1, Event(j, Exists), [Event(j, Unlink)] + ([Event(i, Open)] + []), w2);
    RunStep(w, Event(i, Exists), [Event(j, Exists)] + ([Event(j, Unlink)] + ([Event(i, Open)] + [])), w1);
  }

  /**
   Loads can never raise for want of the file exactly when nobody loads, or nobody clears, or there is no file at the
   start and nobody saves one.
   */
  lemma LoadsNeverRaiseExactly(w0: World)
    requires Initial(w0)
    ensures LoadsNeverRaise(w0)
       <==> || Loading !in w0.processes || Clearing !in w0.processes
            || (w0.live.None? && forall i :: 0 <= i < |w0.processes| ==> !w0.processes[i].Saving?)
  {
    if Safe(w0) {
      forall schedule: seq<Event>, i: nat | Run(w0, schedule).Some? && i < |Run(w0, schedule).value.processes|
        ensures !HasRaised(Run(w0, schedule).value.processes[i])
      {
        SafeRun(w0, schedule, i);
      }
    }
    SafeAtTheStart(w0);
    if !Safe(w0) {
      RaisesFromStart(w0);
    }
  }

  lemma SafeAtTheStart(w0: World)
    requires Initial(w0)
    ensures Safe(w0)
       <==> || Loading !in w0.processes || Clearing !in w0.processes
            || (w0.live.None? && forall i :: 0 <= i < |w0.processes| ==> !w0.processes[i].Saving?)
  {
    assert forall i :: 0 <= i < |w0.processes| ==> Starting(w0.processes[i]) && w0.processes[i] in w0.processes;
  }

  lemma RaisesFromStart(w0: World)
    requires Initial(w0) && !Safe(w0)
    ensures !LoadsNeverRaise(w0)
  {
    SafeAtTheStart(w0);
    var i :| 0 <= i < |w0.processes| && w0.processes[i] == Loading;
    var j :| 0 <= j < |w0.processes| && w0.processes[j] == Clearing;
    if w0.live.Some? {
      var schedule := ClearInBetween(w0, i, j);
      assert HasRaised(Run(w0, schedule).value.processes[i]);
    } else {
      var s :| 0 <= s < |w0.processes| && w0.processes[s].Saving?;
      var first := SaveFirst(w0, s);
      var w1 := Run(w0, first).value;
      var second := ClearInBetween(w1, i, j);
      RunAppend(w0, first, second);
      assert HasRaised(Run(w0, first + second).value.processes[i]);
    }
  }
}
