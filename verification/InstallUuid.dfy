/**
 `get_install_uuid` as a protocol: any number of callers (threads or processes) race through the exists check, the
 exclusive create, the write and the polling loop over one shared file, and any of them may fail or die at any point.

 Every system call that touches the file is one step of the relation below, so "created but still empty" is a state
 other callers can observe. A schedule is a sequence of (caller, action) pairs; all theorems are about every schedule
 from every initial file.
 */
module InstallUuid {
  import opened Wrappers
  import opened Text

  // ---------------------------------------------------------------------------------------------
  // Text
  // ---------------------------------------------------------------------------------------------

  /** The shape of `str(uuid.uuid4())`: 36 hexadecimal digits and dashes. */
  predicate IsUuidText(s: string)
  {
    |s| == 36 && forall i :: 0 <= i < |s| ==> s[i] == '-' || '0' <= s[i] <= '9' || 'a' <= s[i] <= 'f'
  }

  /** Every text of that length over these characters has the shape. */
  lemma UuidShape(s: string)
    ensures IsUuidText(s) <==> |s| == 36 && forall i :: 0 <= i < |s| ==> s[i] in "0123456789abcdef-"
  {
    assert forall c: char :: '0' <= c <= '9' <==> c in "0123456789";
    assert forall c: char :: 'a' <= c <= 'f' <==> c in "abcdef";
    assert "0123456789abcdef-" == "0123456789" + "abcdef" + "-";
  }

  lemma UuidTextIsStripped(s: string)
    requires IsUuidText(s)
    ensures Strip(s) == s != ""
  {
    assert !IsSpace(s[0]) && !IsSpace(s[|s| - 1]);
  }

  // ---------------------------------------------------------------------------------------------
  // The shared file and the callers
  // ---------------------------------------------------------------------------------------------

  datatype File = Absent | Present(content: string)

  /** What one `read_text().strip()` yields: nothing while the file is missing or blank. */
  function ReadOutcome(file: File): Option<string>
  {
    if file.Present? && Strip(file.content) != "" then Some(Strip(file.content)) else None
  }

  /** Where a caller stands in `get_install_uuid`. */
  datatype Pc =
    | Start
    | Creating(minted: string)   // saw no file, has generated a UUID, about to open with O_EXCL
    | Writing(minted: string)    // its exclusive create succeeded, content not written yet
    | Flushing(minted: string)   // content written, not yet returned
    | Polling                   // the file exists: waiting for content
    | Returned(uuid: string)
    | Raised
    | Crashed

  predicate Finished(pc: Pc)
  {
    pc.Returned? || pc.Raised? || pc.Crashed?
  }

  datatype World = World(file: File, pcs: seq<Pc>)

  datatype Action =
    | SeeFile                    // uuid_file.exists() is true
    | SeeNoFile(minted: string)   // it is false; minted is the uuid4 the caller generates
    | OpenExclusive              // os.open(O_CREAT | O_EXCL): creates, or loses the race
    | Write                      // os.write of the whole UUID
    | Flush                      // fsync, close, return
    | Read                       // one poll
    | Timeout                    // the polling deadline has passed
    | Fail                       // any other exception: propagates to the caller's own caller
    | Crash                      // the process dies

  /** The step a caller takes, or None when the program does not allow it there. */
  function Advance(file: File, pc: Pc, a: Action): Option<(File, Pc)>
  {
    match (a, pc)
    case (SeeFile, Start) => if file.Present? then Some((file, Polling)) else None
    case (SeeNoFile(minted), Start) =>
      if file.Absent? && IsUuidText(minted) then Some((file, Creating(minted))) else None
    case (OpenExclusive, Creating(minted)) =>
      if file.Absent? then Some((Present(""), Writing(minted))) else Some((file, Polling))
    case (Write, Writing(minted)) => Some((Present(minted), Flushing(minted)))
    case (Flush, Flushing(minted)) => Some((file, Returned(minted)))
    case (Read, Polling) =>
      (match ReadOutcome(file) case Some(v) => Some((file, Returned(v))) case None => Some((file, Polling)))
    case (Timeout, Polling) => Some((file, Raised))
    case (Fail, _) => if Finished(pc) then None else Some((file, Raised))
    case (Crash, _) => if Finished(pc) then None else Some((file, Crashed))
    case _ => None
  }

  function Step(w: World, i: nat, a: Action): Option<World>
  {
    if i >= |w.pcs| then None
    else match Advance(w.file, w.pcs[i], a)
      case None => None
      case Some((file, pc)) => Some(World(file, w.pcs[i := pc]))
  }

  datatype Event = Event(caller: nat, action: Action)

  type Schedule = seq<Event>

  function Run(w: World, schedule: Schedule): Option<World>
    decreases |schedule|
  {
    if schedule == [] then Some(w)
    else match Step(w, schedule[0].caller, schedule[0].action)
      case None => None
      case Some(next) => Run(next, schedule[1..])
  }

  /** Wherever a caller stands, it may fail or die, unless it is finished; the file stays as it is. */
  lemma FailAndCrash(file: File, pc: Pc)
    ensures pc.Returned? || pc == Raised || pc == Crashed ==>
              Advance(file, pc, Fail) == None && Advance(file, pc, Crash) == None
    ensures !pc.Returned? && pc != Raised && pc != Crashed ==>
              Advance(file, pc, Fail) == Some((file, Raised)) && Advance(file, pc, Crash) == Some((file, Crashed))
  {}

  /** Nobody has started yet. The file is whatever an earlier life of the install left there. */
  predicate Initial(w: World)
  {
    forall i :: 0 <= i < |w.pcs| ==> w.pcs[i].Start?
  }

  // ---------------------------------------------------------------------------------------------
  // The inductive invariant
  // ---------------------------------------------------------------------------------------------

  /** What each caller's position says about the shared file. */
  predicate Agrees(file: File, pc: Pc)
  {
    match pc
    case Creating(minted) => IsUuidText(minted)
    case Writing(minted) => IsUuidText(minted) && file == Present("")
    case Flushing(minted) => IsUuidText(minted) && file == Present(minted)
    case Polling => file.Present?
    case Returned(v) => ReadOutcome(file) == Some(v)
    case _ => true
  }

  predicate Inv(w: World)
  {
    && (forall i :: 0 <= i < |w.pcs| ==> Agrees(w.file, w.pcs[i]))
    && (forall i, j :: 0 <= i < |w.pcs| && 0 <= j < |w.pcs| && w.pcs[i].Writing? && w.pcs[j].Writing? ==> i == j)
  }

  lemma BlankText()
    ensures Strip("") == ""
  {}

  lemma StepKeepsInv(w: World, i: nat, a: Action)
    requires Inv(w) && Step(w, i, a).Some?
    ensures Inv(Step(w, i, a).value)
  {
    var next := Step(w, i, a).value;
    match w.pcs[i]
    case Writing(minted) =>
      UuidTextIsStripped(minted);
      forall j | 0 <= j < |w.pcs| && j != i ensures Agrees(next.file, next.pcs[j]) {
        BlankText();
        assert Agrees(w.file, w.pcs[j]);
      }
    case Flushing(minted) =>
      UuidTextIsStripped(minted);
    case Creating(minted) =>
      forall j | 0 <= j < |w.pcs| ensures Agrees(next.file, next.pcs[j]) {
        assert Agrees(w.file, w.pcs[j]);
      }
    case _ =>
  }

  lemma {:induction false} RunKeepsInv(w: World, schedule: Schedule)
    requires Inv(w) && Run(w, schedule).Some?
    ensures Inv(Run(w, schedule).value) && |Run(w, schedule).value.pcs| == |w.pcs|
    decreases |schedule|
  {
    if schedule != [] {
      StepKeepsInv(w, schedule[0].caller, schedule[0].action);
      RunKeepsInv(Step(w, schedule[0].caller, schedule[0].action).value, schedule[1..]);
    }
  }

  // ---------------------------------------------------------------------------------------------
  // Safety over every schedule
  // ---------------------------------------------------------------------------------------------

  /** All callers that return a value return the same one: the text that is in the file. */
  lemma CallersAgree(w0: World, schedule: Schedule, i: nat, j: nat)
    requires Initial(w0) && Run(w0, schedule).Some?
    requires i < |w0.pcs| && j < |w0.pcs|
    ensures var w := Run(w0, schedule).value;
            && |w.pcs| == |w0.pcs|
            && (w.pcs[i].Returned? ==> ReadOutcome(w.file) == Some(w.pcs[i].uuid) && w.pcs[i].uuid != "")
            && (w.pcs[i].Returned? && w.pcs[j].Returned? ==> w.pcs[i].uuid == w.pcs[j].uuid)
  {
    RunKeepsInv(w0, schedule);
    var w := Run(w0, schedule).value;
    assert Agrees(w.file, w.pcs[i]) && Agrees(w.file, w.pcs[j]);
  }

  /** Once there is content, no schedule changes it: a later life of the install still reads the same UUID. */
  lemma {:induction false} ContentNeverChanges(w: World, schedule: Schedule)
    requires Inv(w) && Run(w, schedule).Some?
    requires ReadOutcome(w.file).Some?
    ensures Run(w, schedule).value.file == w.file
    decreases |schedule|
  {
    if schedule != [] {
      var Event(i, a) := schedule[0];
      BlankText();
      assert Agrees(w.file, w.pcs[i]);
      StepKeepsInv(w, i, a);
      ContentNeverChanges(Step(w, i, a).value, schedule[1..]);
    }
  }

  function Writes(schedule: Schedule): nat
    decreases |schedule|
  {
    if schedule == [] then 0 else (if schedule[0].action.Write? then 1 else 0) + Writes(schedule[1..])
  }

  predicate SomeoneWriting(w: World)
  {
    exists i :: 0 <= i < |w.pcs| && w.pcs[i].Writing?
  }

  /** The file is written at most once, and never when it already existed. */
  lemma WrittenAtMostOnce(w0: World, schedule: Schedule)
    requires Initial(w0) && Run(w0, schedule).Some?
    ensures forall j, k :: 0 <= j < k < |schedule| ==> !(schedule[j].action == Write && schedule[k].action == Write)
    ensures w0.file.Present? ==> Run(w0, schedule).value.file == w0.file
    ensures w0.file.Present? ==> forall k :: 0 <= k < |schedule| ==> schedule[k].action != Write
  {
    WritesLeft(w0, schedule);
    WritesMeaning(schedule);
  }

  lemma {:induction false} WritesMeaning(schedule: Schedule)
    ensures Writes(schedule) == 0 <==> forall k :: 0 <= k < |schedule| ==> schedule[k].action != Write
    ensures Writes(schedule) <= 1 ==>
              forall j, k :: 0 <= j < k < |schedule| ==> !(schedule[j].action == Write && schedule[k].action == Write)
    decreases |schedule|
  {
    if schedule != [] {
      var rest := schedule[1..];
      WritesMeaning(rest);
      assert forall k :: 1 <= k < |schedule| ==> schedule[k] == rest[k - 1];
    }
  }

  lemma {:induction false} WritesLeft(w: World, schedule: Schedule)
    requires Inv(w) && Run(w, schedule).Some?
    ensures Writes(schedule) <= if w.file.Absent? || SomeoneWriting(w) then 1 else 0
    ensures w.file.Present? && !SomeoneWriting(w) ==> Run(w, schedule).value.file == w.file
    decreases |schedule|
  {
    if schedule != [] {
      var Event(i, a) := schedule[0];
      var next := Step(w, i, a).value;
      StepKeepsInv(w, i, a);
      WritesLeft(next, schedule[1..]);
      assert Agrees(w.file, w.pcs[i]);
      if a.Write? {
        assert w.pcs[i].Writing?;
        assert !SomeoneWriting(next);
      } else if w.file.Present? && SomeoneWriting(next) {
        var j :| 0 <= j < |next.pcs| && next.pcs[j].Writing?;
        assert w.pcs[j].Writing?;
      }
    }
  }

  /**
   A file left blank by a caller that died between create and write (or blank from the start) is never filled in:
   whatever the schedule, no caller returns a value, and those that finish have raised (or died).
   */
  lemma BlankFileIsFatal(w: World, schedule: Schedule, i: nat)
    requires Inv(w) && Run(w, schedule).Some? && i < |w.pcs|
    requires w.file.Present? && ReadOutcome(w.file).None? && !SomeoneWriting(w)
    ensures var w' := Run(w, schedule).value;
            && w'.file == w.file && |w'.pcs| == |w.pcs|
            && !w'.pcs[i].Returned?
            && (Finished(w'.pcs[i]) ==> w'.pcs[i].Raised? || w'.pcs[i].Crashed?)
  {
    RunKeepsInv(w, schedule);
    WritesLeft(w, schedule);
    var w' := Run(w, schedule).value;
    assert Agrees(w'.file, w'.pcs[i]);
  }

  lemma RunStep(w: World, e: Event, rest: Schedule, file: File, pcs: seq<Pc>)
    requires e.caller < |w.pcs| && Advance(w.file, w.pcs[e.caller], e.action).Some?
    requires var (f, pc) := Advance(w.file, w.pcs[e.caller], e.action).value;
             f == file && w.pcs[e.caller := pc] == pcs
    ensures Run(w, [e] + rest) == Run(World(file, pcs), rest)
  {
    assert ([e] + rest)[1..] == rest;
  }

  /** Such a state is reached by one crash; every other caller then raises at its deadline. */
  lemma CrashBetweenCreateAndWrite(minted: string)
    requires IsUuidText(minted)
    ensures Run(World(Absent, [Start, Start]),
                [Event(0, SeeNoFile(minted))] + ([Event(0, OpenExclusive)] + ([Event(1, SeeFile)]
                + ([Event(0, Crash)] + ([Event(1, Read)] + ([Event(1, Timeout)] + []))))))
         == Some(World(Present(""), [Crashed, Raised]))
  {
    var s6: Schedule := [];
    var s5 := [Event(1, Timeout)] + s6;
    var s4 := [Event(1, Read)] + s5;
    var s3 := [Event(0, Crash)] + s4;
    var s2 := [Event(1, SeeFile)] + s3;
    var s1 := [Event(0, OpenExclusive)] + s2;
    RunStep(World(Absent, [Start, Start]), Event(0, SeeNoFile(minted)), s1, Absent, [Creating(minted), Start]);
    RunStep(World(Absent, [Creating(minted), Start]), Event(0, OpenExclusive), s2,
            Present(""), [Writing(minted), Start]);
    RunStep(World(Present(""), [Writing(minted), Start]), Event(1, SeeFile), s3,
            Present(""), [Writing(minted), Polling]);
    RunStep(World(Present(""), [Writing(minted), Polling]), Event(0, Crash), s4, Present(""), [Crashed, Polling]);
    RunStep(World(Present(""), [Crashed, Polling]), Event(1, Read), s5, Present(""), [Crashed, Polling]);
    RunStep(World(Present(""), [Crashed, Polling]), Event(1, Timeout), s6, Present(""), [Crashed, Raised]);
  }

  // ---------------------------------------------------------------------------------------------
  // Progress
  // ---------------------------------------------------------------------------------------------

  /** The actions by which caller i finishes when it is scheduled alone from here. */
  function Alone(w: World, i: nat, minted: string): Schedule
    requires i < |w.pcs|
  {
    var poll := if ReadOutcome(w.file).Some? then [Event(i, Read)] else [Event(i, Timeout)];
    var write := [Event(i, Write)] + [Event(i, Flush)];
    match w.pcs[i]
    case Start =>
      if w.file.Present? then [Event(i, SeeFile)] + poll
      else [Event(i, SeeNoFile(minted))] + ([Event(i, OpenExclusive)] + write)
    case Creating(_) => [Event(i, OpenExclusive)] + (if w.file.Present? then poll else write)
    case Writing(_) => write
    case Flushing(_) => [Event(i, Flush)]
    case Polling => poll
    case _ => []
  }

  /**
   From every reachable state every unfinished caller can finish on its own in at most four steps, and it returns a
   value exactly when the file has content, is its own to write, or does not exist yet: callers never block each other.
   */
  lemma {:induction false} EveryCallerCanFinish(w: World, i: nat, minted: string)
    requires Inv(w) && i < |w.pcs| && !Finished(w.pcs[i]) && IsUuidText(minted)
    ensures |Alone(w, i, minted)| <= 4
    ensures Run(w, Alone(w, i, minted)).Some?
    ensures var w' := Run(w, Alone(w, i, minted)).value;
            && |w'.pcs| == |w.pcs| && Finished(w'.pcs[i])
            && (w'.pcs[i].Returned? <==> ReadOutcome(w.file).Some? || w.file.Absent? || w.pcs[i].Writing?)
    decreases match w.pcs[i] case Start => 3 case Creating(_) => 2 case Writing(_) => 1 case _ => 0
  {
    assert Agrees(w.file, w.pcs[i]);
    BlankText();
    var s := Alone(w, i, minted);
    var next := Step(w, i, s[0].action).value;
    StepKeepsInv(w, i, s[0].action);
    if w.pcs[i].Flushing? || w.pcs[i].Polling? {
      if w.pcs[i].Flushing? { UuidTextIsStripped(w.pcs[i].minted); }
      assert s == [s[0]] + [];
      RunStep(w, s[0], [], next.file, next.pcs);
    } else {
      if w.pcs[i].Writing? { UuidTextIsStripped(w.pcs[i].minted); }
      EveryCallerCanFinish(next, i, minted);
      assert s == [s[0]] + Alone(next, i, minted);
      RunStep(w, s[0], Alone(next, i, minted), next.file, next.pcs);
    }
  }

  // ---------------------------------------------------------------------------------------------
  // The polling loop
  // ---------------------------------------------------------------------------------------------

  /** One turn of the loop: the monotonic clock at the loop test, and the file the read would see then. */
  datatype Observation = Observation(now: int, file: File)

  datatype AwaitResult = Settled(uuid: string) | TimedOut | StillPolling

  /** The loop reaches turn k: every earlier turn was before the deadline and saw nothing. */
  predicate ReachesTurn(obs: seq<Observation>, started: int, timeout: int, k: int)
  {
    0 <= k < |obs| && forall j :: 0 <= j < k ==> obs[j].now < started + timeout && ReadOutcome(obs[j].file).None?
  }

  predicate SettlesAt(obs: seq<Observation>, started: int, timeout: int, k: int)
  {
    ReachesTurn(obs, started, timeout, k) && obs[k].now < started + timeout && ReadOutcome(obs[k].file).Some?
  }

  predicate ExpiresAt(obs: seq<Observation>, started: int, timeout: int, k: int)
  {
    ReachesTurn(obs, started, timeout, k) && obs[k].now >= started + timeout
  }

  /**
   `_await_uuid_content` against any sequence of observations. The first non-blank content seen before the deadline
   is returned; None only when the deadline is reached first; a blank or missing file is never an answer.
   */
  method AwaitUuidContent(started: int, timeout: int, obs: seq<Observation>) returns (r: AwaitResult)
    ensures r.Settled? <==> exists k :: SettlesAt(obs, started, timeout, k)
    ensures forall k :: SettlesAt(obs, started, timeout, k) ==> r == Settled(ReadOutcome(obs[k].file).value)
    ensures r.TimedOut? <==> exists k :: ExpiresAt(obs, started, timeout, k)
  {
    var deadline := started + timeout;
    var turn := 0;
    while turn < |obs| && obs[turn].now < deadline
      invariant 0 <= turn <= |obs|
      invariant forall j :: 0 <= j < turn ==> obs[j].now < deadline && ReadOutcome(obs[j].file).None?
    {
      var value := ReadOutcome(obs[turn].file);
      if value.Some? {
        assert SettlesAt(obs, started, timeout, turn);
        return Settled(value.value);
      }
      turn := turn + 1;
    }
    if turn < |obs| {
      assert ExpiresAt(obs, started, timeout, turn);
      r := TimedOut;
    } else {
      r := StillPolling;
    }
  }
}
