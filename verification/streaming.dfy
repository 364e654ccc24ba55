/**
 * Stream mode: one goroutine packs into a pipe while the store reads from it. The pipe is
 * synchronous, so a write waits until its bytes are read or the reader is closed.
 */
module Streaming {
  import opened Text
  import opened Dumps

  datatype Packer = Packing | Returned(ok: bool)
  datatype Storing = Reading | Finishing | Stored(ok: bool)

  /**
   * Where both parties are. `todo` is what Pack has still to write and `sound` whether it ends
   * without an error of its own: any dump, any failure is one such script.
   */
  datatype State = State(
    todo: seq<Bytes>, sound: bool,
    emitted: Bytes, offered: Option<Bytes>, refused: bool,
    packer: Packer, writerClosed: Option<bool>, reported: bool,
    store: Storing, got: Bytes, published: Option<Bytes>,
    readerClosed: bool, received: bool)

  datatype Action =
    | PackWrites          // Pack offers its next bytes to the pipe
    | PackIsRefused       // a write that finds, or waits until, the reader is closed fails
    | PackReturns
    | WriterCloses        // with the error of Pack, or none
    | PackReports         // both results go into channels with room for them
    | StoreReads(n: nat)
    | StoreSeesEnd
    | StoreSeesError
    | StoreFails          // a disk, a network: an error of the store's own, at any time
    | StorePublishes
    | StoreStumbles       // it publishes all the same, and then reports an error
    | ReaderCloses
    | RunReceives         // both channel receives

  function Init(script: seq<Bytes>, sound: bool): State {
    State(script, sound, "", None, false, Packing, None, false, Reading, "", None, false, false)
  }

  function Next(s: State, a: Action): Option<State> {
    match a
    case PackWrites =>
      if s.packer.Packing? && s.offered.None? && s.todo != [] && !s.readerClosed then
        Some(s.(todo := s.todo[1..], offered := Some(s.todo[0]), emitted := s.emitted + s.todo[0]))
      else None
    case PackIsRefused =>
      if !s.packer.Packing? || !s.readerClosed then None
      else if s.offered.Some? then Some(s.(offered := None, refused := true))
      else if s.todo != [] then Some(s.(todo := s.todo[1..], refused := true))
      else None
    case PackReturns =>
      if s.packer.Packing? && s.offered.None? && (s.todo == [] || s.refused) then
        Some(s.(packer := Returned(s.sound && !s.refused)))
      else None
    case WriterCloses =>
      if s.packer.Returned? && s.writerClosed.None? then Some(s.(writerClosed := Some(s.packer.ok))) else None
    case PackReports =>
      if s.writerClosed.Some? && !s.reported then Some(s.(reported := true)) else None
    case StoreReads(n) =>
      if s.store.Reading? && s.offered.Some? && n <= |s.offered.value| && (n == 0 ==> s.offered.value == "") then
        var rest := s.offered.value[n..];
        Some(s.(got := s.got + s.offered.value[..n], offered := if rest == "" then None else Some(rest)))
      else None
    case StoreSeesEnd =>
      if s.store.Reading? && s.writerClosed == Some(true) then Some(s.(store := Finishing)) else None
    case StoreSeesError =>
      if s.store.Reading? && s.writerClosed == Some(false) then Some(s.(store := Stored(false))) else None
    case StoreFails =>
      if !s.store.Stored? then Some(s.(store := Stored(false))) else None
    case StorePublishes =>
      if s.store.Finishing? then Some(s.(store := Stored(true), published := Some(s.got))) else None
    case StoreStumbles =>
      if s.store.Finishing? then Some(s.(store := Stored(false), published := Some(s.got))) else None
    case ReaderCloses =>
      if s.store.Stored? && !s.readerClosed then Some(s.(readerClosed := true)) else None
    case RunReceives =>
      if s.readerClosed && s.reported && !s.received then Some(s.(received := true)) else None
  }

  /** The states a schedule leads to; a schedule that asks for what cannot happen leads nowhere. */
  function After(s: State, schedule: seq<Action>): Option<State> {
    if schedule == [] then Some(s)
    else
      var earlier :- After(s, schedule[..|schedule| - 1]);
      Next(earlier, schedule[|schedule| - 1])
  }

  function Waiting(s: State): Bytes {
    if s.offered.Some? then s.offered.value else ""
  }

  // ------------------------------------------------------------------ what every state keeps

  ghost predicate Inv(s: State, all: Bytes) {
    && (!s.refused ==> s.emitted + Joined(s.todo) == all && s.emitted == s.got + Waiting(s))
    && (s.refused ==> s.readerClosed)
    && (s.readerClosed ==> s.store.Stored?)
    && (s.packer.Returned? ==> s.offered.None?)
    && (s.packer.Returned? && s.packer.ok ==> s.sound && !s.refused && s.todo == [])
    && (s.writerClosed.Some? ==> s.packer == Returned(s.writerClosed.value))
    && (s.reported ==> s.writerClosed.Some?)
    && (s.store.Finishing? ==> s.writerClosed == Some(true))
    && (s.store == Stored(true) ==> s.published.Some?)
    && (s.published.Some? ==> s.store.Stored?)
    && (s.published.Some? ==> s.writerClosed == Some(true) && s.published.value == s.got == all)
    && (s.received ==> s.readerClosed && s.reported)
  }

  lemma InitKeepsInv(script: seq<Bytes>, sound: bool)
    ensures Inv(Init(script, sound), Joined(script))
  {
  }

  lemma NextKeepsInv(s: State, a: Action, all: Bytes)
    requires Inv(s, all) && Next(s, a).Some?
    ensures Inv(Next(s, a).value, all)
  {
    match a
    case PackWrites =>
      var c := s.todo[0];
      assert s.emitted + (c + Joined(s.todo[1..])) == (s.emitted + c) + Joined(s.todo[1..]);
    case StoreReads(n) =>
      var c := s.offered.value;
      assert s.got + c == (s.got + c[..n]) + c[n..];
    case StorePublishes =>
      assert s.emitted + "" == all;
    case StoreStumbles =>
      assert s.emitted + "" == all;
    case _ =>
  }

  // ------------------------------------------------------------------ it ends

  function Work(todo: seq<Bytes>): nat {
    if todo == [] then 0 else |todo[0]| + 3 + Work(todo[1..])
  }

  function PipeWork(todo: seq<Bytes>, offered: Option<Bytes>): nat {
    Work(todo) + if offered.Some? then |offered.value| + 1 else 0
  }

  function PackerWork(packer: Packer, writerClosed: Option<bool>, reported: bool): nat {
    (if packer.Packing? then 1 else 0) + (if writerClosed.None? then 1 else 0) + (if reported then 0 else 1)
  }

  function StoreWork(store: Storing, readerClosed: bool, received: bool): nat {
    (match store case Reading => 2 case Finishing => 1 case Stored(_) => 0)
    + (if readerClosed then 0 else 1) + (if received then 0 else 1)
  }

  /** An upper bound on the steps that are left. */
  function Measure(s: State): nat {
    PipeWork(s.todo, s.offered)
    + PackerWork(s.packer, s.writerClosed, s.reported)
    + StoreWork(s.store, s.readerClosed, s.received)
  }

  lemma WorkOfFirst(todo: seq<Bytes>)
    requires todo != []
    ensures Work(todo) == |todo[0]| + 3 + Work(todo[1..])
  {
  }

  lemma EveryStepIsProgress(s: State, a: Action)
    requires Next(s, a).Some?
    ensures Measure(Next(s, a).value) < Measure(s)
  {
    hide Work;
    if a.PackWrites? || a.PackIsRefused? {
      hide PackerWork, StoreWork;
      if s.todo != [] {
        WorkOfFirst(s.todo);
      }
    } else if a.StoreReads? {
      hide PackerWork, StoreWork;
      assert |s.offered.value[a.n..]| == |s.offered.value| - a.n;
    } else if a.PackReturns? || a.WriterCloses? || a.PackReports? {
      hide PipeWork, StoreWork;
    } else {
      hide PipeWork, PackerWork;
    }
  }

  /**
   * No state but the last is stuck, even if the store never fails: whoever waits, waits for
   * someone who can move.
   */
  lemma SomeoneCanMove(s: State, all: Bytes) returns (a: Action)
    requires Inv(s, all) && !s.received
    ensures Next(s, a).Some? && !a.StoreFails? && !a.StoreStumbles?
  {
    if s.packer.Packing? && s.readerClosed && (s.offered.Some? || (s.todo != [] && !s.refused)) {
      a := PackIsRefused;
    } else if s.packer.Packing? && s.offered.None? && (s.todo == [] || s.refused) {
      a := PackReturns;
    } else if s.packer.Packing? && s.offered.None? && !s.readerClosed {
      a := PackWrites;
    } else if s.packer.Returned? && s.writerClosed.None? {
      a := WriterCloses;
    } else if s.writerClosed.Some? && !s.reported {
      a := PackReports;
    } else if s.store.Stored? {
      a := if s.readerClosed then RunReceives else ReaderCloses;
    } else if s.store.Finishing? {
      a := StorePublishes;
    } else if s.offered.Some? {
      a := StoreReads(|s.offered.value|);
    } else {
      a := if s.writerClosed.value then StoreSeesEnd else StoreSeesError;
    }
  }

  // ------------------------------------------------------------------ what it delivers

  /**
   * What a stream comes to: a store that reports success published what it consumed, and Pack
   * succeeded; a Pack that fails publishes nothing; and whatever is published is exactly the bytes
   * Pack emitted.
   */
  predicate Delivers(packOk: bool, storeOk: bool, published: Option<Bytes>, all: Bytes) {
    && (storeOk ==> packOk && published.Some?)
    && (!packOk ==> published.None?)
    && (published.Some? ==> published.value == all)
  }

  /** A store that reports an error published nothing: so does one that renames last. */
  lemma {:induction false} HonestStoresPublishOnSuccess(script: seq<Bytes>, sound: bool, schedule: seq<Action>)
    requires After(Init(script, sound), schedule).Some? && StoreStumbles !in schedule
    ensures var s := After(Init(script, sound), schedule).value;
      s.published.Some? <==> s.store == Stored(true)
  {
    if schedule != [] {
      var earlier, a := schedule[..|schedule| - 1], schedule[|schedule| - 1];
      assert schedule == earlier + [a];
      hide Next, Inv, Measure;
      HonestStoresPublishOnSuccess(script, sound, earlier);
      EveryScheduleKeepsInv(script, sound, earlier);
      HonestStep(After(Init(script, sound), earlier).value, a, Joined(script));
    }
  }

  lemma HonestStep(s: State, a: Action, all: Bytes)
    requires Inv(s, all) && Next(s, a).Some? && !a.StoreStumbles?
    requires s.published.Some? <==> s.store == Stored(true)
    ensures Next(s, a).value.published.Some? <==> Next(s, a).value.store == Stored(true)
  {
    hide Joined;
  }

  lemma {:induction false} EveryScheduleKeepsInv(script: seq<Bytes>, sound: bool, schedule: seq<Action>)
    requires After(Init(script, sound), schedule).Some?
    ensures Inv(After(Init(script, sound), schedule).value, Joined(script))
    ensures Measure(After(Init(script, sound), schedule).value) + |schedule| <= Measure(Init(script, sound))
  {
    if schedule == [] {
      InitKeepsInv(script, sound);
    } else {
      var earlier := schedule[..|schedule| - 1];
      EveryScheduleKeepsInv(script, sound, earlier);
      var s := After(Init(script, sound), earlier).value;
      NextKeepsInv(s, schedule[|schedule| - 1], Joined(script));
      EveryStepIsProgress(s, schedule[|schedule| - 1]);
    }
  }

  lemma InvDelivers(s: State, all: Bytes)
    requires Inv(s, all) && s.received
    ensures s.packer.Returned? && s.store.Stored?
    ensures Delivers(s.packer.ok, s.store.ok, s.published, all)
    ensures s.packer.ok ==> s.sound && s.emitted == all
  {
    if s.packer.ok {
      assert s.emitted + "" == all;
    }
  }

  /** Both channel receives complete: no schedule outlasts the measure, and none stops before them. */
  lemma StreamingEnds(script: seq<Bytes>, sound: bool, schedule: seq<Action>)
    requires After(Init(script, sound), schedule).Some?
    ensures |schedule| <= Measure(Init(script, sound))
    ensures !After(Init(script, sound), schedule).value.received ==>
              exists a ::
                Next(After(Init(script, sound), schedule).value, a).Some? && !a.StoreFails? && !a.StoreStumbles?
  {
    hide Measure, Inv;
    EveryScheduleKeepsInv(script, sound, schedule);
    var s := After(Init(script, sound), schedule).value;
    if !s.received {
      var a := SomeoneCanMove(s, Joined(script));
      assert Next(s, a).Some?;
    }
  }

  /** Whatever the dump, the failures and the interleaving, once both results are in they deliver. */
  lemma StreamingDelivers(script: seq<Bytes>, sound: bool, schedule: seq<Action>, s: State)
    requires After(Init(script, sound), schedule) == Some(s) && s.received
    ensures s.packer.Returned? && s.store.Stored?
    ensures Delivers(s.packer.ok, s.store.ok, s.published, Joined(script))
    ensures s.packer.ok ==> sound && s.emitted == Joined(script)
    ensures StoreStumbles !in schedule ==> (s.published.Some? <==> s.store.ok)
  {
    hide Measure, Inv, Next;
    if StoreStumbles !in schedule {
      HonestStoresPublishOnSuccess(script, sound, schedule);
    }
    EveryScheduleKeepsInv(script, sound, schedule);
    InvDelivers(s, Joined(script));
    SoundnessStays(Init(script, sound), schedule);
  }

  lemma NextKeepsSound(s: State, a: Action)
    requires Next(s, a).Some?
    ensures Next(s, a).value.sound == s.sound
  {
    match a {
      case PackWrites =>
      case PackIsRefused =>
      case StoreReads(n) =>
      case _ =>
    }
  }

  lemma {:induction false} SoundnessStays(s: State, schedule: seq<Action>)
    requires After(s, schedule).Some?
    ensures After(s, schedule).value.sound == s.sound
  {
    if schedule != [] {
      hide Next;
      var earlier := schedule[..|schedule| - 1];
      SoundnessStays(s, earlier);
      NextKeepsSound(After(s, earlier).value, schedule[|schedule| - 1]);
    }
  }

  /** Success is within reach: with no failure, reading at its own pace, the store publishes it all. */
  lemma {:induction false} SuccessIsReachable(script: seq<Bytes>) returns (schedule: seq<Action>)
    ensures After(Init(script, true), schedule).Some?
    ensures After(Init(script, true), schedule).value.published == Some(Joined(script))
  {
    schedule := ReadFirst(script, |script|);
    assert script[|script|..] == [];
    schedule := Extend(Init(script, true), schedule, PackReturns);
    schedule := Extend(Init(script, true), schedule, WriterCloses);
    schedule := Extend(Init(script, true), schedule, StoreSeesEnd);
    schedule := Extend(Init(script, true), schedule, StorePublishes);
    EveryScheduleKeepsInv(script, true, schedule);
  }

  lemma Extend(s: State, schedule: seq<Action>, a: Action) returns (longer: seq<Action>)
    requires After(s, schedule).Some? && Next(After(s, schedule).value, a).Some?
    ensures longer == schedule + [a] && After(s, longer) == Next(After(s, schedule).value, a)
  {
    longer := schedule + [a];
    assert longer[..|schedule|] == schedule;
  }

  function Front(script: seq<Bytes>, n: nat): Bytes
    requires n <= |script|
  {
    if n == 0 then "" else Front(script, n - 1) + script[n - 1]
  }

  lemma {:induction false} ReadFirst(script: seq<Bytes>, n: nat) returns (schedule: seq<Action>)
    requires n <= |script|
    ensures After(Init(script, true), schedule).Some?
    ensures After(Init(script, true), schedule).value
         == Init(script[n..], true).(emitted := Front(script, n), got := Front(script, n))
  {
    if n == 0 {
      schedule := [];
      assert script[0..] == script;
    } else {
      schedule := ReadFirst(script, n - 1);
      assert script[n - 1..][1..] == script[n..];
      schedule := Extend(Init(script, true), schedule, PackWrites);
      schedule := Extend(Init(script, true), schedule, StoreReads(|script[n - 1]|));
    }
  }
}
