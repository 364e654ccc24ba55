/** Whether a run stages its archive on disk or streams it, and when it may not start at all. */
module Staging {
  import opened Text

  datatype Mode = Stage | Stream | Auto

  datatype Cause = DirectoryFormat | ManyDestinations(count: int) | VerifyWithoutEgress

  datatype Reason =
    | Imposed(cause: Cause)
    | AsksForStream
    | AsksForStage
    | NoRoom(free: int, needed: int)
    | Room(free: int, needed: int)

  /** An empty mode in the configuration is None. */
  datatype Inputs = Inputs(
    configured: Option<Mode>, directoryDump: bool, destinations: int,
    structuralVerifyWithoutEgress: bool, freeBytes: int, expectedBytes: int)

  datatype Decision = Decision(mode: Mode, reason: Reason, forced: bool)

  datatype Outcome = Decided(decision: Decision) | NotEnoughSpace(cause: Cause, needed: int, free: int)

  function TruncateHalf(n: int): int {
    if n >= 0 then n / 2 else -(-n / 2)
  }

  /** The expected size with a margin of a half, in 64-bit arithmetic. */
  function Needed(expected: int): int {
    TruncateHalf(Wrap64(expected * 3))
  }

  function StageImposed(inputs: Inputs): Option<Cause> {
    if inputs.directoryDump then Some(DirectoryFormat)
    else if inputs.destinations > 1 then Some(ManyDestinations(inputs.destinations))
    else if inputs.structuralVerifyWithoutEgress then Some(VerifyWithoutEgress)
    else None
  }

  function DecideStaging(inputs: Inputs): Outcome {
    var needed := Needed(inputs.expectedBytes);
    var room := inputs.freeBytes >= needed;
    var imposed := StageImposed(inputs);
    if imposed.Some? then
      if !room then NotEnoughSpace(imposed.value, needed, inputs.freeBytes)
      else Decided(Decision(Stage, Imposed(imposed.value), true))
    else if inputs.configured == Some(Stream) then Decided(Decision(Stream, AsksForStream, false))
    else if !room then Decided(Decision(Stream, NoRoom(inputs.freeBytes, needed), false))
    else if inputs.configured == Some(Stage) then Decided(Decision(Stage, AsksForStage, false))
    else Decided(Decision(Stage, Room(inputs.freeBytes, needed), false))
  }

  function EstimateStored(previous: Option<int>, databaseBytes: int): int {
    if previous.Some? && previous.value > 0 then previous.value
    else if databaseBytes <= 0 then 0
    else databaseBytes / 8
  }

  /** Sizes the margin can be taken of without overflow. */
  predicate IsMeasurable(inputs: Inputs) {
    inputs.freeBytes >= 0 && 0 <= inputs.expectedBytes <= MAX_INT / 3
  }

  /** There is room for the archive and half as much again. */
  predicate HasRoom(inputs: Inputs) {
    2 * inputs.freeBytes + 1 >= 3 * inputs.expectedBytes
  }

  /** What the operator may not override. */
  predicate MustStage(inputs: Inputs) {
    inputs.directoryDump || inputs.destinations > 1 || inputs.structuralVerifyWithoutEgress
  }

  /**
   * The whole rule, without its arithmetic: refused exactly when staging is imposed and there is
   * no room, staged exactly when there is room and staging is imposed or streaming was not asked
   * for, forced exactly when imposed, and never the question `auto`.
   */
  lemma StagingIsDecided(inputs: Inputs)
    requires IsMeasurable(inputs)
    ensures DecideStaging(inputs).NotEnoughSpace? <==> MustStage(inputs) && !HasRoom(inputs)
    ensures DecideStaging(inputs).Decided? ==>
              var decision := DecideStaging(inputs).decision;
              && !decision.mode.Auto?
              && (decision.mode.Stage? <==> HasRoom(inputs) && (MustStage(inputs) || inputs.configured != Some(Stream)))
              && (decision.forced <==> MustStage(inputs))
  {
  }

  /** What a decision says of itself is so: the cause that comes first, or the room there was. */
  lemma ReasonsAreTrue(inputs: Inputs)
    requires IsMeasurable(inputs)
    ensures match DecideStaging(inputs)
            case NotEnoughSpace(cause, needed, free) => IsCause(inputs, cause) && free == inputs.freeBytes < needed
            case Decided(Decision(mode, reason, _)) =>
              match reason
              case Imposed(cause) => IsCause(inputs, cause)
              case AsksForStream => inputs.configured == Some(Stream) && mode.Stream?
              case AsksForStage => inputs.configured == Some(Stage) && mode.Stage?
              case NoRoom(free, needed) => mode.Stream? && !HasRoom(inputs) && free == inputs.freeBytes < needed
              case Room(free, needed) => mode.Stage? && HasRoom(inputs) && free == inputs.freeBytes >= needed
  {
  }

  /** A directory format comes before many destinations, and those before a verification without egress. */
  predicate IsCause(inputs: Inputs, cause: Cause) {
    match cause
    case DirectoryFormat => inputs.directoryDump
    case ManyDestinations(count) => !inputs.directoryDump && count == inputs.destinations > 1
    case VerifyWithoutEgress =>
      !inputs.directoryDump && inputs.destinations <= 1 && inputs.structuralVerifyWithoutEgress
  }

  /** A stream goes to one destination or none, so the count `stream` checks can only be zero. */
  lemma StreamsHaveOneDestination(inputs: Inputs)
    requires DecideStaging(inputs).Decided? && DecideStaging(inputs).decision.mode.Stream?
    ensures inputs.destinations <= 1 && !inputs.directoryDump && !inputs.structuralVerifyWithoutEgress
  {
  }

  /** More free space never turns staging into streaming, nor a decision into a refusal. */
  lemma MoreRoomNeverHurts(inputs: Inputs, free: int)
    requires inputs.freeBytes <= free
    ensures DecideStaging(inputs).Decided? ==> DecideStaging(inputs.(freeBytes := free)).Decided?
    ensures DecideStaging(inputs).Decided? && DecideStaging(inputs).decision.mode.Stage? ==>
              DecideStaging(inputs.(freeBytes := free)).decision.mode.Stage?
  {
  }

  /**
   * The bound on the expected size is where the margin stops being one: one byte more and the
   * product overflows, so that any disk with nothing free has "room" for it.
   */
  lemma TheMarginOverflowsExactlyThere(expected: int)
    requires 0 <= expected <= MAX_INT
    ensures Needed(expected) == expected * 3 / 2 <==> expected <= MAX_INT / 3
  {
    var product := expected * 3;
    if expected > MAX_INT / 3 {
      assert product > MAX_INT;
    }
  }

  /** Above the bound the check of the room is wrong exactly in between: too little room, and not far too little. */
  lemma RoomIsJudgedRightIff(inputs: Inputs)
    requires 0 <= inputs.freeBytes <= MAX_INT && 0 <= inputs.expectedBytes <= MAX_INT
    ensures (inputs.freeBytes >= Needed(inputs.expectedBytes) <==> HasRoom(inputs)) <==>
              || inputs.expectedBytes <= MAX_INT / 3
              || HasRoom(inputs)
              || 2 * inputs.freeBytes + 1 < 3 * inputs.expectedBytes - 0x1_0000_0000_0000_0000
  {
    var product := inputs.expectedBytes * 3;
    assert product > MAX_INT ==> Wrap64(product) == product - 0x1_0000_0000_0000_0000;
  }

  lemma AnEmptyDiskHasRoom()
    ensures DecideStaging(Inputs(None, true, 1, false, 0, MAX_INT / 3 + 1)).Decided?
  {
  }

  /** With no history the estimate is an eighth of the database, and always within the bound. */
  lemma EstimatesAreMeasurable(previous: Option<int>, databaseBytes: int)
    requires databaseBytes <= MAX_INT
    requires previous.Some? ==> previous.value <= MAX_INT / 3
    ensures 0 <= EstimateStored(previous, databaseBytes) <= MAX_INT / 3
    ensures previous.Some? && previous.value > 0 ==> EstimateStored(previous, databaseBytes) == previous.value
    ensures !(previous.Some? && previous.value > 0) && databaseBytes > 0 ==>
              databaseBytes - 8 < 8 * EstimateStored(previous, databaseBytes) <= databaseBytes
  {
  }
}
