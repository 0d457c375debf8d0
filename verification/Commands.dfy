/** Commands and acknowledgements as they travel between control centre and rover. */
module Commands {
  import opened Options

  datatype CmdId = CmdId(text: string)

  /** The command names the control centre knows, and any other name. */
  datatype CmdType =
    | NavGoal | Arm | Disarm | SetMode | Estop | CancelGoal | SetParam | Drive | Record | RegisterMode | UnregisterMode
    | Other(name: string)

  const CMD_NAV_GOAL := 1
  const CMD_ARM := 2
  const CMD_DISARM := 3
  const CMD_SET_MODE := 4
  const CMD_ESTOP := 5
  const CMD_CANCEL_GOAL := 6
  const CMD_SET_PARAM := 7
  const CMD_DRIVE := 8
  const CMD_RECORD := 9
  const CMD_REGISTER_MODE := 10
  const CMD_UNREGISTER_MODE := 11

  /** The number a name is sent as; unknown names are sent as zero. */
  function TypeCode(t: CmdType): int {
    match t
    case NavGoal => CMD_NAV_GOAL
    case Arm => CMD_ARM
    case Disarm => CMD_DISARM
    case SetMode => CMD_SET_MODE
    case Estop => CMD_ESTOP
    case CancelGoal => CMD_CANCEL_GOAL
    case SetParam => CMD_SET_PARAM
    case Drive => CMD_DRIVE
    case Record => CMD_RECORD
    case RegisterMode => CMD_REGISTER_MODE
    case UnregisterMode => CMD_UNREGISTER_MODE
    case Other(_) => 0
  }

  datatype Target = Target(latitude: real, longitude: real, altitude: real, yawDeg: real)

  datatype Motion = Motion(speed: real, steering: real)

  /** The optional parts of a command message. */
  datatype Body = Body(
    navGoal: Option<Target>, setMode: Option<string>, drive: Option<Motion>, record: Option<string>,
    registerMode: Option<string>, unregisterMode: Option<string>)

  const NO_PARTS := Body(None, None, None, None, None, None)

  datatype Command = Command(id: CmdId, code: int, body: Body)

  const ACK_RECEIVED := 0
  const ACK_ACCEPTED := 1
  const ACK_REJECTED := 2
  const ACK_COMPLETED := 3
  const ACK_FAILED := 4

  datatype Ack = Ack(id: CmdId, code: int, status: int)

  /** Status names in the control centre's history. */
  datatype Status = Sent | AckReceived | AckAccepted | AckRejected | AckCompleted | AckFailed | Unknown(status: int)

  function AckStatusName(status: int): Status {
    match status
    case 0 => AckReceived
    case 1 => AckAccepted
    case 2 => AckRejected
    case 3 => AckCompleted
    case 4 => AckFailed
    case _ => Unknown(status)
  }

  /** The tracker's test for the last acknowledgement of a command. */
  predicate IsTerminal(t: CmdType, s: Status) {
    s.AckRejected? || s.AckCompleted? || s.AckFailed? || (s.AckAccepted? && !t.NavGoal? && !t.CancelGoal?)
  }

  /** The commands whose handler acknowledges twice: once when the action is accepted and once at its end. */
  predicate TwoStage(code: int) {
    code == CMD_NAV_GOAL || code == CMD_CANCEL_GOAL
  }

  /** The status the rover's handler for this code ends with. */
  predicate IsFinal(code: int, status: int) {
    status == ACK_REJECTED || status == ACK_COMPLETED || status == ACK_FAILED
    || (status == ACK_ACCEPTED && !TwoStage(code))
  }

  /** Control centre and rover agree on which acknowledgement is the last one, for every command name and status. */
  lemma TerminalIsFinal(t: CmdType, status: int)
    ensures IsTerminal(t, AckStatusName(status)) <==> IsFinal(TypeCode(t), status)
  {
  }
}
