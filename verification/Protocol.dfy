/** The types of controller/ctrl_protocol.h: what the controller and a buddy say to each other. */
module Protocol {

  /** Commands from the controller; the numbered custom actions and signals carry their number. */
  datatype Command =
    | NoCommand
    | Ack
    | Shutdown
    | StatusReq
    | Start
    | Stop
    | Reload
    | RunOnce
    | Custom(action: nat)
    | Signal(number: nat)

  datatype RunState = Unknown | Stopped | Running | RanOnce

  /**
   A record of the audit trail. The serial number is a history variable: the model counts the records
   in the order of their creation, and no branch of the code depends on it.
   */
  datatype Info = Info(
    serial: nat,
    servicePid: int,
    waitPid: int,
    command: Command,
    desiredState: RunState,
    siginfo: int,
    waitStatus: int,
    timestamp: int)

  /** A record as it is written to the controller, with the number of records still to follow. */
  datatype Packet = Packet(info: Info, remaining: nat)
}
