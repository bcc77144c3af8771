/**
 The calls of write_ctrl and read_ctrl during a flush. Both return a static count, and read_ctrl fills a static
 command: when select times out, those of an earlier call are reported again.
 */
module Wire {
  import opened Protocol

  /** What a call meets: the socket is not ready in time, or what then happens. */
  datatype Write = Written | WriteTimedOut | WriteFailed
  datatype Read = AckRead | OtherRead | ReadTimedOut | ReadFailed

  /** One record tried: its write and the read of its ACK. */
  datatype Exchange = Exchange(write: Write, read: Read)

  /** Are the counts of the last write and the last read positive, and is the last command an ACK? */
  datatype Statics = Statics(wrote: bool, gotten: bool, ack: bool)

  /** After an exchange that was taken for a good one. */
  const GOOD := Statics(true, true, true)

  /** write_ctrl returns a positive count. */
  predicate WriteReported(st: Statics, write: Write) {
    write.Written? || (write.WriteTimedOut? && st.wrote)
  }

  /** read_ctrl returns a positive count, and the command is an ACK. */
  predicate AckReported(st: Statics, read: Read) {
    read.AckRead? || (read.ReadTimedOut? && st.gotten && st.ack)
  }

  /** The exchange is taken for a good one. */
  predicate Believed(st: Statics, e: Exchange) {
    WriteReported(st, e.write) && AckReported(st, e.read)
  }

  /** It is one. */
  predicate Genuine(e: Exchange) {
    e.write.Written? && e.read.AckRead?
  }

  function AfterWrite(st: Statics, write: Write): Statics {
    match write
    case Written => st.(wrote := true)
    case WriteTimedOut => st
    case WriteFailed => st.(wrote := false)
  }

  function AfterRead(st: Statics, read: Read): Statics {
    match read
    case AckRead => st.(gotten := true, ack := true)
    case OtherRead => st.(gotten := true, ack := false)
    case ReadTimedOut => st
    case ReadFailed => st.(gotten := false)
  }

  /** The values carried out of an exchange, in which nothing is read unless the write went well. */
  function AfterExchange(st: Statics, e: Exchange): Statics {
    if WriteReported(st, e.write) then AfterRead(AfterWrite(st, e.write), e.read) else AfterWrite(st, e.write)
  }

  /** A flush begins with the command that it answers. */
  function Answering(st: Statics, command: Command): Statics {
    st.(ack := command == Ack)
  }

  /** The static variables. */
  class Line {
    var writeCount: int
    var readCount: int
    var ack: Command

    function Carried(): Statics
      reads this
    {
      Statics(writeCount > 0, readCount > 0, ack == Ack)
    }

    constructor ()
      ensures Carried() == Statics(false, false, false)
    {
      writeCount, readCount, ack := 0, 0, NoCommand;
    }

    method WriteCtrl(write: Write) returns (count: int)
      modifies this`writeCount
      ensures Carried() == AfterWrite(old(Carried()), write)
      ensures count > 0 <==> WriteReported(old(Carried()), write)
    {
      match write {
        case Written => writeCount := 1;
        case WriteTimedOut =>
        case WriteFailed => writeCount := 0;
      }
      count := writeCount;
    }

    /** Reads into the command of the flush. */
    method ReadCtrl(read: Read) returns (count: int)
      modifies this`readCount, this`ack
      ensures Carried() == AfterRead(old(Carried()), read)
      ensures count > 0 && ack == Ack <==> AckReported(old(Carried()), read)
    {
      match read {
        case AckRead => readCount, ack := 1, Ack;
        case OtherRead => readCount, ack := 1, NoCommand;
        case ReadTimedOut =>
        case ReadFailed => readCount := 0;
      }
      count := readCount;
    }

    /** Reads a command for the event loop, from a socket that is ready; without a command the read has failed. */
    method ReadCommand(cmd: Command)
      modifies this`readCount
      ensures Carried() == old(Carried()).(gotten := cmd != NoCommand)
    {
      readCount := if cmd != NoCommand then 1 else 0;
    }

    method Answer(command: Command)
      modifies this`ack
      ensures Carried() == Answering(old(Carried()), command)
    {
      ack := command;
    }
  }
}
