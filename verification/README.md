# Formal model of the upkeeper buddy, its CRC-32, and its quoting code

upkeeper supervises services. A *buddy* is a small process that starts one service, restarts it when it
dies, and keeps an audit trail of what happened until the *controller* collects it. This project models the
buddy and the audit protocol as they are in `controller/buddy.c` and `controller/ctrl_buddy.c`, the CRC-32 of
`libupkeeper/upkeeper/upk_crc32.c`, the quoting printers and readers of the SQLite shell that upkeeper ships,
and the service ids and descriptor layers of `libupkeeper/upkeeper/upk_config.c`.

Verify everything with `dafny verify dfyconfig.toml` (Dafny 4.11).

## How the parts fit together

**The audit trail.** `Wire` has the calls of `write_ctrl` and `read_ctrl` with their static variables, which
outlive a call in which `select` times out. `Session` says what one flush over any sequence of such calls
delivers, keeps and loses. `AuditLog` is the specification of the whole trail: a bounded queue that drops its
oldest record, drained in sessions. A run is any sequence of recordings and flushes. `RingBuffer` proves that
the linked ring of slots, changed in place, refines that queue, the flush included; `Controller` is the other
end of the wire. The theorems are about what the controller sees over a whole run: serial numbers never
decrease, a record is repeated only across the boundary of two sessions, and whatever is skipped was
overwritten while the ring was full or lost by a write that timed out unnoticed.

**The supervisor.** `Supervisor` is a state machine with one step for each statement of the event loop that
touches state shared with the SIGCHLD handler. `Exec` runs any sequence of steps from the initial state, and a
step that is not enabled does nothing, so a lemma about `Exec(cfg, steps)` for all `steps` is a lemma about
every interleaving of commands, forks, reaped children, clock ticks and network outcomes. `ProcessSafety`,
`Directives`, `ShutdownLaw`, `ChildDeath`, `BlockedSignals` and `RespawnControl` are invariants of that machine
with their consequences. `Supervisor.TrailIsRun` carries the theorems of `AuditLog` over to its runs, and
`AuditCoverage` shows that what the controller reads is what happened, record by record. `Buddy` is the C code itself, file variables and
ring changed in place; each method performs, along with its statements, the machine steps they stand for, and
ends in agreement with the machine. `Buddy.Buddy.Promises` says what this means for the variables. The methods
follow one path without interruption; all interleavings of the same steps are in the machine.

**What each variable means.** For the variables that decide what the buddy does next there is a theorem that
gives their value in every reachable state by the history of the run alone: the desired state and the last
command (`Directives`), the shutdown flag (`ShutdownLaw`), `chld_terminated` (`ChildDeath`), the signal mask
(`BlockedSignals`), the runaway flag and the time stamp (`RestartLaw`), and the static count of `write_ctrl`
(`WireMemory`). `RestartLaw.RestartExactly` puts them together: exactly when the process is restarted.

**Laws that the code keeps only under a condition.** Four promises of the code are not kept in all runs. For each
the exact condition is proved:

- *The restart window.* Any `user_max_restarts + 2` starts contain a gap of `user_restart_window`, in every run
  with at most r refused starts, if and only if r is below 2^32 - 1 - `user_max_restarts`: so many refusals
  take the unsigned 32-bit counter round to zero (`WindowLaw.WindowLawHolds`, and `WindowLaw.IntervalLawHolds`
  for the number of starts in an interval).
- *The user delay.* It never blocks beyond 2 * limit + limit / 2, if and only if there is no jitter, or half the
  limit rounded to single precision is at most one above it, or the sum would not fit 32 bits
  (`UserDelay.DelayLawHolds`). The smallest limit that breaks it is 67108876 (`UserDelay.SmallestOverlong`).
- *The flush.* A session delivers and keeps what its exchanges should make it deliver and keep, if and only if the
  first exchange that does not go through is not taken for one that did (`CarriedValues.AsMeantExactly`). A
  record is lost if and only if its write times out and all exchanges up to its own are taken for good ones
  (`CarriedValues.LostExactly`).
- *Reaping.* SIGCHLD is blocked with no restoration to come if and only if a start has been refused or an action's
  script could not be executed (`BlockedSignals.ShutExactly`). From then on no child is reaped, in any
  continuation; until then every child can be, whenever the loop stands outside `buddy_start_proc`
  (`BlockedSignals.BlockedForGood`, `BlockedSignals.OpenOtherwise`).

**CRC-32.** `Crc32.Checksum` feeds a block bit by bit, each byte from its lowest bit, through the register of
the reflected polynomial 0xEDB88320 (section 8 of RFC 1952), started at zero as this code does and complemented
at the end. The table-driven loop is proved equal to it, the literal table equal to what the generator
produces, and the checksum is shown to detect every burst of n bits exactly for n up to 32.

**Quoting and identifiers.** Each printer is a loop proved equal to a function, and each function has a
reader that takes its output apart again: `resolve_backslashes` in place, a reader of doubled quotes, a strict
reader of CSV records (section 2 of RFC 4180, with a one-byte separator and a bare newline after a record),
and `upk_parse_svc_id`. Where the round trip does not hold for all inputs, the exact condition is proved; one case,
CSV separators of several bytes, is settled only in part.

## Assumptions

- Packets are transferred whole. What a call of `write_ctrl` or `read_ctrl` meets is free: it succeeds, fails, or
  times out, and in the last case reports the static values of an earlier call (controller/buddy.c:943, 973,
  1022).
- Sessions follow one another; a session ends at the first exchange that is not taken for a good one.
- The clock does not run backwards, and seconds since the epoch plus a 32-bit limit do not overflow.
- One run of the SIGCHLD handler is a sequence of single reaping steps, with anything possible in between.
  This allows more interleavings than there are. While a flush runs all signals are blocked
  (controller/buddy.c:1032-1054), so a flush is one step.
- `RAND_MAX` is 2^31 - 1, which gives the largest random part of the jitter; a smaller one makes it smaller.
- `ringbuffer_size` is at least 1 and fits its 32-bit counter (controller/buddy_main.c:157-161).
- `serial`, `created`, the lists of launches, refusals and received commands are history: no branch reads them.
- Strings are NUL-terminated byte strings shorter than 2^30 in the shell's code (its length function masks to
  30 bits); `isprint`, `isalpha` and `isalnum` are those of the C locale.

## Model

| member | source | states |
|---|---|---|
| Wire.Line.WriteCtrl | controller/buddy.c:969-987 | a write that times out reports the count of an earlier call |
| Wire.Line.ReadCtrl | controller/buddy.c:939-960 | a read that times out reports the count, and leaves the command, of an earlier call |
| Wire.Line.ReadCommand | controller/buddy.c:406 | reading a command for the event loop leaves its count behind |
| Session.RemovedExactly | controller/buddy.c:1034-1051 | in any session a record is removed exactly if all exchanges up to its own are taken for good ones |
| Session.RetainedIsSuffix | controller/buddy.c:1034-1051 | in any session what stays is a suffix of the queue |
| Session.RemovedInWords | controller/buddy.c:1034-1051 | the same in terms of the calls: the first write and read may time out only on the values carried in, the later ones always |
| Session.NoAckNoRemoval | controller/buddy.c:1025-1045 | a session that begins without an ACK removes nothing unless its first read brings one |
| Session.LostCounts | controller/buddy.c:1038-1045 | the records lost are those among the removed whose write timed out |
| Session.WrittenIsDelivered | controller/buddy.c:1038-1045 | in any session a record removed and written has reached the controller, with the right `remaining` |
| Session.InOrder | controller/buddy.c:1034-1051 | in any session the packets delivered come from the queue, in rising order, each with the right `remaining`, and none is beyond the oldest record that stays |
| Session.FlushEffect | controller/buddy.c:1034-1051 | a session that follows the protocol delivers a prefix in order, with `remaining` counting down, removes exactly the acknowledged prefix and loses nothing; at most one record is delivered and kept |
| Session.UnbrokenSession | controller/buddy.c:1034-1049 | if every exchange succeeds the controller gets all k pending records in order with `remaining` k-1 down to 0, and nothing stays |
| CarriedValues.AsMeantExactly | controller/buddy.c:1038-1045 | a session delivers and keeps what the outcomes of its own calls call for, if and only if the first exchange that does not go through is not taken for one that did |
| CarriedValues.LostExactly | controller/buddy.c:1038-1045 | a record leaves the ring without reaching the controller if and only if its write times out and all exchanges up to its own are taken for good ones |
| CarriedValues.PauseLoses | controller/buddy.c:943-1022 | an instance: one good exchange, then both calls time out, and the next record is lost |
| AuditLog.RunConsistent | controller/buddy.c:469-495 | invariant of every run: pending records are the latest created, sessions rise and are ordered, and the books balance |
| AuditLog.Conservation | controller/buddy.c:475-494 | in every run, created = written and removed + lost + overwritten + pending, and pending never exceeds the capacity |
| AuditLog.NeverDecreases | controller/buddy.c:1034-1051 | serial numbers received never decrease, over any number of broken sessions |
| AuditLog.RepeatedAtBoundary | controller/ctrl_buddy.c:320-346 | a record received twice is the last of one session and the first of a later one, with nothing else in between |
| AuditLog.KeptByRecording | controller/buddy.c:470-481 | recording loses a pending record only when the ring is full and it is the oldest |
| AuditLog.RemovedByFlush | controller/buddy.c:1034-1049 | what a flush removes, the controller has received, or it is lost by a write that timed out in an exchange taken for a good one |
| AuditLog.SkippedWasDropped | controller/buddy.c:1034-1051 | in every run a record neither received nor pending was the oldest of a full ring at some recording, or lost in that way by some flush |
| AuditLog.SkippedWasOverwritten | controller/buddy.c:1034-1051 | in a run whose sessions follow the protocol only the first is possible |
| AuditLog.RunUngarbled | controller/buddy.c:1034-1051 | every record pending or received is, field by field, the one made under its serial number |
| RingBuffer.AllocateChain | controller/buddy.c:505-516 | the allocation loop makes distinct slots, linked in order, numbered 1, 2, ..., N-1, 0 |
| RingBuffer.Ring.constructor | controller/buddy.c:501-519 | for every N >= 1: one cycle of N distinct empty slots, whose numbers are 0 to N-1 counted from the cursor |
| RingBuffer.Distinct | controller/buddy.c:510-516 | the slots of a cycle are pairwise distinct |
| RingBuffer.Ring.ZeroInfo | controller/buddy.c:488-495 | clears the slot at the cursor, decrementing the pending count only for a populated slot |
| RingBuffer.Ring.RecordState | controller/buddy.c:469-482 | the record is staged at the cursor; the other populated slots hold the queue without its oldest element if the ring was full; the count stays that of the populated slots |
| RingBuffer.Ring.Annotate | controller/buddy.c:151-153 | the handler's fields are added to the staged record only |
| RingBuffer.Ring.Advance | controller/buddy.c:749-750 | stepping over the staged record appends it to the queue |
| RingBuffer.Ring.ZeroOldest | controller/buddy.c:1040 | zeroing at the oldest record removes that record and no other |
| RingBuffer.Ring.DropOldest | controller/buddy.c:1040-1042 | the oldest record is zeroed and the cursor moves on, with the other records and the links unchanged |
| RingBuffer.Ring.Try | controller/buddy.c:1036-1039 | the count for the record, its write and the read of its ACK |
| RingBuffer.Ring.TryOldest | controller/buddy.c:1035-1045 | a populated slot is tried and, if all seems well, emptied |
| RingBuffer.Ring.Visit | controller/buddy.c:1034-1049 | one turn of the loop keeps the flush in step with the specification, or ends it at the cursor where it began |
| RingBuffer.Ring.Flush | controller/buddy.c:1018-1051 | in place and with the static variables: packets sent, records kept and values carried out are those of the specification, and cursor and links are as before, on both exits; a flush that answers anything but an ACK keeps the whole queue unless its first read brings an ACK; terminates within one turn of the ring |
| RingBuffer.Ring.Free | controller/buddy.c:524-537 | from any cursor position every slot is released exactly once and no released slot is read |
| Controller.TakenIsPrefix | controller/ctrl_buddy.c:320-346 | what the controller takes is the shortest prefix of the stream that gives it a reason to stop: a count of zero, or an ACK that it could not write |
| Controller.ReadState | controller/ctrl_buddy.c:317-346 | nothing is read from a socket that is not ready; otherwise the loop reads that prefix and tries one ACK for each packet, and it ends on a count of zero exactly if the last packet read has it |
| Controller.SessionAgreement | controller/ctrl_buddy.c:320-346 | in a session that follows the protocol the controller takes every record that reaches it; it leaves on zero exactly when it has seen the whole ring, and then the ring is empty unless the very last ACK was lost |
| Supervisor.TrailIsRun | controller/buddy.c:149-154 | the trail of every run of the machine is a run of the audit log, so all its theorems hold there |
| AuditCoverage.OccasionsExactly | controller/buddy.c:143-154 | the places in a run that there is a record of: each child reaped, each start recorded, in order |
| AuditCoverage.RecordsTell | controller/buddy.c:469-481 | in every run the records made are, in order and in every field, `proc_pid`, last command, desired state and time right after each such step, with what waitpid reported of a child |
| AuditCoverage.DeadProcessRecord | controller/buddy.c:145-153 | the record of the reaped managed process has service pid 0, since `proc_pid` is cleared first |
| AuditCoverage.StartRecord | controller/buddy.c:746-750 | the record of a start has the pid of the child, 0 if the script cannot be executed, -1 if the fork failed |
| AuditCoverage.ReceivedIsTrue | controller/ctrl_buddy.c:320-346 | in every run the record received under serial number n tells, in every field, of the n-th start or reaped child as things stood right after it |
| AuditCoverage.PendingIsTrue | controller/buddy.c:470-481 | so does every pending record |
| AuditCoverage.EveryChangeRecorded | controller/buddy.c:143-154 | in every run, unreaped children = children forked - children reaped, and records created = starts executed + children reaped |
| WireMemory.WroteExactly | controller/buddy.c:969-987 | in every run the static count of `write_ctrl` is positive exactly if the last call that did not time out, of all sessions so far, went well |
| WireMemory.FirstRemovedExactly | controller/buddy.c:1018-1051 | in every run the first pending record is removed exactly if its write goes well or times out after such a call, and an ACK is read, or the read times out in a flush that answers an ACK; so no ACK of an earlier session removes anything |
| ProcessSafety.PidReachable | controller/buddy.c:144-155 | the pid invariant holds in every reachable state |
| ProcessSafety.AtMostOneManaged | controller/buddy.c:728-752 | at most one unreaped managed process; its pid is in `proc_pid` except between fork and assignment, where SIGCHLD is blocked; `proc_pid` never names a process that is gone |
| ProcessSafety.ReapIsNoticed | controller/buddy.c:144-148 | reaping the managed process always sets the flag and clears `proc_pid`; reaping another child touches neither |
| ProcessSafety.MaskIsNeeded | controller/buddy.c:729-745 | were the child reaped between fork and assignment, the assignment would put the pid of a process that is gone into `proc_pid`, with the flag not set for it |
| ChildDeath.TerminatedExactly | controller/buddy.c:145-148 | in every run `chld_terminated` is set exactly if the managed process has been reaped since the last automatic start that returned true |
| ChildDeath.RefusedStaysDead | controller/buddy.c:343-345 | an automatic start that the counter refuses leaves it set, and the runaway flag set |
| ChildDeath.MonitoredIsAlive | controller/buddy.c:728-755 | an automatic start clears it if a process is monitored already |
| ChildDeath.StartedIsAlive | controller/buddy.c:343-345 | and after a start has been executed |
| ShutdownLaw.ShutdownExactly | controller/buddy.c:832-863 | in every run the shutdown flag is set exactly if a SHUTDOWN or RUNONCE has been handled or SIGTERM or SIGINT received |
| ShutdownLaw.ExitExactly | controller/buddy.c:324-325 | a look at the flags ends the loop exactly if one of these has happened |
| ShutdownLaw.EndStaysOrdered | controller/buddy.c:324-325 | the flag is never taken back |
| RestartLaw.RestartExactly | controller/buddy.c:319-345 | in every run a look at the flags goes on to restart the process if and only if no end is ordered, the process has died since the last successful restart, the latest directive was START, the user's limit with its jitter is over, and so is the runaway limit if a start was refused since a restart last passed it |
| RestartLaw.ForceExactly | controller/buddy.c:337-342 | in every run the runaway flag is set exactly if a start has been refused since a restart last passed its test |
| RestartLaw.StampExactly | controller/buddy.c:747 | in every run the time stamp is that of the last start executed |
| RestartLaw.CountedExactly | controller/buddy.c:735-744 | the counter goes up by one, as a 32-bit value, within the window, and to zero beyond it; a start is let through exactly up to the limit |
| BlockedSignals.ShutExactly | controller/buddy.c:650-743 | in every run SIGCHLD is blocked with no restoration to come if and only if a start was refused or an action's script not executed |
| BlockedSignals.OpenOtherwise | controller/buddy.c:729-752 | outside `buddy_start_proc` a child can be reaped if and only if neither has happened |
| BlockedSignals.BlockedForGood | controller/buddy.c:650-743 | once either has happened, no continuation of the run reaps any child |
| BlockedSignals.LastStart | controller/buddy.c:728-752 | once `proc_pid` is not zero, and either children are no longer reaped or it is the -1 of a failed fork, no start is ever executed again and `proc_pid` never changes |
| BlockedSignals.FrozenByStart | controller/buddy.c:741-752 | that is so after any start with a failed fork, and after any start with a pid once a start was refused or an action not executed |
| Directives.DirectedExactly | controller/buddy.c:831-863 | the desired state is RUNNING exactly if the latest of START, STOP, RUNONCE and SHUTDOWN was START, ran-once exactly if it was RUNONCE, and stopped otherwise |
| Directives.DesiredExactly | controller/buddy.c:830-864 | so in every run, once the command has been noted |
| Directives.LastExactly | controller/buddy.c:830-878 | in every run the last command is the latest one received that the buddy knows, or none |
| Directives.BeginsExactly | controller/buddy.c:843-879 | a start is begun by START and RUNONCE only, an action by STOP and RELOAD with a process and by the 32 custom actions only |
| Directives.DirectiveReachable | controller/buddy.c:827-864 | the desired-state invariant holds in every reachable state |
| Directives.RestartOnlyWhenDirected | controller/buddy.c:327-345 | every automatic start happens only if the latest directive received by then was START |
| RespawnControl.RespawnReachable | controller/buddy.c:723-756 | counter, time stamp, flag and jitter keep their invariant in every reachable state |
| RespawnControl.Window | controller/buddy.c:735-744 | among max + 2 launches in a row two neighbours are a restart window apart, unless the counter wrapped |
| RespawnControl.GapAmongStarts | controller/buddy.c:723-756 | the same for any stretch of any run, by command or automatic: a gap, or so many refusals within the stretch |
| RespawnControl.StartsInInterval | controller/buddy.c:735-744 | no interval of length L sees more than (max + 1) * (L / W + 1) starts, with fewer refusals within it |
| WindowLaw.WindowLawHolds | controller/buddy.c:735-744 | for every configuration: in every run with at most r refused starts any max + 2 starts contain a gap of at least W, if and only if W is 0 or r < 2^32 - 1 - max |
| WindowLaw.IntervalLawHolds | controller/buddy.c:735-744 | for every configuration: the bound on the starts in an interval holds in every run with at most r refused starts, if and only if r < 2^32 - 1 - max |
| WindowLaw.CounterWraps | controller/buddy.c:735-740 | for every configuration a run of max + 2 starts at the same time, with exactly 2^32 - 1 - max refusals |
| WindowLaw.SmallestCase | controller/buddy.c:735-740 | its instance with max = 0: two starts in one second |
| RespawnControl.RestartDelayed | controller/buddy.c:328-341 | an automatic start comes at least `user_ratelimit` after the one before, and at least `runaway_ratelimit` after it if the flag was set or a start was refused in between |
| UserDelay.UserDelayBounded | controller/buddy.c:329-334 | the user delay never lets through before the limit, never blocks beyond twice the limit plus the largest random part, and without jitter is exactly the limit |
| UserDelay.DelayLawHolds | controller/buddy.c:329-334 | the user delay never blocks beyond 2 * limit + limit / 2 in any run, if and only if there is no jitter, or rounding half the limit adds at most one, or the sum would not fit 32 bits |
| UserDelay.SmallestOverlong | controller/buddy.c:332 | the smallest limit that breaks this bound is 67108876 |
| SinglePrecision.FirstOvershoot | controller/buddy.c:332 | below 33554438 the conversion to float adds at most one; there it adds two |
| Buddy.Buddy.constructor | controller/buddy.c:501-519 | variables and ring agree with the initial state of the machine |
| Buddy.Buddy.Tick | controller/buddy.c:735-747 | the clock that the code reads at 735 and 747 and that of the machine advance together |
| Buddy.Buddy.Select | controller/buddy.c:397-408 | a command or a time-out takes the loop to the handling of the command or of the flags |
| Buddy.Buddy.HandleTerminate | controller/buddy.c:157-159 | SIGTERM and SIGINT set the shutdown flag |
| Buddy.Buddy.ReceiveCommand | controller/buddy.c:405-407 | a command that has been read is the machine step of its receipt, and leaves a positive count behind |
| Buddy.Buddy.ReceiveNothing | controller/buddy.c:399-407 | no command is an idle step, after which a failed read has left no positive count |
| Buddy.Buddy.Round | controller/buddy.c:387-416 | one round of the event loop is exactly the machine steps of its command, its flush and its flags, and ends at the exit exactly if shutdown was ordered before or by a SHUTDOWN or RUNONCE in this round |
| Buddy.Buddy.Promises | controller/buddy.c:387-416 | whenever variables and machine agree: `proc_pid`, the ring, the number of records and the desired state are as the machine's theorems say |
| Buddy.Buddy.RecordState | controller/buddy.c:469-482 | the staged record is the snapshot of the variables |
| Buddy.Buddy.RecordStart | controller/buddy.c:749-750 | the queue gets the snapshot of the start |
| Buddy.Buddy.RecordReaped | controller/buddy.c:149-154 | the queue gets the snapshot completed by what waitpid reported |
| Buddy.Buddy.ReapOne | controller/buddy.c:144-155 | one round of the handler is one step of the machine; flag, `proc_pid` and the latest record are as the handler leaves them |
| Buddy.Buddy.HandleSigchld | controller/buddy.c:142-156 | the handler's loop is one machine step for each child reaped, in that order |
| Buddy.Buddy.CountStart | controller/buddy.c:728-744 | the in-place code up to the decision follows the machine |
| Buddy.Buddy.SetCounted | controller/buddy.c:729-744 | mask, 32-bit counter and runaway flag as the statements set them |
| Buddy.Buddy.SetLaunched | controller/buddy.c:745-752 | pid, time stamp, record and mask after the fork |
| Buddy.Buddy.Launch | controller/buddy.c:745-752 | the in-place code from the fork on follows the machine |
| Buddy.Buddy.StartProc | controller/buddy.c:723-756 | does nothing for a monitored process, refuses, or launches, and returns false exactly if the counter refuses |
| Buddy.Buddy.SwitchCommand | controller/buddy.c:830-878 | the switch over the commands sets desired state, last command and shutdown flag |
| Buddy.Buddy.NoteCommand | controller/buddy.c:830-878 | the switch follows the machine |
| Buddy.Buddy.ExecAction | controller/buddy.c:634-716 | an action script: an early return leaves the signals blocked |
| Buddy.Buddy.HandleCommand | controller/buddy.c:827-879 | a command takes the machine from its receipt to the flush that answers it |
| Buddy.Buddy.FlushRing | controller/buddy.c:1018-1057 | the flush in place is the flush of the trail, and what was sent is its next session |
| Buddy.Buddy.CheckLimits | controller/buddy.c:324-341 | shutdown, user limit and runaway limit decide as the machine does, and a restart follows exactly if it is due |
| Buddy.Buddy.CheckUserLimit | controller/buddy.c:329-334 | the jitter and the user delay |
| Buddy.Buddy.CheckRunawayLimit | controller/buddy.c:337-340 | the runaway limit and the clearing of its flag |
| Buddy.Buddy.HandleFlags | controller/buddy.c:319-348 | from the flags to the exit or back to the loop, with a restart in between if all tests pass; `chld_terminated` is cleared exactly if a restart is due and not refused |
| Crc32.TableStep | libupkeeper/upkeeper/upk_crc32.c:76-77 | one iteration of the loop takes in the eight bits of a byte |
| Crc32.Compute | libupkeeper/upkeeper/upk_crc32.c:37-80 | for every block the table-driven loop returns the bit-serial checksum |
| Crc32.Verify | libupkeeper/upkeeper/upk_crc32.c:85-89 | accepts exactly the stored checksum |
| Crc32.CreateTable | libupkeeper/upkeeper/upk_crc32.c:20-33 | the generator fills in the literal table |
| CrcTable.LiteralIsGenerated | libupkeeper/upkeeper/upk_crc32.c:41-74 | every entry of the literal table is eight register steps of its index |
| CrcRegister.ByteStep | libupkeeper/upkeeper/upk_crc32.c:29-30 | eight steps split into a table lookup xor a shift by eight |
| CrcRegister.FeedPack | libupkeeper/upkeeper/upk_crc32.c:76-77 | feeding up to 32 bits equals xoring them in at once and then shifting |
| CrcRegister.FeedXor | libupkeeper/upkeeper/upk_crc32.c:76-77 | the register is linear in start value and message |
| CrcRegister.FeedZeros | libupkeeper/upkeeper/upk_crc32.c:29-30 | zero bits never clear a register that is not zero |
| Crc32.ChecksumXor | libupkeeper/upkeeper/upk_crc32.c:76-79 | crc(a xor b) = crc(a) xor crc(b) xor 0xFFFFFFFF for equal lengths |
| Crc32.ChecksumSplit | libupkeeper/upkeeper/upk_crc32.c:76-79 | a block can be split anywhere and continued from the intermediate register |
| Crc32.LeadingZeros | libupkeeper/upkeeper/upk_crc32.c:40-40 | any number of leading zero bytes changes nothing, since the register starts at zero |
| Crc32.BurstDetected | libupkeeper/upkeeper/upk_crc32.c:37-89 | blocks that differ only within 32 consecutive bits, at any alignment and length, have the same checksum only if they are equal |
| Crc32.LongerBurstMissed | libupkeeper/upkeeper/upk_crc32.c:37-89 | two different blocks, differing only within 33 consecutive bits, with the same checksum |
| Crc32.BurstLawHolds | libupkeeper/upkeeper/upk_crc32.c:37-89 | every change within n consecutive bits is detected, in blocks of any length, if and only if n is at most 32 |
| CString.OutputCString | deps/sqlite-3.7.3/shell.c:516-539 | prints the escaped body between double quotes |
| CString.ReadUnit | deps/sqlite-3.7.3/shell.c:1399-1417 | decodes one escape, of one to four bytes |
| CString.ReadOctal | deps/sqlite-3.7.3/shell.c:1406-1416 | decodes one to three octal digits, stopping at the first byte that is none |
| CString.ResolveBackslashes | deps/sqlite-3.7.3/shell.c:1395-1422 | in place: the buffer ends up with the resolved string, the write index never passes the read index, bytes beyond the string are untouched |
| CString.EscapeInWords | deps/sqlite-3.7.3/shell.c:519-536 | how each byte is written: by letter, in octal, or as it is |
| CString.UnitInWords | deps/sqlite-3.7.3/shell.c:1399-1417 | how each unit is read: letters, one to three octal digits, any other byte after a backslash, and plain bytes |
| CString.UnitOfEscape | deps/sqlite-3.7.3/shell.c:1399-1417 | the escape of a byte, followed by anything, is read as that byte and ends where it should |
| CString.RoundTrip | deps/sqlite-3.7.3/shell.c:516-539 | resolving the printed body gives back every NUL-free string |
| CString.PrintAndResolve | deps/sqlite-3.7.3/shell.c:1395-1422 | the same through the two procedures in one buffer |
| Quoting.OutputQuotedString | deps/sqlite-3.7.3/shell.c:486-511 | the nested loops print the string in quotes with every quote doubled |
| Quoting.ScanQuoted | deps/sqlite-3.7.3/shell.c:486-511 | a reader of doubled quotes recovers the string and finds its end, whatever follows |
| Quoting.ScannedIsQuoted | deps/sqlite-3.7.3/shell.c:486-511 | conversely, whatever that reader accepts is a doubled string |
| Quoting.CountQuotes | deps/sqlite-3.7.3/shell.c:891-893 | the counting pass finds the length that the filling pass will need |
| Quoting.FillDoubled | deps/sqlite-3.7.3/shell.c:904-907 | the filling pass writes exactly the doubled string and nothing outside it |
| Quoting.FillQuoted | deps/sqlite-3.7.3/shell.c:902-909 | the quoted text and its terminator are written from a position on, and what stands before it stays |
| Quoting.AppendText | deps/sqlite-3.7.3/shell.c:882-917 | the block holds old text plus appended, quoted text and is exactly full, so the assertion at line 910 always holds; without memory there is no result |
| Quoting.MeasureName | deps/sqlite-3.7.3/shell.c:851-858 | the first pass: the name needs quotes exactly if it is no identifier, and the length is that of what the second pass writes |
| Quoting.ShellState.SetTableName | deps/sqlite-3.7.3/shell.c:841-872 | the stored name is the identifier or its quoted form, in a block of exactly its size; no name clears it |
| Quoting.BareNameExactly | deps/sqlite-3.7.3/shell.c:850-857 | a name is stored bare exactly if it is a letter or underscore followed by letters, digits and underscores |
| Quoting.TableNameDenotes | deps/sqlite-3.7.3/shell.c:852-871 | the stored name reads back as the name it was made from, if and only if that is no reserved word; those are stored without quotes |
| Quoting.NameDenoted | deps/sqlite-3.7.3/shell.c:852-871 | every readable name, whatever words are reserved, is the stored form of what it denotes, or a quoted identifier |
| Csv.BareExactly | deps/sqlite-3.7.3/shell.c:579-633 | a field is printed bare exactly if it is not empty, has only printable ASCII other than space and quotes, and does not hold the separator; otherwise it is quoted |
| Csv.OutputQuoted | deps/sqlite-3.7.3/shell.c:620-625 | the printing loop puts the field in quotes with every double quote doubled |
| Csv.OutputCsv | deps/sqlite-3.7.3/shell.c:604-633 | one term: the null text, or the field, quoted if it is empty, has a byte that needs it, or is seen to hold the separator, of whatever length |
| Csv.OutputRow | deps/sqlite-3.7.3/shell.c:789-792 | a row is the terms with separators between them and a newline |
| Csv.RowReads | deps/sqlite-3.7.3/shell.c:604-633 | a printed row reads back as the texts of its fields, whatever they hold and whatever follows; NULL reads back as the null text if that is plain text |
| Csv.TableReads | deps/sqlite-3.7.3/shell.c:789-792 | the lines of any number of rows without NULL read back as the rows |
| Csv.RowSeparators | deps/sqlite-3.7.3/shell.c:579-633 | for separators of one byte, and for longer or empty ones without a byte that needs quoting: a line determines its row without NULL if and only if the separator is one byte other than the double quote |
| Csv.LongSeparatorCollides | deps/sqlite-3.7.3/shell.c:613-614 | for the others two fields and one field that print the same line, because a longer separator is only looked for at the beginning of a field |
| Csv.TableSeparators | deps/sqlite-3.7.3/shell.c:579-633 | for the same separators: lines determine the table, NULL aside, if and only if the separator is one byte other than double quote and newline |
| ServiceId.ConcatSvcid | libupkeeper/upkeeper/upk_config.c:978-993 | the cleared buffer gets package, two colons and as much of the name as fits; without a package the name alone; for all calls that stay within the buffer |
| ServiceId.Service.ParseSvcId | libupkeeper/upkeeper/upk_config.c:1007-1021 | in place: the buffers hold the parts around the first two colons, or the whole key as the name with the package left as it was |
| ServiceId.PrintParsed | libupkeeper/upkeeper/upk_config.c:978-1021 | printing a parsed key gives it back if and only if it fits, does not begin with two colons, and has a package of its own if one was stored before |
| ServiceId.SeparatorIsFirst | libupkeeper/upkeeper/upk_config.c:1012 | the first two colons fall right after the package exactly if it has none itself and does not end in a colon |
| ServiceId.ParsePrinted | libupkeeper/upkeeper/upk_config.c:978-1021 | parsing a printed id gives back package and name if and only if they fit and the separator comes first, or, without a package, if the name has no two colons and no package was stored before |
| Overlay.OverlayField | libupkeeper/upkeeper/upk_config.c:1165-1166 | one statement: the field is taken from the higher layer exactly if that sets it, and no other field changes |
| Overlay.Descriptor.OverlayFields | libupkeeper/upkeeper/upk_config.c:1165-1340 | every scalar or text field is taken from the higher layer exactly if that sets it |
| Overlay.Descriptor.OverlayValues | libupkeeper/upkeeper/upk_config.c:1162-1340 | in place: fields as above, provided and required services appended, actions replaced by a list that is not empty |
| Overlay.OverlayInWords | libupkeeper/upkeeper/upk_config.c:912-1340 | for each field, with its sentinel as a number or text: the higher layer's value counts unless it is the sentinel, and the cleared descriptor has the sentinel |
| Overlay.ListsInWords | libupkeeper/upkeeper/upk_config.c:1178-1303 | the same for the lists and the fields left alone |
| Overlay.StackInWords | libupkeeper/upkeeper/upk_config.c:1381-1404 | service defaults with an empty name are left out |
| Overlay.MergeAssociative | libupkeeper/upkeeper/upk_config.c:1162-1340 | layers may be merged in any grouping |
| Overlay.ClearedIsIdentity | libupkeeper/upkeeper/upk_config.c:912-932 | the cleared descriptor is an identity above, and below exactly for descriptors without the fields that overlaying ignores |
| Overlay.LastSetWins | libupkeeper/upkeeper/upk_config.c:1162-1340 | over any number of layers a field has the value of the last that sets it |
| Overlay.NeverSetStays | libupkeeper/upkeeper/upk_config.c:1162-1340 | a field no layer sets keeps its value |
| Overlay.LastActionsWin | libupkeeper/upkeeper/upk_config.c:1281-1303 | the actions are the last list that is not empty |
| Overlay.ListsJoin | libupkeeper/upkeeper/upk_config.c:1178-1209 | provided and required services are listed layer by layer |
| Overlay.LoadDefaults | libupkeeper/upkeeper/upk_config.c:904-906 | the runtime defaults are the built-in and the file's, each only if it has a name (see 1381-1382) |
| Overlay.Finalize | libupkeeper/upkeeper/upk_config.c:1399-1404 | a finished service is its own layer over the file's defaults over the built-in ones |

## Left out

- Liveness: that a dead child is always restarted is not claimed. `chld_terminated` is cleared after the mask
  is restored (controller/buddy.c:343-345, 752), and the early returns at controller/buddy.c:650, 654 and 743
  leave signals blocked; the machine has both, and only safety is proved.
- RespawnControl.GapAmongStarts: one way only, as a bound for one stretch of a run; the exact law for whole
  runs is WindowLaw.WindowLawHolds.
- RespawnControl.StartsInInterval: likewise; the exact law is WindowLaw.IntervalLawHolds.
- Buddy.Buddy.ExecAction: only the outcome and the signal mask; what the scripts do, and the escalation of
  `buddy_stop_proc` with its static counter and sleeps, are not part of the model.
- Buddy.Buddy.HandleCommand: the signal commands are noted, but the `kill` itself is not modelled, nor is the
  escalation of the stop command.
- Buddy.Buddy.CheckUserLimit: the random part of the jitter is any whole number up to the largest that the
  product can give (rounding of half the limit to single precision included), not what `rand` returns.
- RingBuffer.Ring.Free: `free` is a flag on the node; memory itself is not modelled. The loop runs without
  interruption, and `buddy_cleanup`, which calls it (controller/buddy.c:427-445), is not part of the model: after
  SHUTDOWN or RUNONCE the SIGCHLD handler is still installed there, and the code is only safe if SIGCHLD is
  blocked or no child is left. Steps of the machine after the exit of the event loop describe the time up to
  the release of the ring.
- Sockets, `select`, fork and exec, user ids, path strings and logging: only their outcomes appear, as steps
  or parameters. A partly transferred packet is not modelled.
- `phone_home_if_appropriate` and the state of the connection: a flush without a connection is a flush whose
  network has no outcomes.
- CString.ResolveBackslashes: strings that end in a lone backslash, where the code reads past the terminator,
  are outside its contract.
- `output_c_string` does not escape the double quote, so finding the end of a printed string in a longer text
  is not claimed.
- Csv.TableReads: rows without NULL only; a NULL prints as the null text without quotes, which a reader cannot
  tell from a field with that text.
- Csv.RowSeparators: longer separators with a byte that makes a field be quoted are printed as the code prints
  them, but whether their lines determine the row is left open.
- Csv.RowReads: the reader is for separators of one byte.
- Quoting.ShellState.SetTableName: failure to allocate ends the program and is not modelled; the old block is
  simply dropped.
- ServiceId.ConcatSvcid: calls in which the remaining length wraps round and the code writes past the buffer (a
  package of at least 2046 bytes with a name) are outside its contract.
- Overlay.Descriptor.OverlayValues: field values, not heap ownership, so freeing the old scripts is left out;
  one field stands for those that no statement of the source overlays; UUIDs are single numbers.
- Overlay.Finalize: the substitution of `%(EXEC_...)` in scripts is left out.
- Loading of files and JSON, the data store, the event loop of the controller, `handle_buddies`, the creation
  and cleanup of state directories, option parsing, and the rest of the SQLite shell.
