/** What the watchdog finds, over single passes and over whole runs. */
module ProcessLaws {
  import opened Ipc
  import opened IpcProtocol
  import opened MachineInts
  import opened Processes
  import opened Wrappers

  // ---- One pass -----------------------------------------------------------------------------

  /** A running process that has been silent for longer than the timeout. */
  predicate Silent(p: Process, now: nat, timeout: nat) {
    p.state == Running && now - p.lastHeartbeat > timeout
  }

  /**
   * A watchdog pass reports exactly the children that have exited and the running processes silent for
   * longer than the timeout. An exited one is crashed and its channel closed and emptied; a silent one
   * becomes unresponsive; nothing else changes.
   */
  lemma WatchdogFindsTheSilent(t: Table, timeout: nat, exited: set<nat>, pid: nat)
    ensures var (after, reported) := CheckWatchdog(t, timeout, exited);
            && (pid in reported <==> pid in exited || (pid in t.processes && Silent(t.processes[pid], t.now, timeout)))
            && (pid in after.processes <==> pid in t.processes)
            && after.nextPid == t.nextPid && after.nextGeneration == t.nextGeneration && after.now == t.now
            && (pid in t.processes ==>
                  var p, q := t.processes[pid], after.processes[pid];
                  && q.role == p.role && q.generation == p.generation && q.lastHeartbeat == p.lastHeartbeat
                  && (if pid in exited
                      then q.state == Crashed && q.ipc.closed && q.ipc.sendQueue == [] && q.ipc.receiveQueue == []
                      else q.ipc == p.ipc && (q.state == Unresponsive <==> p.state == Unresponsive || Silent(p, t.now, timeout))
                           && (!Silent(p, t.now, timeout) ==> q == p)))
  {
  }

  // ---- Runs ---------------------------------------------------------------------------------

  /** When a process was last heard of: at its last heartbeat, or when it was started. */
  function LastHeard(trace: seq<World>, steps: seq<Step>, pid: nat, n: nat): (at: nat)
    requires n <= |steps| < |trace|
  {
    if n == 0 then 0
    else match steps[n - 1]
      case HeartbeatStep(p, at) => if p == pid then at else LastHeard(trace, steps, pid, n - 1)
      case SpawnStep(_) =>
        if pid == trace[n - 1].table.nextPid then trace[n - 1].table.now else LastHeard(trace, steps, pid, n - 1)
      case RecoverStep(_) =>
        if pid == trace[n - 1].table.nextPid then trace[n - 1].table.now else LastHeard(trace, steps, pid, n - 1)
      case _ => LastHeard(trace, steps, pid, n - 1)
  }

  /** The time that has passed. */
  function Elapsed(steps: seq<Step>, n: nat): (ms: nat)
    requires n <= |steps|
  {
    if n == 0 then 0
    else match steps[n - 1]
      case TimeStep(elapsed) => Elapsed(steps, n - 1) + elapsed
      case _ => Elapsed(steps, n - 1)
  }

  ghost predicate Heard(w: World, pid: nat, at: nat) {
    pid in w.table.processes ==> w.table.processes[pid].lastHeartbeat == at
  }

  ghost predicate KnownBelow(w: World) {
    forall pid <- w.table.processes :: pid < w.table.nextPid
  }

  lemma StepKeepsTime(before: World, step: Step, encoding: Encoding)
    ensures Next(before, step, encoding).table.now
            == if step.TimeStep? then SaturatingAdd(before.table.now, step.elapsed) else before.table.now
  {
  }

  lemma StepKeepsKnown(before: World, step: Step, encoding: Encoding)
    requires KnownBelow(before)
    ensures KnownBelow(Next(before, step, encoding))
  {
  }

  /** The clock is the time that has passed, and stops at the top of its 64 bits. */
  lemma {:induction false} ClockTellsTime(trace: seq<World>, steps: seq<Step>, n: nat, encoding: Encoding)
    requires IsRun(trace, steps, encoding) && n <= |steps|
    ensures trace[n].table.now == if Elapsed(steps, n) <= U64_MAX then Elapsed(steps, n) else U64_MAX
    ensures KnownBelow(trace[n])
  {
    if n > 0 {
      ClockTellsTime(trace, steps, n - 1, encoding);
      assert IsStep(trace[n - 1], steps[n - 1], trace[n], encoding);
      StepKeepsTime(trace[n - 1], steps[n - 1], encoding);
      StepKeepsKnown(trace[n - 1], steps[n - 1], encoding);
    }
  }

  lemma StepHears(before: World, step: Step, pid: nat, at: nat, encoding: Encoding)
    requires Heard(before, pid, at) && KnownBelow(before)
    ensures Heard(Next(before, step, encoding), pid,
                  if step.HeartbeatStep? && step.pid == pid then step.at
                  else if (step.SpawnStep? || step.RecoverStep?) && pid == before.table.nextPid then before.table.now
                  else at)
  {
  }

  /** In every run a process carries the time it was last heard of. */
  lemma {:induction false} HeartbeatIsLastHeard(trace: seq<World>, steps: seq<Step>, n: nat, pid: nat, encoding: Encoding)
    requires IsRun(trace, steps, encoding) && n <= |steps|
    ensures Heard(trace[n], pid, LastHeard(trace, steps, pid, n))
  {
    if n > 0 {
      HeartbeatIsLastHeard(trace, steps, n - 1, pid, encoding);
      ClockTellsTime(trace, steps, n - 1, encoding);
      assert IsStep(trace[n - 1], steps[n - 1], trace[n], encoding);
      StepHears(trace[n - 1], steps[n - 1], pid, LastHeard(trace, steps, pid, n - 1), encoding);
    }
  }

  predicate IsLive(w: World, pid: nat) {
    pid in w.table.processes && w.table.processes[pid].state == Running
  }

  /** The pids step `i` reports. */
  function ReportedAt(trace: seq<World>, steps: seq<Step>, i: nat): (pids: set<nat>)
    requires i < |steps| < |trace|
  {
    if steps[i].WatchdogStep? then CheckWatchdog(trace[i].table, steps[i].timeout, steps[i].exited).1 else {}
  }

  /** Step `i` does not end the process, and a watchdog pass comes no later than the timeout after it was last heard of. */
  predicate InTime(trace: seq<World>, steps: seq<Step>, pid: nat, i: nat)
    requires i < |steps| < |trace|
  {
    match steps[i]
    case WatchdogStep(timeout, exited) => pid !in exited && trace[i].table.now - LastHeard(trace, steps, pid, i) <= timeout
    case CrashStep(p) => p != pid
    case TerminateStep(p) => p != pid
    case _ => true
  }

  lemma LiveStaysLive(before: World, step: Step, pid: nat, encoding: Encoding)
    requires IsLive(before, pid) && KnownBelow(before)
    requires match step
             case WatchdogStep(timeout, exited) =>
               pid !in exited && before.table.now - before.table.processes[pid].lastHeartbeat <= timeout
             case CrashStep(p) => p != pid
             case TerminateStep(p) => p != pid
             case _ => true
    ensures IsLive(Next(before, step, encoding), pid)
  {
  }

  /** A process heard of in time for every watchdog pass stays running and is never reported. */
  lemma {:induction false} HeardInTimeIsNeverReported(trace: seq<World>, steps: seq<Step>, from: nat, n: nat, pid: nat,
                                                      encoding: Encoding)
    requires IsRun(trace, steps, encoding) && from <= n <= |steps| && IsLive(trace[from], pid)
    requires forall i :: from <= i < n ==> InTime(trace, steps, pid, i)
    ensures IsLive(trace[n], pid)
    ensures forall i :: from <= i < n ==> pid !in ReportedAt(trace, steps, i)
    decreases n
  {
    if from < n {
      HeardInTimeIsNeverReported(trace, steps, from, n - 1, pid, encoding);
      HeartbeatIsLastHeard(trace, steps, n - 1, pid, encoding);
      ClockTellsTime(trace, steps, n - 1, encoding);
      assert InTime(trace, steps, pid, n - 1);
      assert IsStep(trace[n - 1], steps[n - 1], trace[n], encoding);
      LiveStaysLive(trace[n - 1], steps[n - 1], pid, encoding);
    }
  }

  /**
   * A running process not heard of for longer than the timeout is reported by the next pass, and then
   * unresponsive, or crashed if it exited; its next heartbeat makes an unresponsive one running again.
   */
  lemma SilentIsReported(trace: seq<World>, steps: seq<Step>, n: nat, pid: nat, encoding: Encoding)
    requires IsRun(trace, steps, encoding) && n < |steps| && steps[n].WatchdogStep? && IsLive(trace[n], pid)
    requires trace[n].table.now - LastHeard(trace, steps, pid, n) > steps[n].timeout
    ensures pid in ReportedAt(trace, steps, n) && pid in trace[n + 1].table.processes
    ensures trace[n + 1].table.processes[pid].state == if pid in steps[n].exited then Crashed else Unresponsive
    ensures n + 1 < |steps| && steps[n + 1].HeartbeatStep? && steps[n + 1].pid == pid && pid !in steps[n].exited ==>
              IsLive(trace[n + 2], pid)
  {
    HeartbeatIsLastHeard(trace, steps, n, pid, encoding);
    assert IsStep(trace[n], steps[n], trace[n + 1], encoding);
    if n + 1 < |steps| {
      assert IsStep(trace[n + 1], steps[n + 1], trace[n + 2], encoding);
    }
  }

  // ---- Incarnations and channels ------------------------------------------------------------

  function Capped(n: nat): (m: nat) {
    if n <= U64_MAX then n else U64_MAX
  }

  /** A process and its channel belong to one incarnation, numbered by its pid as far as 64 bits go. */
  predicate IsIncarnation(pid: nat, p: Process) {
    && p.generation == Capped(pid)
    && p.ipc.senderId == 0 && p.ipc.targetId == pid
    && p.ipc.senderGeneration == p.generation && p.ipc.targetGeneration == p.generation
  }

  ghost predicate Numbered(t: Table) {
    && t.nextPid > 0 && t.nextGeneration == Capped(t.nextPid)
    && forall pid <- t.processes :: 0 < pid < t.nextPid && IsIncarnation(pid, t.processes[pid])
  }

  lemma SpawnKeepsNumbers(t: Table, role: Role)
    requires Numbered(t)
    ensures Numbered(Spawn(t, role).0)
  {
  }

  lemma RecoveryKeepsNumbers(w: World, pid: nat)
    requires Numbered(w.table)
    ensures Numbered(DoRecover(w, pid).table) && DoRecover(w, pid).table.nextPid >= w.table.nextPid
  {
    if pid in w.table.processes && w.table.processes[pid].state == Crashed {
      SpawnKeepsNumbers(Terminate(w.table, pid).0, w.table.processes[pid].role);
    }
  }

  lemma StepKeepsNumbers(before: World, step: Step, encoding: Encoding)
    requires Numbered(before.table)
    ensures Numbered(Next(before, step, encoding).table)
    ensures Next(before, step, encoding).table.nextPid >= before.table.nextPid
  {
    if step.SpawnStep? {
      SpawnKeepsNumbers(before.table, step.role);
    } else if step.RecoverStep? {
      RecoveryKeepsNumbers(before, step.pid);
    }
  }

  /** In every run pids and generations are handed out in order, so short of 2^64 starts no two processes share either. */
  lemma {:induction false} IncarnationsAreNumbered(trace: seq<World>, steps: seq<Step>, n: nat, encoding: Encoding)
    requires IsRun(trace, steps, encoding) && n <= |steps|
    ensures Numbered(trace[n].table)
    ensures forall p, q :: p in trace[n].table.processes && q in trace[n].table.processes && p < q <= U64_MAX ==>
              trace[n].table.processes[p].generation < trace[n].table.processes[q].generation
  {
    if n > 0 {
      IncarnationsAreNumbered(trace, steps, n - 1, encoding);
      assert IsStep(trace[n - 1], steps[n - 1], trace[n], encoding);
      StepKeepsNumbers(trace[n - 1], steps[n - 1], encoding);
    }
  }

  /** A process just started runs with an open, empty channel, and has been heard of now; no other one changes. */
  lemma SpawnStarts(t: Table, role: Role)
    requires Numbered(t)
    ensures var (after, pid) := Spawn(t, role);
            && pid == t.nextPid && after.nextPid == pid + 1 && after.now == t.now
            && after.processes.Keys == t.processes.Keys + {pid}
            && (forall q <- t.processes :: after.processes[q] == t.processes[q])
            && var p := after.processes[pid];
               && p.role == role && p.state == Running && p.lastHeartbeat == t.now && IsIncarnation(pid, p)
               && !p.ipc.closed && p.ipc.sendQueue == [] && p.ipc.receiveQueue == []
               && p.ipc.sequence == 1 && p.ipc.lastReceived == 0
  {
  }

  /**
   * A command to a living process is queued under the channel's next number if the message has at most 4 MiB and the
   * queue less than a thousand entries. A refused one uses its number up; a closed channel keeps everything.
   */
  lemma CommandsAreQueued(c: Channel, command: Command, encoding: Encoding)
    ensures var (after, error) := Send(c, command, encoding);
            var m := Message(1, c.senderId, c.senderGeneration, c.targetId, c.targetGeneration, c.sequence, command);
            var fits := encoding(m) <= 4_194_304 && |c.sendQueue| < 1_000;
            && (error.None? <==> !c.closed && fits)
            && (c.closed ==> after == c)
            && (!c.closed ==> after.sequence == c.sequence + 1
                              && after.sendQueue == (if fits then c.sendQueue + [m] else c.sendQueue)
                              && after.(sequence := c.sequence, sendQueue := c.sendQueue) == c)
  {
  }

  /** Commands to no process, and to a crashed or terminated one, are refused and change nothing. */
  lemma OnlyTheLivingAreSent(t: Table, pid: nat, command: Command, encoding: Encoding)
    ensures var (after, error) := SendCommand(t, pid, command, encoding);
            if pid !in t.processes then error == Some(NotFound) && after == t
            else
              var p := t.processes[pid];
              if p.state == Crashed || p.state == Terminated then error == Some(NotAlive) && after == t
              else
                && after.processes.Keys == t.processes.Keys
                && (forall q <- t.processes :: q != pid ==> after.processes[q] == t.processes[q])
                && after.processes[pid] == p.(ipc := Send(p.ipc, command, encoding).0)
                && (error.None? <==> Send(p.ipc, command, encoding).1.None?)
  {
  }

  /** A tab shows its address and belongs to its process; the others stay as they are. */
  lemma TabIsRegistered(tabs: map<nat, Tab>, id: nat, url: string, pid: nat)
    ensures var after := RegisterTab(tabs, id, url, pid);
            && after.Keys == tabs.Keys + {id} && after[id].url == url && after[id].pid == pid
            && after[id].title == "Tab - " + url
            && forall other <- tabs :: other != id ==> after[other] == tabs[other]
  {
  }
}
