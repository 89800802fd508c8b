/**
 * Whole runs of the process protocol: processes are spawned, crash and are recovered while a network
 * that may drop, duplicate and reorder carries their messages.
 */
module IpcProtocol {
  import opened Ipc
  import opened Processes
  import opened Wrappers

  /** What one incarnation has sent, accepted and handed on, in order. */
  datatype Log = Log(sent: seq<Message>, accepted: seq<Message>, received: seq<Message>)

  /**
   * The network only ever grows: delivering a message leaves it there to be delivered again, in any
   * order, or never. Logs outlive their processes.
   */
  datatype World = World(
    table: Table, tabs: map<nat, Tab>, recoveries: nat, network: set<Message>, logs: map<nat, Log>)

  datatype Step =
    | SpawnStep(role: Role)
    | SendStep(pid: nat, command: Command)
    | TransmitStep(pid: nat, index: nat)
    | DeliverStep(pid: nat, message: Message)
    | ReceiveStep(pid: nat)
    | HeartbeatStep(pid: nat, at: nat)
    | TimeStep(elapsed: nat)
    | WatchdogStep(timeout: nat, exited: set<nat>)
    | CrashStep(pid: nat)
    | RecoverStep(pid: nat)
    | TerminateStep(pid: nat)
    | RegisterStep(tabId: nat, url: string, pid: nat)

  function Init(): (w: World) {
    World(Table(map[], 1, 1, 0), map[], 0, {}, map[])
  }

  function WithChannel(w: World, pid: nat, c: Channel): (r: World)
    requires pid in w.table.processes
  {
    w.(table := Update(w.table, pid, w.table.processes[pid].(ipc := c)))
  }

  function WithLog(w: World, pid: nat, log: Log): (r: World) {
    w.(logs := w.logs[pid := log])
  }

  function DoSpawn(w: World, role: Role): (r: World) {
    w.(table := Spawn(w.table, role).0, logs := w.logs[w.table.nextPid := Log([], [], [])])
  }

  function DoSend(w: World, pid: nat, command: Command, encoding: Encoding): (r: World) {
    var (table, error) := SendCommand(w.table, pid, command, encoding);
    if error.Some? || pid !in w.table.processes || pid !in w.logs then w.(table := table)
    else
      var message := NextMessage(w.table.processes[pid].ipc, command);
      w.(table := table, logs := w.logs[pid := w.logs[pid].(sent := w.logs[pid].sent + [message])])
  }

  /** The browser hands any one message of a send queue to the network. */
  function DoTransmit(w: World, pid: nat, index: nat): (r: World) {
    if pid !in w.table.processes || index >= |w.table.processes[pid].ipc.sendQueue| then w
    else
      var c := w.table.processes[pid].ipc;
      WithChannel(w, pid, c.(sendQueue := c.sendQueue[..index] + c.sendQueue[index + 1..]))
        .(network := w.network + {c.sendQueue[index]})
  }

  /** The network offers a message it carries to any process at all. */
  function DoDeliver(w: World, pid: nat, message: Message): (r: World) {
    if pid !in w.table.processes || pid !in w.logs || message !in w.network then w
    else
      var (c, error) := Deliver(w.table.processes[pid].ipc, message);
      if error.Some? then w
      else WithLog(WithChannel(w, pid, c), pid, w.logs[pid].(accepted := w.logs[pid].accepted + [message]))
  }

  function DoReceive(w: World, pid: nat): (r: World) {
    if pid !in w.table.processes || pid !in w.logs then w
    else
      var (c, message) := Receive(w.table.processes[pid].ipc);
      if message.None? then w
      else WithLog(WithChannel(w, pid, c), pid, w.logs[pid].(received := w.logs[pid].received + [message.value]))
  }

  function DoRecover(w: World, pid: nat): (r: World) {
    var (table, tabs, recoveries, answer) := Recover(w.table, w.tabs, w.recoveries, pid);
    if answer.Err? then w
    else w.(table := table, tabs := tabs, recoveries := recoveries, logs := w.logs[answer.value := Log([], [], [])])
  }

  function Next(w: World, step: Step, encoding: Encoding): (r: World) {
    match step
    case SpawnStep(role) => DoSpawn(w, role)
    case SendStep(pid, command) => DoSend(w, pid, command, encoding)
    case TransmitStep(pid, index) => DoTransmit(w, pid, index)
    case DeliverStep(pid, message) => DoDeliver(w, pid, message)
    case ReceiveStep(pid) => DoReceive(w, pid)
    case HeartbeatStep(pid, at) => w.(table := RecordHeartbeat(w.table, pid, at))
    case TimeStep(elapsed) => w.(table := AdvanceTime(w.table, elapsed))
    case WatchdogStep(timeout, exited) => w.(table := CheckWatchdog(w.table, timeout, exited).0)
    case CrashStep(pid) => w.(table := Crash(w.table, pid).0)
    case RecoverStep(pid) => DoRecover(w, pid)
    case TerminateStep(pid) => w.(table := Terminate(w.table, pid).0)
    case RegisterStep(tabId, url, pid) => w.(tabs := RegisterTab(w.tabs, tabId, url, pid))
  }

  // ---- Invariant ------------------------------------------------------------------------

  ghost predicate Increasing(s: seq<Message>) {
    forall i, j :: 0 <= i < j < |s| ==> s[i].sequence < s[j].sequence
  }

  /** A log, whether its process still lives or not. */
  ghost predicate LogOk(pid: nat, log: Log) {
    && Increasing(log.sent) && Increasing(log.accepted)
    && (forall m <- log.sent :: m.targetId == pid)
    && (forall m <- log.accepted :: m in log.sent)
    && log.received <= log.accepted
  }

  /** A process is crashed exactly when its channel is closed, and then its queues are empty. */
  ghost predicate StateOk(p: Process) {
    && (p.state == Crashed <==> p.ipc.closed)
    && (p.ipc.closed ==> p.ipc.sendQueue == [] && p.ipc.receiveQueue == [])
  }

  ghost predicate ChannelOk(pid: nat, p: Process) {
    && p.ipc.senderId == 0 && p.ipc.targetId == pid
    && p.ipc.senderGeneration == p.ipc.targetGeneration == p.generation
  }

  predicate FromChannel(p: Process, m: Message) {
    m.version == IPC_VERSION && m.senderId == 0 && m.senderGeneration == m.targetGeneration == p.generation
  }

  function LastSequence(s: seq<Message>): (n: nat) {
    if s == [] then 0 else s[|s| - 1].sequence
  }

  /** A living process and its log. */
  ghost predicate LiveOk(pid: nat, p: Process, log: Log) {
    && ChannelOk(pid, p) && StateOk(p)
    && (forall m <- log.sent :: m.sequence < p.ipc.sequence && FromChannel(p, m))
    && (forall m <- p.ipc.sendQueue :: m in log.sent)
    && p.ipc.lastReceived == LastSequence(log.accepted)
    && (!p.ipc.closed ==> log.received + p.ipc.receiveQueue == log.accepted)
  }

  ghost predicate Inv(w: World) {
    && (forall pid <- w.logs :: pid < w.table.nextPid && LogOk(pid, w.logs[pid]))
    && (forall pid <- w.table.processes :: pid in w.logs && LiveOk(pid, w.table.processes[pid], w.logs[pid]))
    && (forall m <- w.network :: m.targetId in w.logs && m in w.logs[m.targetId].sent)
  }

  /** The world with one process's channel, its log and the network replaced. */
  function Replace(w: World, pid: nat, c: Channel, log: Log, network: set<Message>): (r: World)
    requires pid in w.table.processes
  {
    WithLog(WithChannel(w, pid, c), pid, log).(network := network)
  }

  /** Steps that touch one process and its log, and only add to what was sent. */
  lemma OneProcess(w: World, pid: nat, c: Channel, log: Log, network: set<Message>)
    requires Inv(w) && pid in w.table.processes
    requires LogOk(pid, log) && LiveOk(pid, w.table.processes[pid].(ipc := c), log)
    requires forall m <- w.logs[pid].sent :: m in log.sent
    requires forall m <- network :: m in w.network || (m.targetId == pid && m in log.sent)
    ensures Inv(Replace(w, pid, c, log, network))
  {
  }

  /** One process and its log after a send. */
  lemma SendKeepsProcess(pid: nat, p: Process, log: Log, command: Command, encoding: Encoding)
    requires LogOk(pid, log) && LiveOk(pid, p, log) && !p.ipc.closed
    ensures var grown := SentLog(p, log, command, encoding);
            LogOk(pid, grown) && LiveOk(pid, p.(ipc := Send(p.ipc, command, encoding).0), grown)
  {
  }

  function SentLog(p: Process, log: Log, command: Command, encoding: Encoding): (r: Log) {
    if Send(p.ipc, command, encoding).1.None? then log.(sent := log.sent + [NextMessage(p.ipc, command)]) else log
  }

  lemma SendReplaces(w: World, pid: nat, command: Command, encoding: Encoding)
    requires pid in w.table.processes && pid in w.logs
    requires w.table.processes[pid].state != Crashed && w.table.processes[pid].state != Terminated
    ensures var p := w.table.processes[pid];
            DoSend(w, pid, command, encoding)
            == Replace(w, pid, Send(p.ipc, command, encoding).0, SentLog(p, w.logs[pid], command, encoding), w.network)
  {
    assert w.logs[pid := w.logs[pid]] == w.logs;
  }

  lemma SendKeeps(w: World, pid: nat, command: Command, encoding: Encoding)
    requires Inv(w)
    ensures Inv(DoSend(w, pid, command, encoding))
  {
    if pid in w.table.processes && w.table.processes[pid].state != Crashed
       && w.table.processes[pid].state != Terminated {
      var p, log := w.table.processes[pid], w.logs[pid];
      SendKeepsProcess(pid, p, log, command, encoding);
      SendReplaces(w, pid, command, encoding);
      OneProcess(w, pid, Send(p.ipc, command, encoding).0, SentLog(p, log, command, encoding), w.network);
    }
  }

  /** One process after a message of its send queue has left. */
  lemma TransmitKeepsProcess(pid: nat, p: Process, log: Log, index: nat)
    requires LiveOk(pid, p, log) && index < |p.ipc.sendQueue|
    ensures p.ipc.sendQueue[index] in log.sent
    ensures LiveOk(pid, p.(ipc := p.ipc.(sendQueue := p.ipc.sendQueue[..index] + p.ipc.sendQueue[index + 1..])), log)
  {
    var queue := p.ipc.sendQueue;
    assert queue[index] in queue;
    assert forall m :: m in queue[..index] + queue[index + 1..] ==> m in queue;
  }

  lemma TransmitReplaces(w: World, pid: nat, index: nat)
    requires pid in w.table.processes && pid in w.logs && index < |w.table.processes[pid].ipc.sendQueue|
    ensures var c := w.table.processes[pid].ipc;
            DoTransmit(w, pid, index)
            == Replace(w, pid, c.(sendQueue := c.sendQueue[..index] + c.sendQueue[index + 1..]), w.logs[pid],
                       w.network + {c.sendQueue[index]})
  {
    assert w.logs[pid := w.logs[pid]] == w.logs;
  }

  lemma TransmitKeeps(w: World, pid: nat, index: nat)
    requires Inv(w)
    ensures Inv(DoTransmit(w, pid, index))
  {
    if pid in w.table.processes && index < |w.table.processes[pid].ipc.sendQueue| {
      var c, log := w.table.processes[pid].ipc, w.logs[pid];
      var sent := c.(sendQueue := c.sendQueue[..index] + c.sendQueue[index + 1..]);
      TransmitKeepsProcess(pid, w.table.processes[pid], log, index);
      TransmitReplaces(w, pid, index);
      OneProcess(w, pid, sent, log, w.network + {c.sendQueue[index]});
    }
  }

  /** A message the network carries is accepted only by the incarnation that sent it. */
  lemma AcceptedWasSentHere(w: World, pid: nat, message: Message)
    requires Inv(w) && pid in w.table.processes && message in w.network
    requires DeliverError(w.table.processes[pid].ipc, message).None?
    ensures message.targetId == pid && message in w.logs[pid].sent
  {
  }

  /** One process and its log after an accepted message of its own. */
  lemma DeliverKeepsProcess(pid: nat, p: Process, log: Log, message: Message)
    requires LogOk(pid, log) && LiveOk(pid, p, log) && message in log.sent && DeliverError(p.ipc, message).None?
    ensures var grown := log.(accepted := log.accepted + [message]);
            LogOk(pid, grown) && LiveOk(pid, p.(ipc := Deliver(p.ipc, message).0), grown)
  {
    assert log.received + (p.ipc.receiveQueue + [message]) == (log.received + p.ipc.receiveQueue) + [message];
  }

  lemma DeliverKeeps(w: World, pid: nat, message: Message)
    requires Inv(w)
    ensures Inv(DoDeliver(w, pid, message))
  {
    if pid in w.table.processes && message in w.network
       && DeliverError(w.table.processes[pid].ipc, message).None? {
      AcceptedWasSentHere(w, pid, message);
      DeliverKeepsProcess(pid, w.table.processes[pid], w.logs[pid], message);
      var p, log := w.table.processes[pid], w.logs[pid];
      OneProcess(w, pid, Deliver(p.ipc, message).0, log.(accepted := log.accepted + [message]), w.network);
    }
  }

  /** One process and its log after handing a message on. */
  lemma ReceiveKeepsProcess(pid: nat, p: Process, log: Log)
    requires LogOk(pid, log) && LiveOk(pid, p, log) && Receive(p.ipc).1.Some?
    ensures p.ipc.receiveQueue != []
    ensures var grown := log.(received := log.received + [p.ipc.receiveQueue[0]]);
            LogOk(pid, grown) && LiveOk(pid, p.(ipc := Receive(p.ipc).0), grown)
  {
    var queue := p.ipc.receiveQueue;
    assert log.received + queue == (log.received + [queue[0]]) + queue[1..];
  }

  lemma ReceiveKeeps(w: World, pid: nat)
    requires Inv(w)
    ensures Inv(DoReceive(w, pid))
  {
    if pid in w.table.processes && Receive(w.table.processes[pid].ipc).1.Some? {
      var c, log := w.table.processes[pid].ipc, w.logs[pid];
      ReceiveKeepsProcess(pid, w.table.processes[pid], log);
      OneProcess(w, pid, Receive(c).0, log.(received := log.received + [c.receiveQueue[0]]), w.network);
    }
  }

  /** What a heartbeat, a watchdog pass or a crash may do to a process keeps it consistent with its log. */
  lemma ProcessKeeps(pid: nat, p: Process, log: Log, at: nat, gone: bool, now: nat, timeout: nat)
    requires LiveOk(pid, p, log)
    ensures LiveOk(pid, p.(lastHeartbeat := at, state := if p.state == Unresponsive then Running else p.state), log)
    ensures LiveOk(pid, CrashedProcess(p), log)
    ensures LiveOk(pid, Watched(p, gone, now, timeout), log)
  {
  }

  lemma TableKeeps(w: World, table: Table)
    requires Inv(w) && table.nextPid == w.table.nextPid && table.processes.Keys <= w.table.processes.Keys
    requires forall pid <- table.processes :: LiveOk(pid, table.processes[pid], w.logs[pid])
    ensures Inv(w.(table := table))
  {
  }

  lemma WatchdogKeeps(w: World, timeout: nat, exited: set<nat>)
    requires Inv(w)
    ensures Inv(w.(table := CheckWatchdog(w.table, timeout, exited).0))
  {
    forall pid | pid in w.table.processes
      ensures LiveOk(pid, Watched(w.table.processes[pid], pid in exited, w.table.now, timeout), w.logs[pid])
    {
      ProcessKeeps(pid, w.table.processes[pid], w.logs[pid], 0, pid in exited, w.table.now, timeout);
    }
    TableKeeps(w, CheckWatchdog(w.table, timeout, exited).0);
  }

  lemma CrashKeeps(w: World, pid: nat)
    requires Inv(w)
    ensures Inv(w.(table := Crash(w.table, pid).0))
  {
    if pid in w.table.processes {
      ProcessKeeps(pid, w.table.processes[pid], w.logs[pid], 0, false, 0, 0);
      TableKeeps(w, Crash(w.table, pid).0);
    }
  }

  lemma HeartbeatKeeps(w: World, pid: nat, at: nat)
    requires Inv(w)
    ensures Inv(w.(table := RecordHeartbeat(w.table, pid, at)))
  {
    if pid in w.table.processes {
      ProcessKeeps(pid, w.table.processes[pid], w.logs[pid], at, false, 0, 0);
      TableKeeps(w, RecordHeartbeat(w.table, pid, at));
    }
  }

  lemma SpawnKeeps(w: World, role: Role)
    requires Inv(w)
    ensures Inv(DoSpawn(w, role))
  {
    assert w.table.nextPid !in w.logs;
  }

  lemma RecoverKeeps(w: World, pid: nat)
    requires Inv(w)
    ensures Inv(DoRecover(w, pid))
  {
    if pid in w.table.processes && w.table.processes[pid].state == Crashed {
      TableKeeps(w, Terminate(w.table, pid).0);
      var without := w.(table := Terminate(w.table, pid).0);
      var role := w.table.processes[pid].role;
      SpawnKeeps(without, role);
      assert DoRecover(w, pid)
          == DoSpawn(without, role).(tabs := MoveTabs(w.tabs, pid, w.table.nextPid), recoveries := w.recoveries + 1);
    }
  }

  lemma NextKeepsInv(w: World, step: Step, encoding: Encoding)
    requires Inv(w)
    ensures Inv(Next(w, step, encoding))
  {
    match step
    case SpawnStep(role) => SpawnKeeps(w, role);
    case SendStep(pid, command) => SendKeeps(w, pid, command, encoding);
    case TransmitStep(pid, index) => TransmitKeeps(w, pid, index);
    case DeliverStep(pid, message) => DeliverKeeps(w, pid, message);
    case ReceiveStep(pid) => ReceiveKeeps(w, pid);
    case HeartbeatStep(pid, at) => HeartbeatKeeps(w, pid, at);
    case TimeStep(elapsed) => TableKeeps(w, AdvanceTime(w.table, elapsed));
    case WatchdogStep(timeout, exited) => WatchdogKeeps(w, timeout, exited);
    case CrashStep(pid) => CrashKeeps(w, pid);
    case RecoverStep(pid) => RecoverKeeps(w, pid);
    case TerminateStep(pid) => TableKeeps(w, Terminate(w.table, pid).0);
    case RegisterStep(tabId, url, pid) =>
  }

  // ---- Runs -----------------------------------------------------------------------------

  ghost predicate IsStep(before: World, step: Step, after: World, encoding: Encoding) {
    after == Next(before, step, encoding)
  }

  /** A run from the empty world: `trace[i]` is the world before step `i`. */
  ghost predicate IsRun(trace: seq<World>, steps: seq<Step>, encoding: Encoding) {
    && |trace| == |steps| + 1 && trace[0] == Init()
    && forall i :: 0 <= i < |steps| ==> IsStep(trace[i], steps[i], trace[i + 1], encoding)
  }

  lemma {:induction false} RunKeepsInv(trace: seq<World>, steps: seq<Step>, n: nat, encoding: Encoding)
    requires IsRun(trace, steps, encoding) && n <= |steps|
    ensures Inv(trace[n])
  {
    if n > 0 {
      RunKeepsInv(trace, steps, n - 1, encoding);
      assert IsStep(trace[n - 1], steps[n - 1], trace[n], encoding);
      NextKeepsInv(trace[n - 1], steps[n - 1], encoding);
    }
  }

  /** `at` picks out of `whole`, in increasing positions, exactly `part`. */
  ghost predicate Embeds(part: seq<Message>, whole: seq<Message>, at: seq<nat>) {
    && |at| == |part|
    && (forall i :: 0 <= i < |at| ==> at[i] < |whole| && whole[at[i]] == part[i])
    && (forall i, j :: 0 <= i < j < |at| ==> at[i] < at[j])
  }

  lemma {:induction false} IncreasingEmbeds(part: seq<Message>, whole: seq<Message>) returns (at: seq<nat>)
    requires Increasing(part) && Increasing(whole)
    requires forall m <- part :: m in whole
    ensures Embeds(part, whole, at)
  {
    if part == [] {
      at := [];
    } else {
      var front := part[..|part| - 1];
      var last := part[|part| - 1];
      at := IncreasingEmbeds(front, whole);
      assert last in part;
      var k: nat :| k < |whole| && whole[k] == last;
      forall i | 0 <= i < |at| ensures at[i] < k {
        assert front[i] == part[i] && whole[at[i]].sequence < whole[k].sequence;
      }
      at := at + [k];
    }
  }

  /**
   * For every run over a dropping, duplicating and reordering network, and every incarnation, living
   * or gone: what it accepted is a subsequence of what was sent to that incarnation, so each message
   * at most once and in order, and what it handed on is a prefix of that.
   */
  lemma AcceptedIsSubsequenceOfSent(trace: seq<World>, steps: seq<Step>, n: nat, pid: nat, encoding: Encoding)
    returns (at: seq<nat>)
    requires IsRun(trace, steps, encoding) && n <= |steps| && pid in trace[n].logs
    ensures Embeds(trace[n].logs[pid].accepted, trace[n].logs[pid].sent, at)
    ensures trace[n].logs[pid].received <= trace[n].logs[pid].accepted
    ensures forall m <- trace[n].logs[pid].accepted :: m.targetId == pid
  {
    RunKeepsInv(trace, steps, n, encoding);
    at := IncreasingEmbeds(trace[n].logs[pid].accepted, trace[n].logs[pid].sent);
  }

  /** For every run: a process is crashed exactly when its channel is closed, and then both queues are empty. */
  lemma CrashedMeansClosed(trace: seq<World>, steps: seq<Step>, n: nat, pid: nat, encoding: Encoding)
    requires IsRun(trace, steps, encoding) && n <= |steps| && pid in trace[n].table.processes
    ensures var p := trace[n].table.processes[pid];
            p.state == Crashed <==> p.ipc.closed && p.ipc.sendQueue == [] && p.ipc.receiveQueue == []
  {
    RunKeepsInv(trace, steps, n, encoding);
  }

  /**
   * For every run, recovering a crashed process starts a new incarnation under an unused pid with the
   * same role and moves exactly its tabs; no message ever sent to another incarnation, the old one
   * included, is accepted by the new one.
   */
  lemma RecoveryReplaces(trace: seq<World>, steps: seq<Step>, n: nat, pid: nat, encoding: Encoding)
    requires IsRun(trace, steps, encoding) && n < |steps| && steps[n] == RecoverStep(pid)
    requires pid in trace[n].table.processes && trace[n].table.processes[pid].state == Crashed
    ensures var before, after, newPid := trace[n], trace[n + 1], trace[n].table.nextPid;
            && newPid != pid && newPid !in before.logs
            && after.table.processes.Keys == before.table.processes.Keys - {pid} + {newPid}
            && after.table.processes[newPid].role == before.table.processes[pid].role
            && after.table.processes[newPid].state == Running
            && (forall q <- before.table.processes :: q != pid ==> after.table.processes[q] == before.table.processes[q])
            && after.recoveries == before.recoveries + 1
    ensures var before, after, newPid := trace[n], trace[n + 1], trace[n].table.nextPid;
            && after.tabs.Keys == before.tabs.Keys
            && forall id <- before.tabs ::
                 after.tabs[id] == if before.tabs[id].pid == pid then before.tabs[id].(pid := newPid) else before.tabs[id]
  {
    RunKeepsInv(trace, steps, n, encoding);
    assert IsStep(trace[n], steps[n], trace[n + 1], encoding);
  }

  /** A channel accepts a message of its own incarnation exactly when it is open, has room and accepted nothing as new. */
  lemma AcceptsItsOwn(pid: nat, p: Process, log: Log, message: Message)
    requires LiveOk(pid, p, log) && message in log.sent && message.targetId == pid
    ensures DeliverError(p.ipc, message).None?
            <==> p.state != Crashed && |p.ipc.receiveQueue| < MAX_QUEUE && message.sequence > LastSequence(log.accepted)
  {
  }

  lemma AcceptsExactly(w: World, pid: nat, message: Message)
    requires Inv(w) && pid in w.table.processes && message in w.network
    ensures var p := w.table.processes[pid];
            DeliverError(p.ipc, message).None?
            <==> message.targetId == pid && p.state != Crashed && |p.ipc.receiveQueue| < MAX_QUEUE
                 && message.sequence > LastSequence(w.logs[pid].accepted)
  {
    if message.targetId == pid {
      AcceptsItsOwn(pid, w.table.processes[pid], w.logs[pid], message);
    } else if DeliverError(w.table.processes[pid].ipc, message).None? {
      AcceptedWasSentHere(w, pid, message);
    }
  }

  lemma DeliveryDecides(w: World, pid: nat, message: Message)
    requires Inv(w) && pid in w.table.processes && message in w.network
    ensures message.targetId in w.logs && message in w.logs[message.targetId].sent && pid in w.logs
    ensures var p, accepted := w.table.processes[pid], w.logs[pid].accepted;
            if message.targetId == pid && p.state != Crashed && |p.ipc.receiveQueue| < MAX_QUEUE
               && message.sequence > LastSequence(accepted)
            then pid in DoDeliver(w, pid, message).logs
                 && DoDeliver(w, pid, message).logs[pid].accepted == accepted + [message]
            else DoDeliver(w, pid, message) == w
  {
    AcceptsExactly(w, pid, message);
  }

  /**
   * At any point of any run, a message the network carries was sent to some incarnation, and a process
   * accepts it if and only if it is that incarnation, has not crashed, has room in its queue, and has
   * accepted nothing as new; a refusal changes nothing. So an old generation's messages never reach
   * its replacement.
   */
  lemma AcceptsExactlyItsOwn(trace: seq<World>, steps: seq<Step>, n: nat, pid: nat, message: Message, encoding: Encoding)
    requires IsRun(trace, steps, encoding) && n <= |steps|
    requires pid in trace[n].table.processes && message in trace[n].network
    ensures message.targetId in trace[n].logs && message in trace[n].logs[message.targetId].sent
    ensures pid in trace[n].logs
    ensures var p, accepted := trace[n].table.processes[pid], trace[n].logs[pid].accepted;
            var after := Next(trace[n], DeliverStep(pid, message), encoding);
            if message.targetId == pid && p.state != Crashed && |p.ipc.receiveQueue| < MAX_QUEUE
               && message.sequence > LastSequence(accepted)
            then pid in after.logs && after.logs[pid].accepted == accepted + [message]
            else after == trace[n]
  {
    RunKeepsInv(trace, steps, n, encoding);
    DeliveryDecides(trace[n], pid, message);
  }
}
