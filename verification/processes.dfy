/** The table of child processes, its watchdog, and the recovery of crashed processes. */
module Processes {
  import opened Ipc
  import opened MachineInts
  import opened Wrappers

  datatype Role = Browser | Renderer(origin: string) | Network | Media | Gpu

  datatype ProcessState = Spawning | Running | Unresponsive | Crashed | Terminated

  datatype Process = Process(role: Role, generation: nat, ipc: Channel, lastHeartbeat: nat, state: ProcessState)

  /** The logical table; a pid is never used twice, a generation saturates at the top of its 64 bits. */
  datatype Table = Table(processes: map<nat, Process>, nextPid: nat, nextGeneration: nat, now: nat)

  datatype ProcessError = NotFound | NotAlive | NotCrashed | Refused(error: IpcError)

  function NewProcess(t: Table, role: Role): (p: Process) {
    Process(role, t.nextGeneration, NewChannel(0, t.nextGeneration, t.nextPid, t.nextGeneration), t.now, Running)
  }

  function Spawn(t: Table, role: Role): (r: (Table, nat)) {
    (t.(processes := t.processes[t.nextPid := NewProcess(t, role)], nextPid := t.nextPid + 1,
        nextGeneration := SaturatingAdd(t.nextGeneration, 1)), t.nextPid)
  }

  function Update(t: Table, pid: nat, p: Process): (r: Table) {
    t.(processes := t.processes[pid := p])
  }

  function SendCommand(t: Table, pid: nat, command: Command, encoding: Encoding): (r: (Table, Option<ProcessError>)) {
    if pid !in t.processes then (t, Some(NotFound))
    else
      var p := t.processes[pid];
      if p.state == Crashed || p.state == Terminated then (t, Some(NotAlive))
      else
        var (ipc, error) := Send(p.ipc, command, encoding);
        (Update(t, pid, p.(ipc := ipc)), if error.Some? then Some(Refused(error.value)) else None)
  }

  function RecordHeartbeat(t: Table, pid: nat, now: nat): (r: Table) {
    if pid !in t.processes then t
    else
      var p := t.processes[pid];
      Update(t, pid, p.(lastHeartbeat := now, state := if p.state == Unresponsive then Running else p.state))
  }

  function AdvanceTime(t: Table, elapsed: nat): (r: Table) {
    t.(now := SaturatingAdd(t.now, elapsed))
  }

  /** What a crash does to one process: its channel closes and loses its queues. */
  function CrashedProcess(p: Process): (r: Process) {
    p.(state := Crashed, ipc := Close(p.ipc))
  }

  function Crash(t: Table, pid: nat): (r: (Table, bool)) {
    if pid in t.processes then (Update(t, pid, CrashedProcess(t.processes[pid])), true) else (t, false)
  }

  predicate Overdue(p: Process, now: nat, timeout: nat) {
    p.state == Running && SaturatingSub(now, p.lastHeartbeat) > timeout
  }

  /** One process after a watchdog pass: an exited child has crashed, an overdue one is unresponsive. */
  function Watched(p: Process, gone: bool, now: nat, timeout: nat): (r: Process) {
    var q := if gone then CrashedProcess(p) else p;
    if Overdue(q, now, timeout) then q.(state := Unresponsive) else q
  }

  /** `check_watchdog`, with the native children that have exited as an input. */
  function CheckWatchdog(t: Table, timeout: nat, exited: set<nat>): (r: (Table, set<nat>)) {
    (t.(processes := map pid | pid in t.processes :: Watched(t.processes[pid], pid in exited, t.now, timeout)),
     exited + set pid | pid in t.processes && Overdue(t.processes[pid], t.now, timeout))
  }

  /** The two passes of the watchdog. */
  function WithExited(processes: map<nat, Process>, exited: set<nat>): (r: map<nat, Process>) {
    map pid | pid in processes :: if pid in exited then CrashedProcess(processes[pid]) else processes[pid]
  }

  lemma ExitOne(processes: map<nat, Process>, gone: set<nat>, pid: nat)
    requires pid !in gone
    ensures var before := WithExited(processes, gone);
            WithExited(processes, gone + {pid})
            == if pid in before then before[pid := CrashedProcess(before[pid])] else before
  {
  }

  function WithOverdue(processes: map<nat, Process>, now: nat, timeout: nat): (r: map<nat, Process>) {
    map pid | pid in processes ::
      if Overdue(processes[pid], now, timeout) then processes[pid].(state := Unresponsive) else processes[pid]
  }

  function OverduePids(processes: map<nat, Process>, now: nat, timeout: nat): (r: set<nat>) {
    set pid | pid in processes && Overdue(processes[pid], now, timeout)
  }

  lemma WatchdogSplits(t: Table, timeout: nat, exited: set<nat>)
    ensures CheckWatchdog(t, timeout, exited)
            == (t.(processes := WithOverdue(WithExited(t.processes, exited), t.now, timeout)),
                exited + OverduePids(WithExited(t.processes, exited), t.now, timeout))
  {
    var crashed := WithExited(t.processes, exited);
    assert CheckWatchdog(t, timeout, exited).0.processes == WithOverdue(crashed, t.now, timeout);
    assert CheckWatchdog(t, timeout, exited).1 == exited + OverduePids(crashed, t.now, timeout);
  }

  /** The overdue pass while `unseen` is still to be visited. */
  ghost predicate OverdueMarked(was: map<nat, Process>, processes: map<nat, Process>, unseen: set<nat>, now: nat,
                                timeout: nat) {
    && processes.Keys == was.Keys
    && forall pid <- was ::
         processes[pid] == if pid in unseen then was[pid] else WithOverdue(was, now, timeout)[pid]
  }

  lemma OverdueMarkedStep(was: map<nat, Process>, processes: map<nat, Process>, unseen: set<nat>, pid: nat, now: nat,
                          timeout: nat)
    requires OverdueMarked(was, processes, unseen, now, timeout) && pid in unseen && pid in was
    ensures Overdue(processes[pid], now, timeout) <==> pid in OverduePids(was, now, timeout)
    ensures OverdueMarked(was, if Overdue(processes[pid], now, timeout)
                               then processes[pid := processes[pid].(state := Unresponsive)] else processes,
                          unseen - {pid}, now, timeout)
  {
  }

  lemma OverdueMarkedAll(was: map<nat, Process>, processes: map<nat, Process>, now: nat, timeout: nat)
    requires OverdueMarked(was, processes, {}, now, timeout)
    ensures processes == WithOverdue(was, now, timeout)
  {
  }

  /** The pids reported once only `unseen` is left to visit. */
  function Reported(already: set<nat>, overdue: set<nat>, unseen: set<nat>): (r: set<nat>) {
    already + (overdue - unseen)
  }

  lemma ReportStep(already: set<nat>, overdue: set<nat>, unseen: set<nat>, pid: nat)
    requires pid in unseen
    ensures Reported(already, overdue, unseen - {pid})
            == if pid in overdue then Reported(already, overdue, unseen) + {pid} else Reported(already, overdue, unseen)
  {
  }

  function Members(s: seq<nat>): (r: set<nat>) {
    set x | x in s
  }

  /** `s` lists the members of `r`, each once. */
  ghost predicate Lists(s: seq<nat>, r: set<nat>) {
    Members(s) == r && forall i, j :: 0 <= i < j < |s| ==> s[i] != s[j]
  }

  lemma ListsAppend(s: seq<nat>, x: nat)
    requires Lists(s, Members(s)) && x !in s
    ensures Lists(s + [x], Members(s) + {x})
  {
  }

  function Terminate(t: Table, pid: nat): (r: (Table, bool)) {
    (t.(processes := t.processes - {pid}), pid in t.processes)
  }

  /** The process table as the program runs it. */
  class ChildProcessManager {
    var processes: map<nat, Process>
    var nextPid: nat
    var nextGeneration: nat
    var now: nat

    constructor ()
      ensures State() == Table(map[], 1, 1, 0)
    {
      processes, nextPid, nextGeneration, now := map[], 1, 1, 0;
    }

    function State(): (t: Table)
      reads this
    {
      Table(processes, nextPid, nextGeneration, now)
    }

    method SpawnProcess(role: Role) returns (pid: nat)
      modifies this
      ensures (State(), pid) == Spawn(old(State()), role)
    {
      pid := nextPid;
      var child := NewProcess(State(), role);
      nextPid := nextPid + 1;
      nextGeneration := SaturatingAdd(nextGeneration, 1);
      processes := processes[pid := child];
    }

    method SendTo(pid: nat, command: Command, encoding: Encoding) returns (error: Option<ProcessError>)
      modifies this
      ensures (State(), error) == SendCommand(old(State()), pid, command, encoding)
    {
      if pid !in processes {
        return Some(NotFound);
      }
      var child := processes[pid];
      if child.state == Crashed || child.state == Terminated {
        return Some(NotAlive);
      }
      var (ipc, refused) := Send(child.ipc, command, encoding);
      processes := processes[pid := child.(ipc := ipc)];
      return if refused.Some? then Some(Refused(refused.value)) else None;
    }

    method Heartbeat(pid: nat, nowMs: nat)
      modifies this
      ensures State() == RecordHeartbeat(old(State()), pid, nowMs)
    {
      if pid in processes {
        var child := processes[pid].(lastHeartbeat := nowMs);
        if child.state == Unresponsive {
          child := child.(state := Running);
        }
        processes := processes[pid := child];
      }
    }

    method MarkExited(exited: set<nat>) returns (reported: seq<nat>)
      modifies this
      ensures State() == old(State()).(processes := WithExited(old(processes), exited))
      ensures Lists(reported, exited)
    {
      reported := [];
      var left := exited;
      while left != {}
        invariant left <= exited && State() == old(State()).(processes := processes)
        invariant Lists(reported, exited - left)
        invariant processes == WithExited(old(processes), exited - left)
        decreases |left|
      {
        var pid :| pid in left;
        ExitOne(old(processes), exited - left, pid);
        assert exited - (left - {pid}) == (exited - left) + {pid};
        left := left - {pid};
        if pid in processes {
          processes := processes[pid := CrashedProcess(processes[pid])];
        }
        ListsAppend(reported, pid);
        reported := reported + [pid];
      }
      assert exited - {} == exited;
    }

    static method ReportOnce(reported: seq<nat>, pid: nat, ghost members: set<nat>) returns (r: seq<nat>)
      requires Lists(reported, members)
      ensures Lists(r, members + {pid})
    {
      if pid in reported {
        assert members + {pid} == members;
        return reported;
      }
      ListsAppend(reported, pid);
      return reported + [pid];
    }

    method MarkOverdue(timeout: nat, already: seq<nat>) returns (reported: seq<nat>)
      requires Lists(already, Members(already))
      modifies this
      ensures State() == old(State()).(processes := WithOverdue(old(processes), now, timeout))
      ensures Lists(reported, Members(already) + OverduePids(old(processes), now, timeout))
    {
      reported := already;
      ghost var was, overdue := processes, OverduePids(processes, now, timeout);
      var unseen := processes.Keys;
      assert Reported(Members(already), overdue, unseen) == Members(already);
      while unseen != {}
        invariant unseen <= was.Keys && State() == old(State()).(processes := processes)
        invariant Lists(reported, Reported(Members(already), overdue, unseen))
        invariant OverdueMarked(was, processes, unseen, now, timeout)
        decreases |unseen|
      {
        var pid :| pid in unseen;
        OverdueMarkedStep(was, processes, unseen, pid, now, timeout);
        ReportStep(Members(already), overdue, unseen, pid);
        ghost var members := Reported(Members(already), overdue, unseen);
        unseen := unseen - {pid};
        if Overdue(processes[pid], now, timeout) {
          reported := ReportOnce(reported, pid, members);
          processes := processes[pid := processes[pid].(state := Unresponsive)];
        }
      }
      assert Reported(Members(already), overdue, {}) == Members(already) + overdue;
      OverdueMarkedAll(was, processes, now, timeout);
    }

    /** Exited children first, then the overdue ones; no pid is reported twice. */
    method Watchdog(timeout: nat, exited: set<nat>) returns (reported: seq<nat>)
      modifies this
      ensures State() == CheckWatchdog(old(State()), timeout, exited).0
      ensures Lists(reported, CheckWatchdog(old(State()), timeout, exited).1)
    {
      reported := MarkExited(exited);
      reported := MarkOverdue(timeout, reported);
      WatchdogSplits(old(State()), timeout, exited);
    }

    method TerminateProcess(pid: nat) returns (found: bool)
      modifies this
      ensures (State(), found) == Terminate(old(State()), pid)
    {
      found := pid in processes;
      processes := processes - {pid};
    }
  }

  // ---- Crash recovery -------------------------------------------------------------------

  datatype Tab = Tab(url: string, title: string, pid: nat)

  function RegisterTab(tabs: map<nat, Tab>, tabId: nat, url: string, pid: nat): (r: map<nat, Tab>) {
    tabs[tabId := Tab(url, "Tab - " + url, pid)]
  }

  function MoveTabs(tabs: map<nat, Tab>, from: nat, to: nat): (r: map<nat, Tab>) {
    map id | id in tabs :: if tabs[id].pid == from then tabs[id].(pid := to) else tabs[id]
  }

  /** Only a crashed process is recovered: its entry goes, a successor of the same role takes over its tabs. */
  function Recover(t: Table, tabs: map<nat, Tab>, count: nat, pid: nat)
    : (r: (Table, map<nat, Tab>, nat, Result<nat, ProcessError>))
  {
    if pid !in t.processes then (t, tabs, count, Err(NotFound))
    else if t.processes[pid].state != Crashed then (t, tabs, count, Err(NotCrashed))
    else
      var (next, newPid) := Spawn(Terminate(t, pid).0, t.processes[pid].role);
      (next, MoveTabs(tabs, pid, newPid), count + 1, Ok(newPid))
  }

  class CrashRecoveryEngine {
    var tabs: map<nat, Tab>
    var recoveryCount: nat

    constructor ()
      ensures tabs == map[] && recoveryCount == 0
    {
      tabs, recoveryCount := map[], 0;
    }

    method Register(tabId: nat, url: string, pid: nat)
      modifies this
      ensures tabs == RegisterTab(old(tabs), tabId, url, pid) && recoveryCount == old(recoveryCount)
    {
      tabs := tabs[tabId := Tab(url, "Tab - " + url, pid)];
    }

    method InjectFaultCrash(manager: ChildProcessManager, pid: nat) returns (found: bool)
      modifies manager
      ensures (manager.State(), found) == Crash(old(manager.State()), pid)
    {
      found := pid in manager.processes;
      if found {
        manager.processes := manager.processes[pid := CrashedProcess(manager.processes[pid])];
      }
    }

    method RecoverProcess(manager: ChildProcessManager, pid: nat) returns (r: Result<nat, ProcessError>)
      modifies this, manager
      ensures (manager.State(), tabs, recoveryCount, r)
              == Recover(old(manager.State()), old(tabs), old(recoveryCount), pid)
    {
      if pid !in manager.processes {
        return Err(NotFound);
      }
      var child := manager.processes[pid];
      if child.state != Crashed {
        return Err(NotCrashed);
      }
      var _ := manager.TerminateProcess(pid);
      var newPid := manager.SpawnProcess(child.role);
      var left := tabs.Keys;
      while left != {}
        invariant left <= tabs.Keys == old(tabs).Keys
        invariant forall id <- tabs ::
                    tabs[id] == if id !in left then MoveTabs(old(tabs), pid, newPid)[id] else old(tabs)[id]
        invariant recoveryCount == old(recoveryCount)
        invariant manager.State() == Spawn(Terminate(old(manager.State()), pid).0, child.role).0
        decreases |left|
      {
        var id :| id in left;
        left := left - {id};
        if tabs[id].pid == pid {
          tabs := tabs[id := tabs[id].(pid := newPid)];
        }
      }
      assert tabs == MoveTabs(old(tabs), pid, newPid);
      recoveryCount := recoveryCount + 1;
      return Ok(newPid);
    }
  }
}
