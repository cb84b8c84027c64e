/** Who may run the loop: a claim in a file, judged by the claimant's process and then by
    its expiry (src/scheduler/lease.py, src/config/loop_state.py). */
module Leases {
  import opened Prelude

  const LEASE_GRACE_SECONDS := 300

  /** The claim as stored. Times are seconds; a pid of `None` cannot be read as a number. */
  datatype Record = Record(
    pid: Option<int>, host: string, started: int, heartbeat: int, nextWake: Option<int>, expires: Option<int>,
    strategy: string)

  /** The holder's own copy of its claim. */
  datatype Lease = Lease(pid: int, host: string, record: Record)

  function GraceEnd(moment: int): int {
    moment + LEASE_GRACE_SECONDS
  }

  predicate IsExpired(record: Record, at: int) {
    record.expires.None? || at >= record.expires.value
  }

  /** Whether a pid is running here: yes, no, or the question cannot be asked. */
  type Probe = int -> Option<bool>

  function Alive(probe: Probe, pid: Option<int>): Option<bool> {
    if pid.None? || pid.value <= 0 then None else probe(pid.value)
  }

  /** The live holder, or nobody. The process outranks the clock on this host, and only the
      clock can speak for another one. */
  function Holder(file: Option<Record>, host: string, probe: Probe, at: int): Option<Record> {
    match file
    case None => None
    case Some(record) =>
      if record.host != "" && host != "" && record.host != host then
        if IsExpired(record, at) then None else Some(record)
      else
        match Alive(probe, record.pid)
        case Some(true) => Some(record)
        case Some(false) => None
        case None => if IsExpired(record, at) then None else Some(record)
  }

  function Claim(pid: int, host: string, strategy: string, at: int): Record {
    Record(Some(pid), host, at, at, None, Some(GraceEnd(at)), strategy)
  }

  function Renewed(lease: Lease, nextWake: Option<int>, at: int): Record {
    lease.record.(pid := Some(lease.pid), host := lease.host, heartbeat := at, nextWake := nextWake,
                  expires := Some(GraceEnd(if nextWake.Some? then nextWake.value else at)))
  }

  /** What a release leaves in the file: somebody else's claim, or nothing. */
  function Released(file: Option<Record>, lease: Lease): Option<Record> {
    if file.Some? && (if file.value.pid.Some? then file.value.pid.value else 0) != lease.pid then file else None
  }

  /** The lock file, as the processes that share it see it. */
  class LeaseFile {
    var record: Option<Record>

    /** Claim the loop, or report who has it. */
    method Acquire(pid: int, host: string, strategy: string, probe: Probe, at: int)
      returns (lease: Option<Lease>, blocker: Option<Record>)
      modifies this
      ensures blocker == Holder(old(record), host, probe, at)
      ensures blocker.Some? ==> lease.None? && record == old(record)
      ensures blocker.None? ==> record == Some(Claim(pid, host, strategy, at)) && lease == Some(Lease(pid, host, record.value))
    {
      blocker := Holder(record, host, probe, at);
      if blocker.Some? {
        return None, blocker;
      }
      var claim := Claim(pid, host, strategy, at);
      record := Some(claim);
      lease := Some(Lease(pid, host, claim));
    }

    /** Say this process is alive and when it will next do something. */
    method Refresh(lease: Lease, nextWake: Option<int>, at: int)
      modifies this
      ensures record == Some(Renewed(lease, nextWake, at))
    {
      record := Some(Renewed(lease, nextWake, at));
    }

    method Release(lease: Lease)
      modifies this
      ensures record == Released(old(record), lease)
    {
      if record.Some? {
        var owner := if record.value.pid.Some? then record.value.pid.value else 0;
        if owner != lease.pid {
          return;
        }
      }
      record := None;
    }
  }

  // -- one host --------------------------------------------------------------------------

  /** A process is known by a serial number nobody else ever has, and by its parent's; its
      pid may be given to another once it is gone. */
  datatype Process = Process(serial: nat, parent: Option<nat>)

  /** `corpses` are pids of exited processes nobody has reaped, each with its parent. */
  datatype Machine = Machine(
    host: string, file: Option<Record>, running: map<int, Process>, corpses: map<int, Option<nat>>,
    leases: map<nat, Lease>, spawned: nat)

  datatype Step =
    | Spawn(pid: int, starter: int)
    | Ask(pid: int, at: int)
    | Acquire(pid: int, strategy: string, at: int)
    | Refresh(pid: int, nextWake: Option<int>, at: int)
    | Release(pid: int)
    | Exit(pid: int, unreaped: bool)
    | Reap(pid: int)

  function SerialOf(m: Machine, pid: int): Option<nat> {
    if pid in m.running then Some(m.running[pid].serial) else None
  }

  /** A corpse looks alive to everyone but its parent, who reaps it by asking. */
  predicate Masks(m: Machine, asker: int, pid: int) {
    pid in m.corpses && (m.corpses[pid].None? || m.corpses[pid] != SerialOf(m, asker))
  }

  function Probing(m: Machine, asker: int): Probe {
    pid => Some(pid in m.running || Masks(m, asker, pid))
  }

  /** What judging the claim leaves behind: the probe of a pid on this host reaps it when it
      is a dead child of the process asking. */
  function Asked(m: Machine, asker: int): Machine {
    if asker !in m.running || m.file.None? || m.file.value.pid.None? || m.file.value.pid.value <= 0
       || (m.file.value.host != "" && m.host != "" && m.file.value.host != m.host)
       || Masks(m, asker, m.file.value.pid.value)
    then m
    else m.(corpses := m.corpses - {m.file.value.pid.value})
  }

  /** The lease the process behind `pid` believes it holds. */
  function LeaseOf(m: Machine, pid: int): Option<Lease> {
    if pid in m.running && m.running[pid].serial in m.leases then Some(m.leases[m.running[pid].serial]) else None
  }

  function Taken(m: Machine, s: Step): Machine {
    match s
    case Spawn(pid, starter) =>
      if pid <= 0 || pid in m.running || pid in m.corpses then m
      else m.(running := m.running[pid := Process(m.spawned, SerialOf(m, starter))], spawned := m.spawned + 1)
    case Ask(pid, at) => Asked(m, pid)
    case Acquire(pid, strategy, at) =>
      if pid !in m.running then m
      else if Holder(m.file, m.host, Probing(m, pid), at).Some? then Asked(m, pid)
      else
        var claim := Claim(pid, m.host, strategy, at);
        Asked(m, pid).(file := Some(claim), leases := m.leases[m.running[pid].serial := Lease(pid, m.host, claim)])
    case Refresh(pid, nextWake, at) =>
      if LeaseOf(m, pid).None? then m
      else m.(file := Some(Renewed(LeaseOf(m, pid).value, nextWake, at)))
    case Release(pid) =>
      if LeaseOf(m, pid).None? then m
      else m.(file := Released(m.file, LeaseOf(m, pid).value), leases := m.leases - {m.running[pid].serial})
    case Exit(pid, unreaped) =>
      if pid !in m.running then m
      else m.(running := m.running - {pid}, leases := m.leases - {m.running[pid].serial},
              corpses := if unreaped then m.corpses[pid := m.running[pid].parent] else m.corpses)
    case Reap(pid) => m.(corpses := m.corpses - {pid})
  }

  function Ran(m: Machine, steps: seq<Step>): Machine {
    if |steps| == 0 then m else Taken(Ran(m, steps[..|steps| - 1]), steps[|steps| - 1])
  }

  /** Nothing running yet; whatever an earlier boot left in the file. */
  predicate Booted(m: Machine) {
    m.running == map[] && m.leases == map[] && m.corpses == map[]
  }

  /** Every lease held is held by a running process the file names. */
  ghost predicate Exclusive(m: Machine) {
    && (forall pid :: pid in m.running ==> pid > 0 && m.running[pid].serial < m.spawned)
    && (forall p, q :: p in m.running && q in m.running && m.running[p].serial == m.running[q].serial ==> p == q)
    && (forall serial :: serial in m.leases ==> HeldBy(m, serial, m.leases[serial].pid))
  }

  predicate HeldBy(m: Machine, serial: nat, pid: int) {
    && pid in m.running && m.running[pid].serial == serial
    && serial in m.leases && m.leases[serial].pid == pid && m.leases[serial].host == m.host
    && m.file.Some? && m.file.value.pid == Some(pid) && m.file.value.host == m.host
  }

  /** Starting, losing and reaping processes. */
  lemma ProcessStepKeeps(m: Machine, s: Step)
    requires Exclusive(m) && (s.Spawn? || s.Ask? || s.Exit? || s.Reap?)
    ensures Exclusive(Taken(m, s))
  {
    hide Renewed, Claim, Released, Holder;
    var t := Taken(m, s);
    forall serial | serial in t.leases
      ensures HeldBy(t, serial, t.leases[serial].pid)
    {
      if serial in m.leases {
        assert HeldBy(m, serial, m.leases[serial].pid);
      }
    }
  }

  lemma AcquireKeeps(m: Machine, s: Step)
    requires Exclusive(m) && s.Acquire?
    ensures Exclusive(Taken(m, s))
  {
    hide Renewed, Released;
    var t := Taken(m, s);
    forall serial | serial in t.leases
      ensures HeldBy(t, serial, t.leases[serial].pid)
    {
      if serial in m.leases {
        assert HeldBy(m, serial, m.leases[serial].pid);
      }
    }
  }

  /** Renewing and releasing. */
  lemma HolderStepKeeps(m: Machine, s: Step)
    requires Exclusive(m) && (s.Refresh? || s.Release?)
    ensures Exclusive(Taken(m, s))
  {
    hide Claim, Holder;
    var t := Taken(m, s);
    forall serial | serial in t.leases
      ensures HeldBy(t, serial, t.leases[serial].pid)
    {
      if serial in m.leases {
        assert HeldBy(m, serial, m.leases[serial].pid);
      }
    }
  }

  lemma StepKeepsExclusive(m: Machine, s: Step)
    requires Exclusive(m)
    ensures Exclusive(Taken(m, s))
  {
    hide Exclusive, Taken;
    match s {
      case Spawn(_, _) => ProcessStepKeeps(m, s);
      case Ask(_, _) => ProcessStepKeeps(m, s);
      case Acquire(_, _, _) => AcquireKeeps(m, s);
      case Refresh(_, _, _) => HolderStepKeeps(m, s);
      case Release(_) => HolderStepKeeps(m, s);
      case Exit(_, _) => ProcessStepKeeps(m, s);
      case Reap(_) => ProcessStepKeeps(m, s);
    }
  }

  lemma {:induction false} RunsAreExclusive(m: Machine, steps: seq<Step>)
    requires Booted(m)
    ensures Exclusive(Ran(m, steps))
  {
    if |steps| > 0 {
      RunsAreExclusive(m, steps[..|steps| - 1]);
      StepKeepsExclusive(Ran(m, steps[..|steps| - 1]), steps[|steps| - 1]);
    }
  }

  /** Mutual exclusion. In every interleaving of starts, claims, renewals, releases, crashes
      and recycled pids on one host, with any readings of the clock, at most one running
      process holds the loop, and the file names it. */
  lemma AtMostOneLoop(m: Machine, steps: seq<Step>, s1: nat, s2: nat)
    requires Booted(m) && s1 in Ran(m, steps).leases && s2 in Ran(m, steps).leases
    ensures s1 == s2 && HeldBy(Ran(m, steps), s1, Ran(m, steps).leases[s1].pid)
  {
    RunsAreExclusive(m, steps);
    var now := Ran(m, steps);
    assert HeldBy(now, s1, now.leases[s1].pid) && HeldBy(now, s2, now.leases[s2].pid);
  }

  /** A running holder loses the loop only by its own release or exit, whatever the clock
      says and whoever else starts, claims or dies. */
  lemma HolderIsNeverDisplaced(m: Machine, steps: seq<Step>, serial: nat, s: Step)
    requires Booted(m) && serial in Ran(m, steps).leases
    ensures var now, pid := Ran(m, steps), Ran(m, steps).leases[serial].pid;
            serial in Taken(now, s).leases <==> s != Release(pid) && !(s.Exit? && s.pid == pid)
  {
    RunsAreExclusive(m, steps);
    var now := Ran(m, steps);
    assert HeldBy(now, serial, now.leases[serial].pid);
    if LeaseOf(now, s.pid).Some? {
      AtMostOneLoop(m, steps, serial, now.running[s.pid].serial);
    }
  }

  /** Exactly when a running process gets the loop: nobody's claim is in the file, or one
      whose process is gone from this host — reaped, or the asker's own dead child — or one
      from elsewhere that has run out. */
  lemma AcquiresExactly(m: Machine, pid: int, strategy: string, at: int)
    requires pid in m.running && m.running[pid].serial !in m.leases
    ensures LeaseOf(Taken(m, Acquire(pid, strategy, at)), pid).Some? <==>
              m.file.None?
              || (if m.file.value.host != "" && m.host != "" && m.file.value.host != m.host then IsExpired(m.file.value, at)
                  else if m.file.value.pid.None? || m.file.value.pid.value <= 0 then IsExpired(m.file.value, at)
                  else m.file.value.pid.value !in m.running && !Masks(m, pid, m.file.value.pid.value))
  {
  }

  lemma HolderIsNamed(m: Machine, pid: int)
    requires Exclusive(m)
    ensures LeaseOf(m, pid).Some? ==>
              LeaseOf(m, pid).value.pid == pid && m.file.Some? && m.file.value.pid == Some(pid) && m.file.value.host == m.host
  {
  }

  /** A crashed holder is replaced at once, before its claim has expired, unless it left a
      corpse and the one asking is not its parent. */
  lemma CrashedHolderIsReplaced(m: Machine, dead: int, unreaped: bool, pid: int, strategy: string, at: int)
    requires Exclusive(m) && LeaseOf(m, dead).Some? && pid in m.running && pid != dead && dead !in m.corpses
    ensures var after := Taken(m, Exit(dead, unreaped));
            LeaseOf(Taken(after, Acquire(pid, strategy, at)), pid).Some?
            <==> !unreaped || m.running[dead].parent == Some(m.running[pid].serial)
  {
    HolderIsNamed(m, dead);
    HolderIsNamed(m, pid);
    var after := Taken(m, Exit(dead, unreaped));
    assert after.running[pid] == m.running[pid] && after.running[pid].serial !in after.leases;
    AcquiresExactly(after, pid, strategy, at);
  }

  /** Once the dead holder's parent has asked who runs the loop, anyone can take it. */
  lemma ParentClearsTheMask(m: Machine, dead: int, parent: int, askedAt: int, pid: int, strategy: string, at: int)
    requires Exclusive(m) && LeaseOf(m, dead).Some? && dead !in m.corpses
    requires parent in m.running && parent != dead && m.running[dead].parent == Some(m.running[parent].serial)
    requires pid in m.running && pid != dead
    ensures var after := Taken(Taken(m, Exit(dead, true)), Ask(parent, askedAt));
            dead !in after.corpses && LeaseOf(Taken(after, Acquire(pid, strategy, at)), pid).Some?
  {
    HolderIsNamed(m, dead);
    HolderIsNamed(m, pid);
    var after := Taken(Taken(m, Exit(dead, true)), Ask(parent, askedAt));
    assert after.running[pid] == m.running[pid] && after.running[pid].serial !in after.leases;
    AcquiresExactly(after, pid, strategy, at);
  }

  /** While some process answers to the pid in a dead claim, or its corpse is somebody
      else's child, nobody else can take the loop, at any reading of the clock. The module's
      own description says until the claim expires. */
  lemma MaskedClaimIsHeldForever(m: Machine, other: int, strategy: string, at: int)
    requires m.file.Some? && m.file.value.host == m.host && m.file.value.pid.Some? && m.file.value.pid.value > 0
    requires m.file.value.pid.value in m.running || Masks(m, other, m.file.value.pid.value)
    ensures var t := Taken(m, Acquire(other, strategy, at));
            t.file == m.file && t.leases == m.leases && t.running == m.running
  {
  }

  lemma RanOneMore(m: Machine, steps: seq<Step>, s: Step)
    ensures Ran(m, steps + [s]) == Taken(Ran(m, steps), s)
  {
  }

  /** The loop at pid 7 dies; something unrelated is given pid 7; a year later pid 8 asks. */
  const RECYCLED: seq<Step> :=
    [Spawn(7, 0)] + [Acquire(7, "s", 0)] + [Exit(7, false)] + [Spawn(7, 0)] + [Spawn(8, 0)] + [Acquire(8, "s", 31536000)]

  lemma RecycledRun(m: Machine)
    ensures Ran(m, RECYCLED) ==
              Taken(Taken(Taken(Taken(Taken(Taken(m, Spawn(7, 0)), Acquire(7, "s", 0)), Exit(7, false)), Spawn(7, 0)),
                          Spawn(8, 0)), Acquire(8, "s", 31536000))
  {
    hide Taken;
    var s1 := [Spawn(7, 0)];
    var s2 := s1 + [Acquire(7, "s", 0)];
    var s3 := s2 + [Exit(7, false)];
    var s4 := s3 + [Spawn(7, 0)];
    RanOneMore(m, [], Spawn(7, 0));
    assert [] + s1 == s1;
    RanOneMore(m, s1, Acquire(7, "s", 0));
    RanOneMore(m, s2, Exit(7, false));
    RanOneMore(m, s3, Spawn(7, 0));
    RanOneMore(m, s4, Spawn(8, 0));
    RanOneMore(m, s4 + [Spawn(8, 0)], Acquire(8, "s", 31536000));
  }

  lemma RecycledPidOutlivesExpiry()
    ensures var now := Ran(Machine("h", None, map[], map[], map[], 0), RECYCLED);
            now.leases == map[] && now.file.Some? && IsExpired(now.file.value, 31536000)
  {
    hide Ran;
    var m := Machine("h", None, map[], map[], map[], 0);
    RecycledRun(m);
    var claimed := Taken(Taken(m, Spawn(7, 0)), Acquire(7, "s", 0));
    assert claimed.file == Some(Claim(7, "h", "s", 0)) && claimed.corpses == map[];
    var died := Taken(claimed, Exit(7, false));
    assert died.leases == map[] && died.corpses == map[] && 7 !in died.running;
    MaskedClaimIsHeldForever(Taken(Taken(died, Spawn(7, 0)), Spawn(8, 0)), 8, "s", 31536000);
  }

  /** A release never removes a claim that names another pid. */
  lemma ReleaseSparesOthers(file: Record, lease: Lease)
    requires lease.pid > 0
    ensures Released(Some(file), lease) == if file.pid == Some(lease.pid) then None else Some(file)
  {
  }

  /** To another host a claim stands until the grace period after the moment its holder said
      it would wake, or after it last spoke when it named none, and not a second longer,
      whatever processes that host has; a claim not yet renewed until the grace period after
      it was made; one whose expiry cannot be read not at all. */
  lemma RemoteJudgesByTheCommitment(lease: Lease, strategy: string, nextWake: Option<int>, spoke: int, host: string, probe: Probe, at: int)
    requires lease.host != "" && host != "" && host != lease.host
    ensures var record := Renewed(lease, nextWake, spoke);
            Holder(Some(record), host, probe, at) ==
              if at < (match nextWake case None => spoke case Some(wake) => wake) + 300 then Some(record) else None
    ensures var record := Claim(lease.pid, lease.host, strategy, spoke);
            Holder(Some(record), host, probe, at) == if at < spoke + 300 then Some(record) else None
    ensures Holder(Some(Renewed(lease, nextWake, spoke).(expires := None)), host, probe, at).None?
  {
  }

  /** A renewal names its own process and host, whatever the file said, and keeps when the
      loop started and what it trades. */
  lemma RenewalNamesTheHolder(lease: Lease, nextWake: Option<int>, spoke: int, probe: Probe, at: int)
    requires lease.pid > 0
    ensures var record := Renewed(lease, nextWake, spoke);
            && record.pid == Some(lease.pid) && record.host == lease.host && record.heartbeat == spoke && record.nextWake == nextWake
            && record.started == lease.record.started && record.strategy == lease.record.strategy
            && (probe(lease.pid).Some? ==>
                  (Holder(Some(record), lease.host, probe, at).Some? <==> probe(lease.pid) == Some(true)))
  {
  }
}
