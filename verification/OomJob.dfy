/** Job admission records of src/oom_job.rs and the decisions of src/managed_oom.rs. */
module OomJob {
  const OOM_BIAS_TARGET: int := 250
  const LEASE_SECS: nat := 120
  const PASS_LIMIT: nat := 256

  /** A process incarnation: a pid together with its start time. */
  type Process = nat

  datatype Phase = Admitted | Active | Draining | Terminal

  /** What one admission recorded once and for all. */
  datatype Identity = Identity(
    version: nat, id: string, bootId: nat, unit: string, invocation: nat, group: string,
    groupDevice: nat, groupInode: nat, sentinel: Process, baseline: int)

  datatype Job = Job(identity: Identity, phase: Phase, terminalProof: bool)

  function Rank(p: Phase): nat {
    match p
    case Admitted => 0
    case Active => 1
    case Draining => 2
    case Terminal => 3
  }

  predicate TerminalCandidate(sentinel: Process, members: seq<Process>, tasks: nat, ownThreads: nat) {
    ownThreads == 1 && tasks == 1 && members == [sentinel]
  }

  /** Two records of one admission: equal but for the phase and the proof. */
  predicate SameAdmission(left: Job, right: Job) {
    left.(phase := right.phase, terminalProof := right.terminalProof) == right
  }

  predicate SupportedBaseline(baseline: int) { -499 <= baseline < OOM_BIAS_TARGET }

  datatype Debt = Debt(admission: Job, deadline: nat, draining: bool, attempts: nat, lastError: bool)

  datatype Facts = Facts(sameBoot: bool, terminalProof: bool, sameAdmission: bool, deadlinePassed: bool, draining: bool)

  datatype Decision = Drain | Hold | Retire | ArchivePreviousBoot

  function Decide(f: Facts): Decision {
    if !f.sameBoot then ArchivePreviousBoot
    else if !f.sameAdmission then Drain
    else if f.terminalProof then Retire
    else if f.draining || f.deadlinePassed then Drain
    else Hold
  }

  function FactsOf(job: Job, debt: Debt, boot: nat, deadlinePassed: bool): Facts {
    Facts(job.identity.bootId == boot, job.phase == Terminal && job.terminalProof, SameAdmission(job, debt.admission),
          deadlinePassed, debt.draining)
  }

  /** An admission is its whole identity: version, generation, boot, unit, invocation, cgroup, sentinel and baseline. */
  lemma SameAdmissionIff(left: Job, right: Job)
    ensures SameAdmission(left, right) <==> left.identity == right.identity
  {
  }
}
